/**
  Closed-form descriptions of what the recursive resolvers and the renderer
  compute, stated over the chain of structured records reached by following
  causes, and the proofs that the recursive definitions meet them.
 */
module Chain {
  import opened Wrappers
  import opened Errors
  import opened Cast

  /** The structured records of a chain, outermost first. The walk stops at
      nil and at a foreign error, whose insides the resolvers never see. */
  function Links(err: Option<ErrorValue>): (c: seq<Error>)
    ensures |c| == 0 <==> err.None? || err.value.Foreign?
    ensures |c| > 0 ==> c[0] == err.value.e
    ensures forall i | 0 <= i < |c| - 1 :: c[i].cause == Some(Structured(c[i + 1]))
  {
    match err
    case Some(Structured(e)) => [e] + Links(e.cause)
    case _ => []
  }

  /** The walk is complete: its last record has no structured cause. */
  lemma {:induction false} LinksComplete(err: Option<ErrorValue>)
    ensures var c := Links(err); |c| > 0 ==> c[|c| - 1].cause.None? || c[|c| - 1].cause.value.Foreign?
  {
    match err
    case Some(Structured(e)) => LinksComplete(e.cause);
    case _ =>
  }

  /** The innermost error of a chain: a foreign error, or a structured record
      without a cause. */
  function Innermost(v: ErrorValue): (r: ErrorValue)
    ensures r.Foreign? || r.e.cause.None?
  {
    match v
    case Structured(Error(_, _, _, Some(c), _)) => Innermost(c)
    case _ => v
  }

  /** `Innermost` is the end of the walk `Links` takes: a foreign error is its
      own end; otherwise it is the last record of the walk, or the foreign
      error that record wraps. */
  lemma {:induction false} InnermostEndsLinks(v: ErrorValue)
    ensures v.Foreign? ==> Innermost(v) == v
    ensures v.Structured? ==>
      var c := Links(Some(v));
      |c| > 0 &&
      ((Innermost(v).Foreign? && c[|c| - 1].cause == Some(Innermost(v))) || Innermost(v) == Structured(c[|c| - 1]))
  {
    match v
    case Foreign(_) =>
    case Structured(e) =>
      LinksUnfold(e);
      match e.cause
      case None =>
      case Some(inner) =>
        InnermostEndsLinks(inner);
        assert Innermost(v) == Innermost(inner);
  }

  function Codes(c: seq<Error>): (fields: seq<string>)
    ensures |fields| == |c| && forall i | 0 <= i < |c| :: fields[i] == c[i].code
  {
    seq(|c|, i requires 0 <= i < |c| => c[i].code)
  }

  function Messages(c: seq<Error>): (fields: seq<string>)
    ensures |fields| == |c| && forall i | 0 <= i < |c| :: fields[i] == c[i].message
  {
    seq(|c|, i requires 0 <= i < |c| => c[i].message)
  }

  /** `r` is the first non-empty entry of `fields`, or `fallback` when every
      entry is empty. */
  ghost predicate FirstSet(fields: seq<string>, fallback: string, r: string) {
    || (exists i | 0 <= i < |fields| :: fields[i] != "" && r == fields[i] && forall j | 0 <= j < i :: fields[j] == "")
    || (r == fallback && forall j | 0 <= j < |fields| :: fields[j] == "")
  }

  /** At most one string is the first non-empty entry. */
  lemma FirstSetIsUnique(fields: seq<string>, fallback: string, r1: string, r2: string)
    requires FirstSet(fields, fallback, r1) && FirstSet(fields, fallback, r2)
    ensures r1 == r2
  {
  }

  /** Prepending an empty entry does not change the first non-empty one. */
  lemma FirstSetSkipsEmpty(fields: seq<string>, fallback: string, r: string)
    requires FirstSet(fields, fallback, r)
    ensures FirstSet([""] + fields, fallback, r)
  {
    var g := [""] + fields;
    if i :| 0 <= i < |fields| && fields[i] != "" && r == fields[i] && forall j | 0 <= j < i :: fields[j] == "" {
      assert g[i + 1] == fields[i];
      forall j | 0 <= j < i + 1 ensures g[j] == "" {
        if j > 0 { assert g[j] == fields[j - 1]; }
      }
    } else {
      forall j | 0 <= j < |g| ensures g[j] == "" {
        if j > 0 { assert g[j] == fields[j - 1]; }
      }
    }
  }

  /** Dropping the outermost record of a chain whose link is structured. */
  lemma LinksUnfold(e: Error)
    ensures Links(Some(Structured(e))) == [e] + Links(e.cause)
    ensures Codes([e] + Links(e.cause)) == [e.code] + Codes(Links(e.cause))
    ensures Messages([e] + Links(e.cause)) == [e.message] + Messages(Links(e.cause))
  {
  }

  /** `Code` of a non-nil error is the first non-empty code along its chain,
      or "internal" when there is none. */
  lemma {:induction false} CodeIsFirstSetCode(err: Option<ErrorValue>)
    requires err.Some?
    ensures FirstSet(Codes(Links(err)), Internal, Code(err))
  {
    match err.value
    case Foreign(_) =>
    case Structured(e) =>
      LinksUnfold(e);
      var fields := Codes(Links(err));
      if e.code != "" {
        assert fields[0] == e.code;
      } else if e.cause.Some? {
        CodeIsFirstSetCode(e.cause);
        FirstSetSkipsEmpty(Codes(Links(e.cause)), Internal, Code(e.cause));
      } else {
        assert fields == [""];
      }
  }

  /** `Message` of a non-nil error is the first non-empty message along its
      chain, or the fallback message when there is none. */
  lemma {:induction false} MessageIsFirstSetMessage(err: Option<ErrorValue>)
    requires err.Some?
    ensures FirstSet(Messages(Links(err)), GlobalError, Message(err))
  {
    match err.value
    case Foreign(_) =>
    case Structured(e) =>
      LinksUnfold(e);
      var fields := Messages(Links(err));
      if e.message != "" {
        assert fields[0] == e.message;
      } else if e.cause.Some? {
        MessageIsFirstSetMessage(e.cause);
        FirstSetSkipsEmpty(Messages(Links(e.cause)), GlobalError, Message(e.cause));
      } else {
        assert fields == [""];
      }
  }

  /** The operation prefixes of a chain's records, outermost first. */
  function OpPrefixes(c: seq<Error>): string {
    if c == [] then "" else OpPrefix(c[0].operation) + OpPrefixes(c[1..])
  }

  /** What the innermost error contributes to a rendering. */
  function LeafText(v: ErrorValue): string {
    match v
    case Foreign(t) => t
    case Structured(e) => Leaf(e)
  }

  /** A rendering is every operation prefix along the chain, outermost
      first, followed by the innermost error's text; the codes and messages
      of the outer records never appear. */
  lemma {:induction false} RenderClosedForm(v: ErrorValue)
    ensures Text(v) == OpPrefixes(Links(Some(v))) + LeafText(Innermost(v))
  {
    match v
    case Foreign(_) =>
    case Structured(e) =>
      var c := Links(Some(v));
      LinksUnfold(e);
      assert c[1..] == Links(e.cause);
      match e.cause
      case None =>
      case Some(inner) =>
        RenderClosedForm(inner);
        assert Innermost(v) == Innermost(inner);
  }
}
