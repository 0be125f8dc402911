// CancelWorkflowExecutionFailedEventAttributesUnmarshaller (Amazon Simple
// Workflow): answers null on a current JSON null token; otherwise a
// `while (context.Read())` loop takes `cause` and `decisionTaskCompletedEventId`
// from the value token that follows each name one level below the entry depth,
// and returns at the first other token no deeper than the entry depth.
module SwfCancelFailedUnmarshaller {
  import opened Wrappers
  import opened Cursor

  datatype CancelWorkflowExecutionFailedEventAttributes = CancelWorkflowExecutionFailedEventAttributes(
    cause: Option<string>,
    decisionTaskCompletedEventId: Option<int>)

  const Unset := CancelWorkflowExecutionFailedEventAttributes(None, None)

  const CauseName := "cause"
  const EventIdName := "decisionTaskCompletedEventId"

  /** The `while (context.Read())` loop, from the position q its guard has just read. */
  function Loop(ts: seq<Token>, originalDepth: int, q: int, acc: CancelWorkflowExecutionFailedEventAttributes)
    : (r: Result<Decoded<CancelWorkflowExecutionFailedEventAttributes>, UnmarshallError>)
    requires 0 <= q <= |ts|
    decreases |ts| - q
    ensures r.Success? ==> q <= r.value.end <= |ts|
  {
    var targetDepth := originalDepth + 1;
    if q == |ts| then Success(Decoded(acc, q))
    else if TestAt(ts, q, CauseName, targetDepth) then
      Loop(ts, originalDepth, Next(ts, q + 1), acc.(cause := StringValue(ts, q + 1)))
    else if TestAt(ts, q, EventIdName, targetDepth) then
      match LongValue(ts, q + 1)
      case Failure(e) => Failure(e)
      case Success(n) => Loop(ts, originalDepth, Next(ts, q + 1), acc.(decisionTaskCompletedEventId := Some(n)))
    else if ts[q].depth <= originalDepth then Success(Decoded(acc, q))
    else Loop(ts, originalDepth, q + 1, acc)
  }

  /** The JSON Unmarshall with the cursor on position p. */
  function Decode(ts: seq<Token>, p: int): (r: Result<Decoded<Option<CancelWorkflowExecutionFailedEventAttributes>>, UnmarshallError>)
    requires InCursorRange(ts, p)
    ensures KindIs(ts, p, NullValue) <==> r.Success? && r.value.value.None?
    ensures KindIs(ts, p, NullValue) ==> r.value.end == p
  {
    if KindIs(ts, p, NullValue) then Success(Decoded(None, p))
    else
      match Loop(ts, DepthAt(ts, p), Next(ts, p), Unset)
      case Failure(e) => Failure(e)
      case Success(dec) => Success(Decoded(Some(dec.value), dec.end))
  }

  /** Position k names the member `name` one level below the entry depth. */
  predicate MemberAt(ts: seq<Token>, k: int, name: string, originalDepth: int) {
    TestAt(ts, k, name, originalDepth + 1)
  }

  /** Position k holds the value of a member name matched just before it. */
  predicate ValueToken(ts: seq<Token>, k: int, originalDepth: int) {
    MemberAt(ts, k - 1, CauseName, originalDepth) || MemberAt(ts, k - 1, EventIdName, originalDepth)
  }

  /**
   * Position k is one the loop, started at q, tests against the member names:
   * the position after a matched name holds its value and is stepped over,
   * and the loop stops at the first unmatched token no deeper than the entry.
   */
  ghost predicate Visited(ts: seq<Token>, originalDepth: int, q: int, k: int): (b: bool)
    requires 0 <= q <= |ts|
    decreases |ts| - q
    ensures b ==> q <= k < |ts|
  {
    && q < |ts|
    && (|| k == q
        || if MemberAt(ts, q, CauseName, originalDepth) || MemberAt(ts, q, EventIdName, originalDepth)
           then Visited(ts, originalDepth, Next(ts, q + 1), k)
           else ts[q].depth > originalDepth && Visited(ts, originalDepth, q + 1, k))
  }

  /**
   * The loop ends at the end of input or on a token no deeper than the entry
   * depth; every token it went past is deeper, or is the value of a member.
   */
  lemma {:induction false} LoopExit(ts: seq<Token>, originalDepth: int, q: int, acc: CancelWorkflowExecutionFailedEventAttributes)
    requires 0 <= q <= |ts|
    requires Loop(ts, originalDepth, q, acc).Success?
    ensures var e := Loop(ts, originalDepth, q, acc).value.end;
            && (e == |ts| || ts[e].depth <= originalDepth)
            && forall k :: q <= k < e ==> ts[k].depth > originalDepth || ValueToken(ts, k, originalDepth)
    decreases |ts| - q
  {
    var t := originalDepth + 1;
    if q < |ts| {
      if TestAt(ts, q, CauseName, t) {
        LoopExit(ts, originalDepth, Next(ts, q + 1), acc.(cause := StringValue(ts, q + 1)));
      } else if TestAt(ts, q, EventIdName, t) {
        LoopExit(ts, originalDepth, Next(ts, q + 1), acc.(decisionTaskCompletedEventId := Some(LongValue(ts, q + 1).value)));
      } else if ts[q].depth > originalDepth {
        LoopExit(ts, originalDepth, q + 1, acc);
      }
    }
  }

  /**
   * `cause`, when it changed, is the text of the token after a `cause` name at
   * the target depth; the last such name the loop tests wins, and with none
   * the field keeps its value.
   */
  lemma {:induction false} LoopCause(ts: seq<Token>, originalDepth: int, q: int, acc: CancelWorkflowExecutionFailedEventAttributes)
    requires 0 <= q <= |ts|
    requires Loop(ts, originalDepth, q, acc).Success?
    ensures var Decoded(a, e) := Loop(ts, originalDepth, q, acc).value;
            a.cause != acc.cause ==>
              exists k :: q <= k < e && MemberAt(ts, k, CauseName, originalDepth) && a.cause == StringValue(ts, k + 1)
    ensures var a := Loop(ts, originalDepth, q, acc).value.value;
            (forall k :: Visited(ts, originalDepth, q, k) ==> !MemberAt(ts, k, CauseName, originalDepth)) ==> a.cause == acc.cause
    ensures var a := Loop(ts, originalDepth, q, acc).value.value;
            forall k :: && Visited(ts, originalDepth, q, k) && MemberAt(ts, k, CauseName, originalDepth)
                        && (forall j :: Visited(ts, originalDepth, q, j) && k < j ==> !MemberAt(ts, j, CauseName, originalDepth))
                        ==> a.cause == StringValue(ts, k + 1)
    decreases |ts| - q
  {
    var t := originalDepth + 1;
    if q < |ts| {
      if TestAt(ts, q, CauseName, t) {
        LoopCause(ts, originalDepth, Next(ts, q + 1), acc.(cause := StringValue(ts, q + 1)));
        assert MemberAt(ts, q, CauseName, originalDepth);
      } else if TestAt(ts, q, EventIdName, t) {
        LoopCause(ts, originalDepth, Next(ts, q + 1), acc.(decisionTaskCompletedEventId := Some(LongValue(ts, q + 1).value)));
      } else if ts[q].depth > originalDepth {
        LoopCause(ts, originalDepth, q + 1, acc);
      }
    }
  }

  /**
   * `decisionTaskCompletedEventId`, when it changed, is the number decoded
   * from the token after such a name at the target depth; the last such name
   * the loop tests wins, and with none the field keeps its value.
   */
  lemma {:induction false} LoopEventId(ts: seq<Token>, originalDepth: int, q: int, acc: CancelWorkflowExecutionFailedEventAttributes)
    requires 0 <= q <= |ts|
    requires Loop(ts, originalDepth, q, acc).Success?
    ensures var Decoded(a, e) := Loop(ts, originalDepth, q, acc).value;
            a.decisionTaskCompletedEventId != acc.decisionTaskCompletedEventId ==>
              exists k :: && q <= k < e && MemberAt(ts, k, EventIdName, originalDepth)
                          && LongValue(ts, k + 1).Success?
                          && a.decisionTaskCompletedEventId == Some(LongValue(ts, k + 1).value)
    ensures var a := Loop(ts, originalDepth, q, acc).value.value;
            (forall k :: Visited(ts, originalDepth, q, k) ==> !MemberAt(ts, k, EventIdName, originalDepth))
            ==> a.decisionTaskCompletedEventId == acc.decisionTaskCompletedEventId
    ensures var a := Loop(ts, originalDepth, q, acc).value.value;
            forall k :: && Visited(ts, originalDepth, q, k) && MemberAt(ts, k, EventIdName, originalDepth)
                        && (forall j :: Visited(ts, originalDepth, q, j) && k < j ==> !MemberAt(ts, j, EventIdName, originalDepth))
                        ==> LongValue(ts, k + 1).Success? && a.decisionTaskCompletedEventId == Some(LongValue(ts, k + 1).value)
    decreases |ts| - q
  {
    var t := originalDepth + 1;
    if q < |ts| {
      if TestAt(ts, q, CauseName, t) {
        LoopEventId(ts, originalDepth, Next(ts, q + 1), acc.(cause := StringValue(ts, q + 1)));
      } else if TestAt(ts, q, EventIdName, t) {
        LoopEventId(ts, originalDepth, Next(ts, q + 1), acc.(decisionTaskCompletedEventId := Some(LongValue(ts, q + 1).value)));
        assert MemberAt(ts, q, EventIdName, originalDepth);
      } else if ts[q].depth > originalDepth {
        LoopEventId(ts, originalDepth, q + 1, acc);
      }
    }
  }

  /**
   * A non-null result: decoding stops at the end of input or at a token no
   * deeper than the entry token, and a member that is set came from the value
   * following its name one level below the entry depth, the last such name
   * the loop tests wins, and unnamed members stay unset.
   */
  lemma DecodeFields(ts: seq<Token>, p: int)
    requires InCursorRange(ts, p)
    requires Decode(ts, p).Success? && Decode(ts, p).value.value.Some?
    ensures var d := DepthAt(ts, p);
            var Decoded(a, e) := Decode(ts, p).value;
            && (e == |ts| || ts[e].depth <= d)
            && (forall k :: p < k < e ==> ts[k].depth > d || ValueToken(ts, k, d))
            && (a.value.cause.Some? ==>
                 exists k :: p < k < e && MemberAt(ts, k, CauseName, d) && a.value.cause == StringValue(ts, k + 1))
            && (a.value.decisionTaskCompletedEventId.Some? ==>
                 exists k :: && p < k < e && MemberAt(ts, k, EventIdName, d)
                             && LongValue(ts, k + 1).Success?
                             && a.value.decisionTaskCompletedEventId == Some(LongValue(ts, k + 1).value))
    ensures var d := DepthAt(ts, p);
            var a := Decode(ts, p).value.value.value;
            forall k :: && Visited(ts, d, Next(ts, p), k) && MemberAt(ts, k, CauseName, d)
                        && (forall j :: Visited(ts, d, Next(ts, p), j) && k < j ==> !MemberAt(ts, j, CauseName, d))
                        ==> a.cause == StringValue(ts, k + 1)
    ensures var d := DepthAt(ts, p);
            var a := Decode(ts, p).value.value.value;
            forall k :: && Visited(ts, d, Next(ts, p), k) && MemberAt(ts, k, EventIdName, d)
                        && (forall j :: Visited(ts, d, Next(ts, p), j) && k < j ==> !MemberAt(ts, j, EventIdName, d))
                        ==> LongValue(ts, k + 1).Success? && a.decisionTaskCompletedEventId == Some(LongValue(ts, k + 1).value)
  {
    var d := DepthAt(ts, p);
    var s := Next(ts, p);
    assert s - 1 == p || (p == |ts| && s == p);
    var r := Loop(ts, d, s, Unset);
    assert Decode(ts, p).value == Decoded(Some(r.value.value), r.value.end);
    LoopExit(ts, d, s, Unset);
    LoopCause(ts, d, s, Unset);
    LoopEventId(ts, d, s, Unset);
  }

  class CancelWorkflowExecutionFailedEventAttributesUnmarshaller {
    constructor () {}

    /** The XML-context variant is not implemented. */
    method UnmarshallXml(context: UnmarshallerContext) returns (r: Result<CancelWorkflowExecutionFailedEventAttributes, UnmarshallError>)
      ensures r == Failure(NotImplemented)
    {
      r := Failure(NotImplemented);
    }

    method Unmarshall(context: UnmarshallerContext) returns (r: Result<Option<CancelWorkflowExecutionFailedEventAttributes>, UnmarshallError>)
      requires context.Valid()
      modifies context
      ensures context.Valid()
      ensures r == ValueOf(Decode(context.tokens, old(context.pos)))
      ensures r.Success? ==> context.pos == Decode(context.tokens, old(context.pos)).value.end
    {
      if context.IsNullToken() {
        return Success(None);
      }
      var attributes := Unset;
      var originalDepth := context.CurrentDepth();
      var targetDepth := originalDepth + 1;
      ghost var start := context.pos;
      var more := context.Read();
      while more
        invariant context.Valid() && 0 <= context.pos
        invariant more <==> context.pos < |context.tokens|
        invariant Loop(context.tokens, originalDepth, Next(context.tokens, start), Unset)
                  == Loop(context.tokens, originalDepth, context.pos, attributes)
        decreases |context.tokens| - context.pos
      {
        if context.TestExpression(CauseName, targetDepth) {
          var _ := context.Read();
          attributes := attributes.(cause := StringValue(context.tokens, context.pos));
        } else if context.TestExpression(EventIdName, targetDepth) {
          var _ := context.Read();
          var id := LongValue(context.tokens, context.pos);
          if id.Failure? {
            return Failure(id.error);
          }
          attributes := attributes.(decisionTaskCompletedEventId := Some(id.value));
        } else if context.CurrentDepth() <= originalDepth {
          return Success(Some(attributes));
        }
        more := context.Read();
      }
      r := Success(Some(attributes));
    }
  }

  /** The lazily assigned static instance field and its GetInstance accessor. */
  class CancelWorkflowExecutionFailedEventAttributesUnmarshallerInstance {
    var instance: CancelWorkflowExecutionFailedEventAttributesUnmarshaller?

    constructor ()
      ensures instance == null
    {
      instance := null;
    }

    method GetInstance() returns (u: CancelWorkflowExecutionFailedEventAttributesUnmarshaller)
      modifies this
      ensures old(instance) != null ==> u == old(instance)
      ensures old(instance) == null ==> fresh(u)
      ensures instance == u
    {
      if instance == null {
        instance := new CancelWorkflowExecutionFailedEventAttributesUnmarshaller();
      }
      u := instance;
    }
  }

  /** Two calls hand out the same object: the instance is created at most once. */
  method GetInstanceIsIdempotent(holder: CancelWorkflowExecutionFailedEventAttributesUnmarshallerInstance)
    returns (first: CancelWorkflowExecutionFailedEventAttributesUnmarshaller, second: CancelWorkflowExecutionFailedEventAttributesUnmarshaller)
    modifies holder
    ensures first == second && holder.instance == first
  {
    first := holder.GetInstance();
    second := holder.GetInstance();
  }
}
