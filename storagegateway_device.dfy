// DeviceiSCSIAttributesUnmarshaller (AWS Storage Gateway): reads one token,
// answers null for a JSON null, and otherwise collects four fields from the
// tokens at the depth of that first token.
module StorageGatewayDeviceUnmarshaller {
  import opened Wrappers
  import opened Cursor

  datatype DeviceiSCSIAttributes = DeviceiSCSIAttributes(
    targetARN: Option<string>,
    networkInterfaceId: Option<string>,
    networkInterfacePort: Option<int>,
    chapEnabled: Option<bool>)

  const Unset := DeviceiSCSIAttributes(None, None, None, None)

  /** One pass of the loop body on the token q just read at depth >= d. */
  function Step(ts: seq<Token>, d: int, q: int, acc: DeviceiSCSIAttributes): Result<DeviceiSCSIAttributes, UnmarshallError>
    requires 0 <= q < |ts|
  {
    if TestAt(ts, q, "TargetARN", d) then Success(acc.(targetARN := StringValue(ts, q)))
    else if TestAt(ts, q, "NetworkInterfaceId", d) then Success(acc.(networkInterfaceId := StringValue(ts, q)))
    else if TestAt(ts, q, "NetworkInterfacePort", d) then
      match IntValue(ts, q)
      case Failure(e) => Failure(e)
      case Success(n) => Success(acc.(networkInterfacePort := Some(n)))
    else if TestAt(ts, q, "ChapEnabled", d) then
      match BoolValue(ts, q)
      case Failure(e) => Failure(e)
      case Success(b) => Success(acc.(chapEnabled := Some(b)))
    else Success(acc)
  }

  /**
   * The ReadAtDepth loop, from the position q its guard has just read, with
   * the fields collected so far.
   */
  function Loop(ts: seq<Token>, d: int, q: int, acc: DeviceiSCSIAttributes): (r: Result<Decoded<DeviceiSCSIAttributes>, UnmarshallError>)
    requires 0 <= q <= |ts|
    decreases |ts| - q
    ensures r.Success? ==> q <= r.value.end <= |ts|
  {
    if !(q < |ts| && ts[q].depth >= d) then Success(Decoded(acc, q))
    else
      match Step(ts, d, q, acc)
      case Failure(e) => Failure(e)
      case Success(acc') => Loop(ts, d, q + 1, acc')
  }

  /**
   * The JSON Unmarshall from cursor position p: one Read, the null check, then
   * the loop over the tokens at the depth of the token read.
   */
  function Decode(ts: seq<Token>, p: int): (r: Result<Decoded<Option<DeviceiSCSIAttributes>>, UnmarshallError>)
    requires InCursorRange(ts, p)
    ensures KindIs(ts, Next(ts, p), NullValue) <==> r.Success? && r.value.value.None?
    ensures KindIs(ts, Next(ts, p), NullValue) ==> r.value.end == Next(ts, p)
  {
    var q := Next(ts, p);
    if KindIs(ts, q, NullValue) then Success(Decoded(None, q))
    else
      match Loop(ts, DepthAt(ts, q), Next(ts, q), Unset)
      case Failure(e) => Failure(e)
      case Success(dec) => Success(Decoded(Some(dec.value), dec.end))
  }

  /**
   * The loop stops at the first token that is missing or shallower than d,
   * and every token it passed over was at least d deep.
   */
  lemma {:induction false} LoopExit(ts: seq<Token>, d: int, q: int, acc: DeviceiSCSIAttributes)
    requires 0 <= q <= |ts|
    requires Loop(ts, d, q, acc).Success?
    ensures var e := Loop(ts, d, q, acc).value.end;
            (e == |ts| || ts[e].depth < d) && forall k :: q <= k < e ==> ts[k].depth >= d
    decreases |ts| - q
  {
    if q < |ts| && ts[q].depth >= d {
      LoopExit(ts, d, q + 1, Step(ts, d, q, acc).value);
    }
  }

  /** The value of the last TargetARN token at depth d wins; none leaves the field as it was. */
  lemma {:induction false} LoopTargetARN(ts: seq<Token>, d: int, q: int, acc: DeviceiSCSIAttributes)
    requires 0 <= q <= |ts|
    requires Loop(ts, d, q, acc).Success?
    ensures var Decoded(a, e) := Loop(ts, d, q, acc).value;
            a.targetARN == (match LastHit(ts, q - 1, e, "TargetARN", d, false)
                             case None => acc.targetARN
                             case Some(k) => StringValue(ts, k))
    decreases |ts| - q
  {
    if q < |ts| && ts[q].depth >= d {
      LoopTargetARN(ts, d, q + 1, Step(ts, d, q, acc).value);
    }
  }

  /** The value of the last NetworkInterfaceId token at depth d wins. */
  lemma {:induction false} LoopNetworkInterfaceId(ts: seq<Token>, d: int, q: int, acc: DeviceiSCSIAttributes)
    requires 0 <= q <= |ts|
    requires Loop(ts, d, q, acc).Success?
    ensures var Decoded(a, e) := Loop(ts, d, q, acc).value;
            a.networkInterfaceId == (match LastHit(ts, q - 1, e, "NetworkInterfaceId", d, false)
                                      case None => acc.networkInterfaceId
                                      case Some(k) => StringValue(ts, k))
    decreases |ts| - q
  {
    if q < |ts| && ts[q].depth >= d {
      LoopNetworkInterfaceId(ts, d, q + 1, Step(ts, d, q, acc).value);
    }
  }

  /** The number of the last NetworkInterfacePort token at depth d wins, and it decoded. */
  lemma {:induction false} LoopNetworkInterfacePort(ts: seq<Token>, d: int, q: int, acc: DeviceiSCSIAttributes)
    requires 0 <= q <= |ts|
    requires Loop(ts, d, q, acc).Success?
    ensures var Decoded(a, e) := Loop(ts, d, q, acc).value;
            a.networkInterfacePort == (match LastHit(ts, q - 1, e, "NetworkInterfacePort", d, false)
                                        case None => acc.networkInterfacePort
                                        case Some(k) => if IntValue(ts, k).Success? then Some(IntValue(ts, k).value) else None)
    ensures var Decoded(a, e) := Loop(ts, d, q, acc).value;
            forall k :: q <= k < e && TestAt(ts, k, "NetworkInterfacePort", d) ==> IntValue(ts, k).Success?
    decreases |ts| - q
  {
    if q < |ts| && ts[q].depth >= d {
      LoopNetworkInterfacePort(ts, d, q + 1, Step(ts, d, q, acc).value);
    }
  }

  /** The flag of the last ChapEnabled token at depth d wins, and it decoded. */
  lemma {:induction false} LoopChapEnabled(ts: seq<Token>, d: int, q: int, acc: DeviceiSCSIAttributes)
    requires 0 <= q <= |ts|
    requires Loop(ts, d, q, acc).Success?
    ensures var Decoded(a, e) := Loop(ts, d, q, acc).value;
            a.chapEnabled == (match LastHit(ts, q - 1, e, "ChapEnabled", d, false)
                               case None => acc.chapEnabled
                               case Some(k) => if BoolValue(ts, k).Success? then Some(BoolValue(ts, k).value) else None)
    ensures var Decoded(a, e) := Loop(ts, d, q, acc).value;
            forall k :: q <= k < e && TestAt(ts, k, "ChapEnabled", d) ==> BoolValue(ts, k).Success?
    decreases |ts| - q
  {
    if q < |ts| && ts[q].depth >= d {
      LoopChapEnabled(ts, d, q + 1, Step(ts, d, q, acc).value);
    }
  }

  /** A non-null result ends at the first token shallower than the entry depth. */
  lemma DecodeExit(ts: seq<Token>, p: int)
    requires InCursorRange(ts, p)
    requires Decode(ts, p).Success? && Decode(ts, p).value.value.Some?
    ensures var q := Next(ts, p);
            var d := DepthAt(ts, q);
            var e := Decode(ts, p).value.end;
            && (e == |ts| || ts[e].depth < d)
            && (forall k :: q < k < e ==> ts[k].depth >= d)
  {
    var q := Next(ts, p);
    var s := Next(ts, q);
    DecodeIsLoop(ts, p);
    LoopExit(ts, DepthAt(ts, q), s, Unset);
  }

  /** The two strings are the text of the last token carrying their name, or unset. */
  lemma DecodeStrings(ts: seq<Token>, p: int)
    requires InCursorRange(ts, p)
    requires Decode(ts, p).Success? && Decode(ts, p).value.value.Some?
    ensures var q := Next(ts, p);
            var d := DepthAt(ts, q);
            var Decoded(a, e) := Decode(ts, p).value;
            && a.value.targetARN == (match LastHit(ts, q, e, "TargetARN", d, false)
                                      case None => None
                                      case Some(k) => StringValue(ts, k))
            && a.value.networkInterfaceId == (match LastHit(ts, q, e, "NetworkInterfaceId", d, false)
                                               case None => None
                                               case Some(k) => StringValue(ts, k))
  {
    var q := Next(ts, p);
    var d := DepthAt(ts, q);
    var s := Next(ts, q);
    DecodeIsLoop(ts, p);
    if s - 1 == q {
      LoopTargetARN(ts, d, s, Unset);
      LoopNetworkInterfaceId(ts, d, s, Unset);
    } else {
      assert Loop(ts, d, s, Unset) == Success(Decoded(Unset, s));
    }
  }

  /**
   * The port and the flag are decoded from the last token carrying their
   * name, and every such token decoded; with none they stay unset.
   */
  lemma DecodeNumbers(ts: seq<Token>, p: int)
    requires InCursorRange(ts, p)
    requires Decode(ts, p).Success? && Decode(ts, p).value.value.Some?
    ensures var q := Next(ts, p);
            var d := DepthAt(ts, q);
            var Decoded(a, e) := Decode(ts, p).value;
            && (forall k :: q < k < e && TestAt(ts, k, "NetworkInterfacePort", d) ==> IntValue(ts, k).Success?)
            && (forall k :: q < k < e && TestAt(ts, k, "ChapEnabled", d) ==> BoolValue(ts, k).Success?)
            && a.value.networkInterfacePort == (match LastHit(ts, q, e, "NetworkInterfacePort", d, false)
                                                 case None => None
                                                 case Some(k) => if IntValue(ts, k).Success? then Some(IntValue(ts, k).value) else None)
            && a.value.chapEnabled == (match LastHit(ts, q, e, "ChapEnabled", d, false)
                                        case None => None
                                        case Some(k) => if BoolValue(ts, k).Success? then Some(BoolValue(ts, k).value) else None)
  {
    var q := Next(ts, p);
    var d := DepthAt(ts, q);
    var s := Next(ts, q);
    DecodeIsLoop(ts, p);
    if s - 1 == q {
      LoopNetworkInterfacePort(ts, d, s, Unset);
      LoopChapEnabled(ts, d, s, Unset);
    } else {
      assert Loop(ts, d, s, Unset) == Success(Decoded(Unset, s));
    }
  }

  /** The port and the flag are present exactly when a token carries their name. */
  lemma DecodePresence(ts: seq<Token>, p: int)
    requires InCursorRange(ts, p)
    requires Decode(ts, p).Success? && Decode(ts, p).value.value.Some?
    ensures var q := Next(ts, p);
            var d := DepthAt(ts, q);
            var Decoded(a, e) := Decode(ts, p).value;
            && (LastHit(ts, q, e, "NetworkInterfacePort", d, false).None? <==> a.value.networkInterfacePort.None?)
            && (LastHit(ts, q, e, "ChapEnabled", d, false).None? <==> a.value.chapEnabled.None?)
  {
    var q := Next(ts, p);
    var d := DepthAt(ts, q);
    var s := Next(ts, q);
    DecodeIsLoop(ts, p);
    if s - 1 == q {
      LoopPresence(ts, d, s);
    } else {
      assert Loop(ts, d, s, Unset) == Success(Decoded(Unset, s));
    }
  }

  /**
   * A non-null result is read from the tokens after the first one, at its
   * depth, up to the first shallower token: each field holds the value of the
   * last token carrying its name, and fields no token names stay unset.
   */
  lemma DecodeFields(ts: seq<Token>, p: int)
    requires InCursorRange(ts, p)
    requires Decode(ts, p).Success? && Decode(ts, p).value.value.Some?
    ensures var q := Next(ts, p);
            var d := DepthAt(ts, q);
            var Decoded(a, e) := Decode(ts, p).value;
            && (e == |ts| || ts[e].depth < d)
            && (forall k :: q < k < e ==> ts[k].depth >= d)
            && a.value.targetARN == (match LastHit(ts, q, e, "TargetARN", d, false)
                                      case None => None
                                      case Some(k) => StringValue(ts, k))
            && a.value.networkInterfaceId == (match LastHit(ts, q, e, "NetworkInterfaceId", d, false)
                                               case None => None
                                               case Some(k) => StringValue(ts, k))
            && (LastHit(ts, q, e, "NetworkInterfacePort", d, false).None? <==> a.value.networkInterfacePort.None?)
            && (LastHit(ts, q, e, "ChapEnabled", d, false).None? <==> a.value.chapEnabled.None?)
            && a.value.networkInterfacePort == (match LastHit(ts, q, e, "NetworkInterfacePort", d, false)
                                                 case None => None
                                                 case Some(k) => if IntValue(ts, k).Success? then Some(IntValue(ts, k).value) else None)
            && a.value.chapEnabled == (match LastHit(ts, q, e, "ChapEnabled", d, false)
                                        case None => None
                                        case Some(k) => if BoolValue(ts, k).Success? then Some(BoolValue(ts, k).value) else None)
            && (forall k :: q < k < e && TestAt(ts, k, "NetworkInterfacePort", d) ==> IntValue(ts, k).Success?)
            && (forall k :: q < k < e && TestAt(ts, k, "ChapEnabled", d) ==> BoolValue(ts, k).Success?)
  {
    DecodeExit(ts, p);
    DecodeStrings(ts, p);
    DecodePresence(ts, p);
    DecodeNumbers(ts, p);
  }

  /** The port and the flag are present exactly when the loop met a token for them. */
  lemma LoopPresence(ts: seq<Token>, d: int, s: int)
    requires 0 <= s <= |ts|
    requires Loop(ts, d, s, Unset).Success?
    ensures var Decoded(a, e) := Loop(ts, d, s, Unset).value;
            && (LastHit(ts, s - 1, e, "NetworkInterfacePort", d, false).None? <==> a.networkInterfacePort.None?)
            && (LastHit(ts, s - 1, e, "ChapEnabled", d, false).None? <==> a.chapEnabled.None?)
  {
    LoopNetworkInterfacePort(ts, d, s, Unset);
    LoopChapEnabled(ts, d, s, Unset);
    var e := Loop(ts, d, s, Unset).value.end;
    var port := LastHit(ts, s - 1, e, "NetworkInterfacePort", d, false);
    if port.Some? {
      assert TestAt(ts, port.value, "NetworkInterfacePort", d) && s <= port.value < e;
    }
    var chap := LastHit(ts, s - 1, e, "ChapEnabled", d, false);
    if chap.Some? {
      assert TestAt(ts, chap.value, "ChapEnabled", d) && s <= chap.value < e;
    }
  }

  /** A non-null Decode is the loop started just after the first token read. */
  lemma DecodeIsLoop(ts: seq<Token>, p: int)
    requires InCursorRange(ts, p)
    requires Decode(ts, p).Success? && Decode(ts, p).value.value.Some?
    ensures var q := Next(ts, p);
            var s := Next(ts, q);
            && (s - 1 == q || (q == |ts| && s == q))
            && Loop(ts, DepthAt(ts, q), s, Unset).Success?
            && Decode(ts, p).value == Decoded(Some(Loop(ts, DepthAt(ts, q), s, Unset).value.value),
                                              Loop(ts, DepthAt(ts, q), s, Unset).value.end)
  {
  }

  class DeviceiSCSIAttributesUnmarshaller {
    constructor () {}

    /** The XML-context variant is not implemented. */
    method UnmarshallXml(context: UnmarshallerContext) returns (r: Result<DeviceiSCSIAttributes, UnmarshallError>)
      ensures r == Failure(NotImplemented)
    {
      r := Failure(NotImplemented);
    }

    method Unmarshall(context: UnmarshallerContext) returns (r: Result<Option<DeviceiSCSIAttributes>, UnmarshallError>)
      requires context.Valid()
      modifies context
      ensures context.Valid()
      ensures r == ValueOf(Decode(context.tokens, old(context.pos)))
      ensures r.Success? ==> context.pos == Decode(context.tokens, old(context.pos)).value.end
    {
      var _ := context.Read();
      if context.IsNullToken() {
        return Success(None);
      }
      var attributes := Unset;
      var targetDepth := context.CurrentDepth();
      ghost var first := context.pos;
      var more := context.ReadAtDepth(targetDepth);
      while more
        invariant context.Valid()
        invariant more <==> 0 <= context.pos < |context.tokens| && context.tokens[context.pos].depth >= targetDepth
        invariant 0 <= context.pos
        invariant Loop(context.tokens, targetDepth, Next(context.tokens, first), Unset)
                  == Loop(context.tokens, targetDepth, context.pos, attributes)
        decreases |context.tokens| - context.pos
      {
        var ts, q := context.tokens, context.pos;
        if context.TestExpression("TargetARN", targetDepth) {
          attributes := attributes.(targetARN := StringValue(ts, q));
        } else if context.TestExpression("NetworkInterfaceId", targetDepth) {
          attributes := attributes.(networkInterfaceId := StringValue(ts, q));
        } else if context.TestExpression("NetworkInterfacePort", targetDepth) {
          var port := IntValue(ts, q);
          if port.Failure? {
            return Failure(port.error);
          }
          attributes := attributes.(networkInterfacePort := Some(port.value));
        } else if context.TestExpression("ChapEnabled", targetDepth) {
          var chap := BoolValue(ts, q);
          if chap.Failure? {
            return Failure(chap.error);
          }
          attributes := attributes.(chapEnabled := Some(chap.value));
        }
        more := context.ReadAtDepth(targetDepth);
      }
      r := Success(Some(attributes));
    }
  }

  /** The lazily assigned static instance field and its GetInstance accessor. */
  class DeviceiSCSIAttributesUnmarshallerInstance {
    var instance: DeviceiSCSIAttributesUnmarshaller?

    constructor ()
      ensures instance == null
    {
      instance := null;
    }

    method GetInstance() returns (u: DeviceiSCSIAttributesUnmarshaller)
      modifies this
      ensures old(instance) != null ==> u == old(instance)
      ensures old(instance) == null ==> fresh(u)
      ensures instance == u
    {
      if instance == null {
        instance := new DeviceiSCSIAttributesUnmarshaller();
      }
      u := instance;
    }
  }

  /** Two calls hand out the same object: the instance is created at most once. */
  method GetInstanceIsIdempotent(holder: DeviceiSCSIAttributesUnmarshallerInstance)
    returns (first: DeviceiSCSIAttributesUnmarshaller, second: DeviceiSCSIAttributesUnmarshaller)
    modifies holder
    ensures first == second && holder.instance == first
  {
    first := holder.GetInstance();
    second := holder.GetInstance();
  }
}
