// IamInstanceProfileSpecificationUnmarshaller (Amazon EC2): an XML loop that
// takes `arn` and `name` from start elements or attributes one level below the
// entry depth and returns at the first end element above the entry depth.
module Ec2IamInstanceProfileUnmarshaller {
  import opened Wrappers
  import opened Cursor

  datatype IamInstanceProfileSpecification = IamInstanceProfileSpecification(
    arn: Option<string>,
    name: Option<string>)

  const Unset := IamInstanceProfileSpecification(None, None)

  /** The depth at which the members are matched, for an entry at p. */
  function TargetDepth(ts: seq<Token>, p: int): int {
    DepthAt(ts, p) + 1 + (if p == -1 then 1 else 0)
  }

  /** An end element above the entry depth: the loop returns on it. */
  predicate Leaves(ts: seq<Token>, q: int, originalDepth: int) {
    KindIs(ts, q, EndElement) && ts[q].depth < originalDepth
  }

  /** The `while (context.Read())` loop, from the position q its guard has just read. */
  function Loop(ts: seq<Token>, originalDepth: int, targetDepth: int, q: int, acc: IamInstanceProfileSpecification): (r: Decoded<IamInstanceProfileSpecification>)
    requires 0 <= q <= |ts|
    decreases |ts| - q
    ensures q <= r.end <= |ts|
  {
    if q == |ts| then Decoded(acc, q)
    else if KindIs(ts, q, StartElement) || KindIs(ts, q, Attribute) then
      if TestAt(ts, q, "arn", targetDepth) then
        Loop(ts, originalDepth, targetDepth, q + 1, acc.(arn := StringValue(ts, q)))
      else if TestAt(ts, q, "name", targetDepth) then
        Loop(ts, originalDepth, targetDepth, q + 1, acc.(name := StringValue(ts, q)))
      else Loop(ts, originalDepth, targetDepth, q + 1, acc)
    else if Leaves(ts, q, originalDepth) then Decoded(acc, q)
    else Loop(ts, originalDepth, targetDepth, q + 1, acc)
  }

  /** The XML Unmarshall from cursor position p. */
  function Decode(ts: seq<Token>, p: int): Decoded<IamInstanceProfileSpecification>
    requires InCursorRange(ts, p)
  {
    Loop(ts, DepthAt(ts, p), TargetDepth(ts, p), Next(ts, p), Unset)
  }

  /**
   * The loop ends at the end of input or on the first end element above the
   * entry depth, and on no earlier one.
   */
  lemma {:induction false} LoopExit(ts: seq<Token>, originalDepth: int, targetDepth: int, q: int, acc: IamInstanceProfileSpecification)
    requires 0 <= q <= |ts|
    ensures var e := Loop(ts, originalDepth, targetDepth, q, acc).end;
            (e == |ts| || Leaves(ts, e, originalDepth))
            && forall k :: q <= k < e ==> !Leaves(ts, k, originalDepth)
    decreases |ts| - q
  {
    if q < |ts| {
      var acc' :=
        if (KindIs(ts, q, StartElement) || KindIs(ts, q, Attribute)) && TestAt(ts, q, "arn", targetDepth) then acc.(arn := StringValue(ts, q))
        else if (KindIs(ts, q, StartElement) || KindIs(ts, q, Attribute)) && TestAt(ts, q, "name", targetDepth) then acc.(name := StringValue(ts, q))
        else acc;
      if !Leaves(ts, q, originalDepth) {
        assert Loop(ts, originalDepth, targetDepth, q, acc) == Loop(ts, originalDepth, targetDepth, q + 1, acc');
        LoopExit(ts, originalDepth, targetDepth, q + 1, acc');
      }
    }
  }

  /** `arn` holds the text of the last matching start element or attribute; none leaves it as it was. */
  lemma {:induction false} LoopArn(ts: seq<Token>, originalDepth: int, targetDepth: int, q: int, acc: IamInstanceProfileSpecification)
    requires 0 <= q <= |ts|
    ensures var Decoded(a, e) := Loop(ts, originalDepth, targetDepth, q, acc);
            a.arn == (match LastHit(ts, q - 1, e, "arn", targetDepth, true)
                       case None => acc.arn
                       case Some(k) => StringValue(ts, k))
    decreases |ts| - q
  {
    if q < |ts| {
      var acc' :=
        if (KindIs(ts, q, StartElement) || KindIs(ts, q, Attribute)) && TestAt(ts, q, "arn", targetDepth) then acc.(arn := StringValue(ts, q))
        else if (KindIs(ts, q, StartElement) || KindIs(ts, q, Attribute)) && TestAt(ts, q, "name", targetDepth) then acc.(name := StringValue(ts, q))
        else acc;
      if (KindIs(ts, q, StartElement) || KindIs(ts, q, Attribute)) || !Leaves(ts, q, originalDepth) {
        assert Loop(ts, originalDepth, targetDepth, q, acc) == Loop(ts, originalDepth, targetDepth, q + 1, acc');
        LoopArn(ts, originalDepth, targetDepth, q + 1, acc');
      }
    }
  }

  /** `name` holds the text of the last matching start element or attribute; none leaves it as it was. */
  lemma {:induction false} LoopName(ts: seq<Token>, originalDepth: int, targetDepth: int, q: int, acc: IamInstanceProfileSpecification)
    requires 0 <= q <= |ts|
    ensures var Decoded(a, e) := Loop(ts, originalDepth, targetDepth, q, acc);
            a.name == (match LastHit(ts, q - 1, e, "name", targetDepth, true)
                        case None => acc.name
                        case Some(k) => StringValue(ts, k))
    decreases |ts| - q
  {
    if q < |ts| {
      var acc' :=
        if (KindIs(ts, q, StartElement) || KindIs(ts, q, Attribute)) && TestAt(ts, q, "arn", targetDepth) then acc.(arn := StringValue(ts, q))
        else if (KindIs(ts, q, StartElement) || KindIs(ts, q, Attribute)) && TestAt(ts, q, "name", targetDepth) then acc.(name := StringValue(ts, q))
        else acc;
      if (KindIs(ts, q, StartElement) || KindIs(ts, q, Attribute)) || !Leaves(ts, q, originalDepth) {
        assert Loop(ts, originalDepth, targetDepth, q, acc) == Loop(ts, originalDepth, targetDepth, q + 1, acc');
        LoopName(ts, originalDepth, targetDepth, q + 1, acc');
      }
    }
  }

  /**
   * Decoding from p matches one level below the entry depth (two at the start
   * of the document), stops at the first end element above the entry depth,
   * and takes each member from the last start element or attribute naming it.
   */
  lemma DecodeFields(ts: seq<Token>, p: int)
    requires InCursorRange(ts, p)
    ensures p == -1 ==> TargetDepth(ts, p) == 2
    ensures 0 <= p < |ts| ==> TargetDepth(ts, p) == ts[p].depth + 1
    ensures var t := TargetDepth(ts, p);
            var Decoded(a, e) := Decode(ts, p);
            && (e == |ts| || Leaves(ts, e, DepthAt(ts, p)))
            && (forall k :: p < k < e ==> !Leaves(ts, k, DepthAt(ts, p)))
            && a.arn == (match LastHit(ts, p, e, "arn", t, true)
                          case None => None
                          case Some(k) => StringValue(ts, k))
            && a.name == (match LastHit(ts, p, e, "name", t, true)
                           case None => None
                           case Some(k) => StringValue(ts, k))
  {
    var s := Next(ts, p);
    assert s - 1 == p || (p == |ts| && s == p);
    LoopExit(ts, DepthAt(ts, p), TargetDepth(ts, p), s, Unset);
    LoopArn(ts, DepthAt(ts, p), TargetDepth(ts, p), s, Unset);
    LoopName(ts, DepthAt(ts, p), TargetDepth(ts, p), s, Unset);
  }

  class IamInstanceProfileSpecificationUnmarshaller {
    constructor () {}

    method Unmarshall(context: UnmarshallerContext) returns (r: IamInstanceProfileSpecification)
      requires context.Valid()
      modifies context
      ensures context.Valid()
      ensures r == Decode(context.tokens, old(context.pos)).value
      ensures context.pos == Decode(context.tokens, old(context.pos)).end
    {
      var specification := Unset;
      var originalDepth := context.CurrentDepth();
      var targetDepth := originalDepth + 1;
      if context.IsStartOfDocument() {
        targetDepth := targetDepth + 1;
      }
      ghost var start := context.pos;
      var more := context.Read();
      while more
        invariant context.Valid() && 0 <= context.pos
        invariant more <==> context.pos < |context.tokens|
        invariant Decode(context.tokens, start)
                  == Loop(context.tokens, originalDepth, targetDepth, context.pos, specification)
        decreases |context.tokens| - context.pos
      {
        if context.IsStartElement() || context.IsAttribute() {
          if context.TestExpression("arn", targetDepth) {
            specification := specification.(arn := StringValue(context.tokens, context.pos));
          } else if context.TestExpression("name", targetDepth) {
            specification := specification.(name := StringValue(context.tokens, context.pos));
          }
        } else if context.IsEndElement() && context.CurrentDepth() < originalDepth {
          return specification;
        }
        more := context.Read();
      }
      r := specification;
    }

    /** The JSON-context variant always answers null. */
    method UnmarshallJson(context: UnmarshallerContext) returns (r: Option<IamInstanceProfileSpecification>)
      ensures r.None?
    {
      r := None;
    }
  }

  /** The lazily assigned static instance field and its GetInstance accessor. */
  class IamInstanceProfileSpecificationUnmarshallerInstance {
    var instance: IamInstanceProfileSpecificationUnmarshaller?

    constructor ()
      ensures instance == null
    {
      instance := null;
    }

    method GetInstance() returns (u: IamInstanceProfileSpecificationUnmarshaller)
      modifies this
      ensures old(instance) != null ==> u == old(instance)
      ensures old(instance) == null ==> fresh(u)
      ensures instance == u
    {
      if instance == null {
        instance := new IamInstanceProfileSpecificationUnmarshaller();
      }
      u := instance;
    }
  }

  /** Two calls hand out the same object: the instance is created at most once. */
  method GetInstanceIsIdempotent(holder: IamInstanceProfileSpecificationUnmarshallerInstance)
    returns (first: IamInstanceProfileSpecificationUnmarshaller, second: IamInstanceProfileSpecificationUnmarshaller)
    modifies holder
    ensures first == second && holder.instance == first
  {
    first := holder.GetInstance();
    second := holder.GetInstance();
  }
}
