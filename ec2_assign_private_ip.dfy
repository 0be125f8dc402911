// AssignPrivateIpAddressesRequestMarshaller (Amazon EC2): a query-protocol
// request with the routing pair first, then the set optional fields, and the
// address list expanded to `PrivateIpAddress.1`, `PrivateIpAddress.2`, ...
module Ec2AssignPrivateIpAddressesMarshaller {
  import opened Wrappers
  import opened Presence
  import opened QueryProtocol

  /** The request's fields as the marshaller reads them; `None` is a null field. */
  datatype AssignPrivateIpAddressesRequest = AssignPrivateIpAddressesRequest(
    networkInterfaceId: Option<string>,
    privateIpAddresses: Option<seq<string>>,
    secondaryPrivateIpAddressCount: Option<int>,
    allowReassignment: Option<bool>)

  /** The address list is enumerated without a presence check, so a null one throws. */
  datatype MarshallError = NullReference

  const ServiceName := "AmazonEC2"
  const ListPrefix := "PrivateIpAddress"
  const Routing: seq<Parameter> := [("Action", "AssignPrivateIpAddresses"), ("Version", "2014-06-15")]

  function Head(r: AssignPrivateIpAddressesRequest): seq<Parameter> {
    Routing + Optional("NetworkInterfaceId", MapOption(r.networkInterfaceId, FromString))
  }

  function Tail(r: AssignPrivateIpAddressesRequest): seq<Parameter> {
    Optional("SecondaryPrivateIpAddressCount", MapOption(r.secondaryPrivateIpAddressCount, FromInt))
    + Optional("AllowReassignment", MapOption(r.allowReassignment, FromBool))
  }

  /** The parameters of the marshalled request, in the order they are added; a null request is `None`. */
  function Parameters(request: Option<AssignPrivateIpAddressesRequest>): Result<seq<Parameter>, MarshallError> {
    if request.None? then Success(Routing)
    else
      var r := request.value;
      if r.privateIpAddresses.None? then Failure(NullReference)
      else Success(Head(r) + Indexed(ListPrefix, r.privateIpAddresses.value) + Tail(r))
  }

  /** The names the head and tail can carry: none of them is an element name. */
  lemma FixedNamesNotIndexed(r: AssignPrivateIpAddressesRequest, values: seq<string>, k: nat)
    ensures !HasParameter(Head(r), IndexedName(ListPrefix, k))
    ensures !HasParameter(Tail(r), IndexedName(ListPrefix, k))
    ensures forall j :: 0 <= j < |Head(r)| ==> !HasParameter(Indexed(ListPrefix, values), Head(r)[j].0)
    ensures forall j :: 0 <= j < |Tail(r)| ==> !HasParameter(Indexed(ListPrefix, values), Tail(r)[j].0)
  {
    var n := IndexedName(ListPrefix, k);
    NotIndexed(ListPrefix, "Action", k);
    NotIndexed(ListPrefix, "Version", k);
    NotIndexed(ListPrefix, "NetworkInterfaceId", k);
    NotIndexed(ListPrefix, "SecondaryPrivateIpAddressCount", k);
    NotIndexed(ListPrefix, "AllowReassignment", k);
    var o := Optional("NetworkInterfaceId", MapOption(r.networkInterfaceId, FromString));
    OptionalSpec("NetworkInterfaceId", MapOption(r.networkInterfaceId, FromString), n);
    HasParameterConcat(Routing, o, n);
    OptionalSpec("SecondaryPrivateIpAddressCount", MapOption(r.secondaryPrivateIpAddressCount, FromInt), n);
    OptionalSpec("AllowReassignment", MapOption(r.allowReassignment, FromBool), n);
    HasParameterConcat(Optional("SecondaryPrivateIpAddressCount", MapOption(r.secondaryPrivateIpAddressCount, FromInt)),
                       Optional("AllowReassignment", MapOption(r.allowReassignment, FromBool)), n);
    IndexedLacks(ListPrefix, values, "Action");
    IndexedLacks(ListPrefix, values, "Version");
    IndexedLacks(ListPrefix, values, "NetworkInterfaceId");
    IndexedLacks(ListPrefix, values, "SecondaryPrivateIpAddressCount");
    IndexedLacks(ListPrefix, values, "AllowReassignment");
  }

  /** The head's names are distinct: the routing pair, then at most `NetworkInterfaceId`. */
  lemma HeadNames(r: AssignPrivateIpAddressesRequest)
    ensures DistinctNames(Head(r))
    ensures forall n :: HasParameter(Head(r), n) ==> n == "Action" || n == "Version" || n == "NetworkInterfaceId"
  {
    var v := MapOption(r.networkInterfaceId, FromString);
    var o := Optional("NetworkInterfaceId", v);
    forall j | 0 <= j < |o|
      ensures !HasParameter(Routing, o[j].0)
    {
      OptionalSpec("NetworkInterfaceId", v, o[j].0);
    }
    OptionalSpec("NetworkInterfaceId", v, "");
    DistinctConcat(Routing, o);
    forall n | HasParameter(Head(r), n)
      ensures n == "Action" || n == "Version" || n == "NetworkInterfaceId"
    {
      HasParameterConcat(Routing, o, n);
      OptionalSpec("NetworkInterfaceId", v, n);
    }
  }

  /** The tail's names are distinct: at most the address count, then at most `AllowReassignment`. */
  lemma TailNames(r: AssignPrivateIpAddressesRequest)
    ensures DistinctNames(Tail(r))
    ensures forall n :: HasParameter(Tail(r), n) ==> n == "SecondaryPrivateIpAddressCount" || n == "AllowReassignment"
  {
    var va := MapOption(r.secondaryPrivateIpAddressCount, FromInt);
    var vb := MapOption(r.allowReassignment, FromBool);
    var a := Optional("SecondaryPrivateIpAddressCount", va);
    var b := Optional("AllowReassignment", vb);
    OptionalSpec("SecondaryPrivateIpAddressCount", va, "");
    OptionalSpec("AllowReassignment", vb, "SecondaryPrivateIpAddressCount");
    DistinctConcat(a, b);
    forall n | HasParameter(Tail(r), n)
      ensures n == "SecondaryPrivateIpAddressCount" || n == "AllowReassignment"
    {
      HasParameterConcat(a, b, n);
      OptionalSpec("SecondaryPrivateIpAddressCount", va, n);
      OptionalSpec("AllowReassignment", vb, n);
    }
  }

  /** No parameter name is added twice, so every `Parameters.Add` succeeds. */
  lemma NamesDistinct(r: AssignPrivateIpAddressesRequest, values: seq<string>)
    ensures DistinctNames(Head(r) + Indexed(ListPrefix, values) + Tail(r))
  {
    var h, l, t := Head(r), Indexed(ListPrefix, values), Tail(r);
    HeadNames(r);
    TailNames(r);
    IndexedSpec(ListPrefix, values);
    forall j | 0 <= j < |l|
      ensures !HasParameter(h, l[j].0)
    {
      var k :| 1 <= k <= |values| && l[j].0 == IndexedName(ListPrefix, k);
      FixedNamesNotIndexed(r, values, k);
    }
    DistinctConcat(h, l);
    FixedNamesNotIndexed(r, values, 0);
    forall j | 0 <= j < |t|
      ensures !HasParameter(h + l, t[j].0)
    {
      assert HasParameter(t, t[j].0);
      HasParameterConcat(h, l, t[j].0);
    }
    DistinctConcat(h + l, t);
  }

  /**
   * The routing pair comes first, a null request gets nothing else, and a
   * non-null request with a null address list fails.
   */
  lemma RoutingFirst(request: Option<AssignPrivateIpAddressesRequest>)
    ensures Parameters(request).Failure? <==> request.Some? && request.value.privateIpAddresses.None?
    ensures request.None? ==> Parameters(request) == Success(Routing)
    ensures Parameters(request).Success? ==>
              |Parameters(request).value| >= 2 && Parameters(request).value[..2] == Routing
  {
    if request.Some? && request.value.privateIpAddresses.Some? {
      var r := request.value;
      var h, l, t := Head(r), Indexed(ListPrefix, r.privateIpAddresses.value), Tail(r);
      PrefixOfConcat(Routing, Optional("NetworkInterfaceId", MapOption(r.networkInterfaceId, FromString)));
      PrefixOfConcat(h, l);
      PrefixOfConcat(h + l, t);
      assert (h + l + t)[..2] == (h + l + t)[..|h + l|][..|h|][..2];
    }
  }

  /** A name starting with another letter than `PrivateIpAddress` is no element name. */
  lemma ListLacks(values: seq<string>, n: string)
    requires |n| > 0 && n[0] != 'P'
    ensures !HasParameter(Indexed(ListPrefix, values), n)
  {
    assert ListPrefix[0] == 'P';
    IndexedLacks(ListPrefix, values, n);
  }

  lemma HeadLookup(r: AssignPrivateIpAddressesRequest, n: string)
    ensures ValueOf(Head(r), n) == if n == "Action" then Some("AssignPrivateIpAddresses")
                                   else if n == "Version" then Some("2014-06-15")
                                   else if n == "NetworkInterfaceId" then r.networkInterfaceId
                                   else None
  {
    ValueOfConcat(Routing, Optional("NetworkInterfaceId", MapOption(r.networkInterfaceId, FromString)), n);
    OptionalSpec("NetworkInterfaceId", MapOption(r.networkInterfaceId, FromString), n);
  }

  lemma TailLookup(r: AssignPrivateIpAddressesRequest, n: string)
    ensures ValueOf(Tail(r), n) == if n == "SecondaryPrivateIpAddressCount" then MapOption(r.secondaryPrivateIpAddressCount, FromInt)
                                   else if n == "AllowReassignment" then MapOption(r.allowReassignment, FromBool)
                                   else None
  {
    var a := Optional("SecondaryPrivateIpAddressCount", MapOption(r.secondaryPrivateIpAddressCount, FromInt));
    var b := Optional("AllowReassignment", MapOption(r.allowReassignment, FromBool));
    ValueOfConcat(a, b, n);
    OptionalSpec("SecondaryPrivateIpAddressCount", MapOption(r.secondaryPrivateIpAddressCount, FromInt), n);
    OptionalSpec("AllowReassignment", MapOption(r.allowReassignment, FromBool), n);
  }

  /** What the request holds under a name that is not an element name. */
  lemma ScalarLookup(r: AssignPrivateIpAddressesRequest, values: seq<string>, n: string)
    requires !HasParameter(Indexed(ListPrefix, values), n)
    ensures ValueOf(Head(r) + Indexed(ListPrefix, values) + Tail(r), n)
            == if n == "Action" then Some("AssignPrivateIpAddresses")
               else if n == "Version" then Some("2014-06-15")
               else if n == "NetworkInterfaceId" then r.networkInterfaceId
               else if n == "SecondaryPrivateIpAddressCount" then MapOption(r.secondaryPrivateIpAddressCount, FromInt)
               else if n == "AllowReassignment" then MapOption(r.allowReassignment, FromBool)
               else None
  {
    SkipList(Head(r), Indexed(ListPrefix, values), Tail(r), n);
    HeadLookup(r, n);
    TailLookup(r, n);
  }

  /**
   * Each scalar field is sent iff it is set, under its own name and with its
   * formatted value, beside the routing pair.
   */
  lemma FieldsEmittedIffSet(r: AssignPrivateIpAddressesRequest)
    requires r.privateIpAddresses.Some?
    ensures var ps := Parameters(Some(r)).value;
            && ValueOf(ps, "Action") == Some("AssignPrivateIpAddresses")
            && ValueOf(ps, "Version") == Some("2014-06-15")
            && ValueOf(ps, "NetworkInterfaceId") == r.networkInterfaceId
            && ValueOf(ps, "SecondaryPrivateIpAddressCount") == MapOption(r.secondaryPrivateIpAddressCount, FromInt)
            && ValueOf(ps, "AllowReassignment") == MapOption(r.allowReassignment, FromBool)
  {
    var values := r.privateIpAddresses.value;
    ListLacks(values, "Action");
    ScalarLookup(r, values, "Action");
    ListLacks(values, "Version");
    ScalarLookup(r, values, "Version");
    ListLacks(values, "NetworkInterfaceId");
    ScalarLookup(r, values, "NetworkInterfaceId");
    ListLacks(values, "SecondaryPrivateIpAddressCount");
    ScalarLookup(r, values, "SecondaryPrivateIpAddressCount");
    ListLacks(values, "AllowReassignment");
    ScalarLookup(r, values, "AllowReassignment");
  }

  /**
   * Element i of the address list (1-based, in list order) is sent as
   * `PrivateIpAddress.i`; no index outside 1..N occurs.
   */
  lemma ElementsIndexed(r: AssignPrivateIpAddressesRequest, k: nat)
    requires r.privateIpAddresses.Some?
    ensures var values := r.privateIpAddresses.value;
            ValueOf(Parameters(Some(r)).value, IndexedName(ListPrefix, k))
            == if 1 <= k <= |values| then Some(values[k - 1]) else None
  {
    var values := r.privateIpAddresses.value;
    var n := IndexedName(ListPrefix, k);
    FixedNamesNotIndexed(r, values, k);
    IndexedSpec(ListPrefix, values);
    ValueOfConcat(Head(r) + Indexed(ListPrefix, values), Tail(r), n);
    ValueOfConcat(Head(r), Indexed(ListPrefix, values), n);
  }

  /** Two parameters plus one per list element plus one per set scalar field; no name repeats. */
  lemma ParameterCount(r: AssignPrivateIpAddressesRequest)
    requires r.privateIpAddresses.Some?
    ensures var ps := Parameters(Some(r)).value;
            && DistinctNames(ps)
            && |ps| == 2 + |r.privateIpAddresses.value| + (if IsSetValue(r.networkInterfaceId) then 1 else 0)
                       + (if IsSetValue(r.secondaryPrivateIpAddressCount) then 1 else 0)
                       + (if IsSetValue(r.allowReassignment) then 1 else 0)
  {
    NamesDistinct(r, r.privateIpAddresses.value);
    IndexedSpec(ListPrefix, r.privateIpAddresses.value);
  }

  /** The next element's name is not among those added before it. */
  lemma NextElementFresh(r: AssignPrivateIpAddressesRequest, values: seq<string>, k: nat)
    requires k < |values|
    ensures !HasParameter(Head(r) + Indexed(ListPrefix, values[..k]), IndexedName(ListPrefix, k + 1))
    ensures Indexed(ListPrefix, values[..k + 1])
            == Indexed(ListPrefix, values[..k]) + [(IndexedName(ListPrefix, k + 1), FromString(values[k]))]
  {
    FixedNamesNotIndexed(r, values, k + 1);
    IndexedSpec(ListPrefix, values[..k]);
    HasParameterConcat(Head(r), Indexed(ListPrefix, values[..k]), IndexedName(ListPrefix, k + 1));
  }

  /** The foreach over the address list: `PrivateIpAddress.1` ... in list order. */
  method AddPrivateIpAddresses(wire: WireRequest, q: AssignPrivateIpAddressesRequest, list: seq<string>)
    requires wire.parameters == Head(q)
    modifies wire
    ensures wire.parameters == Head(q) + Indexed(ListPrefix, list)
    ensures wire.headers == old(wire.headers) && wire.resourcePath == old(wire.resourcePath)
    ensures wire.content == old(wire.content)
  {
    var index := 1;
    for k := 0 to |list|
      invariant wire.parameters == Head(q) + Indexed(ListPrefix, list[..k])
      invariant index == k + 1
      invariant wire.headers == old(wire.headers) && wire.resourcePath == old(wire.resourcePath)
      invariant wire.content == old(wire.content)
    {
      NextElementFresh(q, list, k);
      wire.AddParameter(IndexedName(ListPrefix, index), FromString(list[k]));
      index := index + 1;
    }
    assert list[..|list|] == list;
  }

  /** The two optional scalars after the list. */
  method AddTailFields(wire: WireRequest, q: AssignPrivateIpAddressesRequest, list: seq<string>)
    requires wire.parameters == Head(q) + Indexed(ListPrefix, list)
    modifies wire
    ensures wire.parameters == Head(q) + Indexed(ListPrefix, list) + Tail(q)
    ensures wire.headers == old(wire.headers) && wire.resourcePath == old(wire.resourcePath)
    ensures wire.content == old(wire.content)
  {
    ghost var prefix := Head(q) + Indexed(ListPrefix, list);
    ghost var full := prefix + Tail(q);
    NamesDistinct(q, list);
    if IsSetValue(q.secondaryPrivateIpAddressCount) {
      assert full[..|prefix|] == wire.parameters;
      PrefixLacksNext(full, |prefix|);
      wire.AddParameter("SecondaryPrivateIpAddressCount", FromInt(q.secondaryPrivateIpAddressCount.value));
    }
    assert full[..|wire.parameters|] == wire.parameters;
    if IsSetValue(q.allowReassignment) {
      PrefixLacksNext(full, |wire.parameters|);
      wire.AddParameter("AllowReassignment", FromBool(q.allowReassignment.value));
    }
  }

  class AssignPrivateIpAddressesRequestMarshaller {
    constructor () {}

    method Marshall(request: Option<AssignPrivateIpAddressesRequest>) returns (r: Result<WireRequest, MarshallError>)
      ensures r.Success? <==> Parameters(request).Success?
      ensures r.Success? ==> && fresh(r.value) && r.value.serviceName == ServiceName
                             && r.value.parameters == Parameters(request).value
                             && r.value.headers == map[] && r.value.resourcePath == None && r.value.content == None
    {
      var wire := new WireRequest(ServiceName);
      wire.AddParameter("Action", "AssignPrivateIpAddresses");
      wire.AddParameter("Version", "2014-06-15");
      if request.Some? && IsSetValue(request.value.networkInterfaceId) {
        wire.AddParameter("NetworkInterfaceId", FromString(request.value.networkInterfaceId.value));
      }
      if request.Some? {
        var q := request.value;
        if q.privateIpAddresses.None? {
          return Failure(NullReference);
        }
        var list := q.privateIpAddresses.value;
        assert wire.parameters == Head(q);
        AddPrivateIpAddresses(wire, q, list);
        AddTailFields(wire, q, list);
      }
      r := Success(wire);
    }
  }
}
