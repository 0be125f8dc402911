// RebootCacheClusterRequestMarshaller (Amazon ElastiCache): the routing
// pair, then, for a non-null request, `CacheClusterId` when set and the node
// list, when set, expanded to `CacheNodeIdsToReboot.member.1`, `.2`, ...
module ElastiCacheRebootCacheClusterMarshaller {
  import opened Wrappers
  import opened Presence
  import opened QueryProtocol

  datatype RebootCacheClusterRequest = RebootCacheClusterRequest(
    cacheClusterId: Option<string>,
    cacheNodeIdsToReboot: Option<seq<string>>)

  const ServiceName := "Amazon.ElastiCache"
  const ListPrefix := "CacheNodeIdsToReboot" + "." + "member"
  const Routing: seq<Parameter> := [("Action", "RebootCacheCluster"), ("Version", "2014-07-15")]

  /** The scalar fields in the order the marshaller checks them; a null request sets none. */
  function WireFields(request: Option<RebootCacheClusterRequest>): seq<Field> {
    [ ("Action", Some("RebootCacheCluster")),
      ("Version", Some("2014-07-15")),
      ("CacheClusterId", MapOption(if request.Some? && IsSetValue(request.value.cacheClusterId) then request.value.cacheClusterId else None, FromString)) ]
  }

  /** The node list when the request is non-null and the list is set; nothing otherwise. */
  function NodeIds(request: Option<RebootCacheClusterRequest>): seq<string> {
    if request.Some? && IsSetList(request.value.cacheNodeIdsToReboot) then request.value.cacheNodeIdsToReboot.value else []
  }

  function Parameters(request: Option<RebootCacheClusterRequest>): seq<Parameter> {
    Fields(WireFields(request)) + Indexed(ListPrefix, NodeIds(request))
  }

  /** The scalar names are shorter than every element name. */
  lemma ScalarsNotIndexed(request: Option<RebootCacheClusterRequest>, k: nat)
    ensures !HasParameter(Fields(WireFields(request)), IndexedName(ListPrefix, k))
    ensures forall n :: n in ["Action", "Version", "CacheClusterId"] ==> !HasParameter(Indexed(ListPrefix, NodeIds(request)), n)
  {
    var fs := WireFields(request);
    NotIndexed(ListPrefix, "Action", k);
    NotIndexed(ListPrefix, "Version", k);
    NotIndexed(ListPrefix, "CacheClusterId", k);
    FieldsSpec(fs, IndexedName(ListPrefix, k));
    IndexedLacks(ListPrefix, NodeIds(request), "Action");
    IndexedLacks(ListPrefix, NodeIds(request), "Version");
    IndexedLacks(ListPrefix, NodeIds(request), "CacheClusterId");
  }

  /** The routing pair, then the id when it is sent, then the node list's elements. */
  lemma ParametersShape(request: Option<RebootCacheClusterRequest>)
    ensures Parameters(request) == Routing + (Optional("CacheClusterId", WireFields(request)[2].1) + Indexed(ListPrefix, NodeIds(request)))
  {
    var fs := WireFields(request);
    assert fs[1..][1..] == [fs[2]];
    assert Fields([fs[2]]) == Optional(fs[2].0, fs[2].1) + Fields([]);
    assert Fields(fs[1..]) == Optional(fs[1].0, fs[1].1) + Fields([fs[2]]);
    assert Fields(fs) == Routing + Optional(fs[2].0, fs[2].1);
  }

  /** The routing pair is always first; a null request gets nothing else. */
  lemma RoutingFirst(request: Option<RebootCacheClusterRequest>)
    ensures |Parameters(request)| >= 2 && Parameters(request)[..2] == Routing
    ensures request.None? ==> Parameters(request) == Routing
  {
    var rest := Optional("CacheClusterId", WireFields(request)[2].1) + Indexed(ListPrefix, NodeIds(request));
    ParametersShape(request);
    PrefixOfConcat(Routing, rest);
    if request.None? {
      assert Indexed(ListPrefix, []) == [];
      assert rest == [];
    }
  }

  /** `CacheClusterId` is sent iff the request is non-null and it is set, beside the routing pair. */
  lemma FieldsEmittedIffSet(request: Option<RebootCacheClusterRequest>)
    ensures var ps := Parameters(request);
            && ValueOf(ps, "Action") == Some("RebootCacheCluster")
            && ValueOf(ps, "Version") == Some("2014-07-15")
            && ValueOf(ps, "CacheClusterId") == (if request.Some? then request.value.cacheClusterId else None)
  {
    var fs := WireFields(request);
    ScalarsNotIndexed(request, 0);
    FieldsSpec(fs, "Action");
    assert fs[0].0 == "Action";
    ValueOfConcat(Fields(fs), Indexed(ListPrefix, NodeIds(request)), "Action");
    FieldsSpec(fs, "Version");
    assert fs[1].0 == "Version";
    ValueOfConcat(Fields(fs), Indexed(ListPrefix, NodeIds(request)), "Version");
    FieldsSpec(fs, "CacheClusterId");
    assert fs[2].0 == "CacheClusterId";
    ValueOfConcat(Fields(fs), Indexed(ListPrefix, NodeIds(request)), "CacheClusterId");
  }

  /**
   * When the node list is set, element i (1-based, in list order) is sent as
   * `CacheNodeIdsToReboot.member.i`; no other element name is ever sent.
   */
  lemma ElementsIndexed(request: Option<RebootCacheClusterRequest>, k: nat)
    ensures ValueOf(Parameters(request), IndexedName(ListPrefix, k))
            == if request.Some? && IsSetList(request.value.cacheNodeIdsToReboot) && 1 <= k <= |request.value.cacheNodeIdsToReboot.value|
               then Some(request.value.cacheNodeIdsToReboot.value[k - 1])
               else None
  {
    ScalarsNotIndexed(request, k);
    IndexedSpec(ListPrefix, NodeIds(request));
    ValueOfConcat(Fields(WireFields(request)), Indexed(ListPrefix, NodeIds(request)), IndexedName(ListPrefix, k));
  }

  /** No name repeats; the count is two, plus one for a set id, plus the list length when the list is set. */
  lemma ParameterCount(request: Option<RebootCacheClusterRequest>)
    ensures var ps := Parameters(request);
            && DistinctNames(ps)
            && |ps| == 2 + (if request.Some? && IsSetValue(request.value.cacheClusterId) then 1 else 0)
                         + (if request.Some? && IsSetList(request.value.cacheNodeIdsToReboot)
                            then |request.value.cacheNodeIdsToReboot.value| else 0)
  {
    var fs := WireFields(request);
    var l := Indexed(ListPrefix, NodeIds(request));
    FieldsSpec(fs, "");
    assert SetCount(fs) == 1 + SetCount(fs[1..]);
    assert SetCount(fs[1..]) == 1 + SetCount(fs[1..][1..]);
    assert fs[1..][1..] == [fs[2]];
    assert SetCount([fs[2]]) == (if fs[2].1.Some? then 1 else 0) + SetCount([]);
    IndexedSpec(ListPrefix, NodeIds(request));
    forall j | 0 <= j < |l|
      ensures !HasParameter(Fields(fs), l[j].0)
    {
      ScalarsNotIndexed(request, j + 1);
    }
    DistinctConcat(Fields(fs), l);
  }

  class RebootCacheClusterRequestMarshaller {
    constructor () {}

    method Marshall(request: Option<RebootCacheClusterRequest>) returns (wire: WireRequest)
      ensures fresh(wire) && wire.serviceName == ServiceName
      ensures wire.parameters == Parameters(request)
      ensures wire.headers == map[] && wire.resourcePath == None && wire.content == None
    {
      ghost var fs := WireFields(request);
      wire := new WireRequest(ServiceName);
      FieldsStep(fs, 0);
      wire.AddParameter("Action", "RebootCacheCluster");
      FieldsStep(fs, 1);
      wire.AddParameter("Version", "2014-07-15");
      FieldsStep(fs, 2);
      assert wire.parameters == Fields(fs[..2]);
      assert fs[..3] == fs;
      if request.Some? {
        var r := request.value;
        if IsSetValue(r.cacheClusterId) {
          wire.AddParameter("CacheClusterId", FromString(r.cacheClusterId.value));
        }
        assert wire.parameters == Fields(fs);
        if IsSetList(r.cacheNodeIdsToReboot) {
          AddNodeIds(wire, request, r.cacheNodeIdsToReboot.value);
        }
      }
    }
  }

  /** The node list's elements, in order, as `CacheNodeIdsToReboot.member.1`, `.2`, ... */
  method AddNodeIds(wire: WireRequest, request: Option<RebootCacheClusterRequest>, list: seq<string>)
    requires wire.parameters == Fields(WireFields(request))
    modifies wire
    ensures wire.parameters == Fields(WireFields(request)) + Indexed(ListPrefix, list)
    ensures wire.headers == old(wire.headers) && wire.resourcePath == old(wire.resourcePath)
    ensures wire.content == old(wire.content)
  {
    ghost var fs := WireFields(request);
    assert wire.parameters == Fields(fs) + Indexed(ListPrefix, list[..0]);
    var index := 1;
    for k := 0 to |list|
      invariant wire.parameters == Fields(fs) + Indexed(ListPrefix, list[..k])
      invariant index == k + 1
      invariant wire.headers == old(wire.headers) && wire.resourcePath == old(wire.resourcePath)
      invariant wire.content == old(wire.content)
    {
      IndexedStep(ListPrefix, list, k);
      ScalarsNotIndexed(request, index);
      HasParameterConcat(Fields(fs), Indexed(ListPrefix, list[..k]), IndexedName(ListPrefix, index));
      wire.AddParameter(IndexedName(ListPrefix, index), FromString(list[k]));
      index := index + 1;
    }
    assert list[..|list|] == list;
  }
}
