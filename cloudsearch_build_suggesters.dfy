// BuildSuggestersRequestMarshaller (Amazon CloudSearch): the routing pair, then `DomainName` when
// the request is non-null and the member is set.
module CloudSearchBuildSuggestersMarshaller {
  import opened Wrappers
  import opened Presence
  import opened QueryProtocol

  datatype BuildSuggestersRequest = BuildSuggestersRequest(domainName: Option<string>)

  const ServiceName := "AmazonCloudSearch"
  const Routing: seq<Parameter> := [("Action", "BuildSuggesters"), ("Version", "2013-01-01")]

  /** The fields in the order the marshaller checks them; a null request sets none. */
  function WireFields(request: Option<BuildSuggestersRequest>): seq<Field> {
    [ ("Action", Some("BuildSuggesters")),
      ("Version", Some("2013-01-01")),
      ("DomainName", MapOption(if request.Some? && IsSetValue(request.value.domainName) then request.value.domainName else None, FromString)) ]
  }

  function Parameters(request: Option<BuildSuggestersRequest>): seq<Parameter> {
    Fields(WireFields(request))
  }

  /** The domain name as the marshaller sends it: only when the request is non-null and the member is set. */
  function Sent(request: Option<BuildSuggestersRequest>): Option<string> {
    if request.Some? && IsSetValue(request.value.domainName) then request.value.domainName else None
  }

  /** The routing pair followed by the domain name when it is sent. */
  lemma ParametersShape(request: Option<BuildSuggestersRequest>)
    ensures Parameters(request) == Routing + Optional("DomainName", Sent(request))
  {
    var fs := WireFields(request);
    assert fs[1..][1..] == [fs[2]];
    assert Fields([fs[2]]) == Optional(fs[2].0, fs[2].1) + Fields([]);
    assert Fields(fs[1..]) == Optional(fs[1].0, fs[1].1) + Fields([fs[2]]);
  }

  /** The routing pair comes first, followed by at most the domain name. */
  lemma RoutingFirst(request: Option<BuildSuggestersRequest>)
    ensures var ps := Parameters(request);
            && |ps| >= 2 && ps[..2] == Routing
            && (|ps| == 2 || |ps| == 3)
            && (|ps| == 3 <==> request.Some? && IsSetValue(request.value.domainName))
  {
    ParametersShape(request);
    PrefixOfConcat(Routing, Optional("DomainName", Sent(request)));
  }

  /** The routing values, and `DomainName` iff the request is non-null and the member is set. */
  lemma MemberValues(request: Option<BuildSuggestersRequest>)
    ensures var ps := Parameters(request);
            && ValueOf(ps, "Action") == Some("BuildSuggesters")
            && ValueOf(ps, "Version") == Some("2013-01-01")
            && ValueOf(ps, "DomainName") == (if request.Some? then request.value.domainName else None)
  {
    var o := Optional("DomainName", Sent(request));
    ParametersShape(request);
    assert Routing[0].0 == "Action" && Routing[1].0 == "Version";
    ValueOfConcat(Routing, o, "Action");
    ValueOfConcat(Routing, o, "Version");
    ValueOfConcat(Routing, o, "DomainName");
    OptionalSpec("DomainName", Sent(request), "DomainName");
  }

  /** No name other than the three is sent, and none twice. */
  lemma OnlyKnownNames(request: Option<BuildSuggestersRequest>)
    ensures var ps := Parameters(request);
            && (forall n :: HasParameter(ps, n) ==> n == "Action" || n == "Version" || n == "DomainName")
            && DistinctNames(ps)
  {
    var o := Optional("DomainName", Sent(request));
    ParametersShape(request);
    forall n | HasParameter(Parameters(request), n)
      ensures n == "Action" || n == "Version" || n == "DomainName"
    {
      HasParameterConcat(Routing, o, n);
      OptionalSpec("DomainName", Sent(request), n);
    }
    forall j | 0 <= j < |o|
      ensures !HasParameter(Routing, o[j].0)
    {
      OptionalSpec("DomainName", Sent(request), o[j].0);
    }
    DistinctConcat(Routing, o);
  }

  /**
   * The routing pair comes first, `DomainName` is sent iff the request is
   * non-null and the member is set, and nothing else is ever sent: two
   * parameters, or three.
   */
  lemma FieldsEmittedIffSet(request: Option<BuildSuggestersRequest>)
    ensures var ps := Parameters(request);
            && |ps| >= 2 && ps[..2] == Routing
            && ValueOf(ps, "Action") == Some("BuildSuggesters")
            && ValueOf(ps, "Version") == Some("2013-01-01")
            && ValueOf(ps, "DomainName") == (if request.Some? then request.value.domainName else None)
            && (forall n :: HasParameter(ps, n) ==> n == "Action" || n == "Version" || n == "DomainName")
            && DistinctNames(ps)
            && (|ps| == 2 || |ps| == 3)
            && (|ps| == 3 <==> request.Some? && IsSetValue(request.value.domainName))
  {
    RoutingFirst(request);
    MemberValues(request);
    OnlyKnownNames(request);
  }

  class BuildSuggestersRequestMarshaller {
    constructor () {}

    method Marshall(request: Option<BuildSuggestersRequest>) returns (wire: WireRequest)
      ensures fresh(wire) && wire.serviceName == ServiceName
      ensures wire.parameters == Parameters(request)
      ensures wire.headers == map[] && wire.resourcePath == None && wire.content == None
    {
      ghost var fs := WireFields(request);
      wire := new WireRequest(ServiceName);
      FieldsStep(fs, 0);
      wire.AddParameter("Action", "BuildSuggesters");
      FieldsStep(fs, 1);
      wire.AddParameter("Version", "2013-01-01");
      FieldsStep(fs, 2);
      assert wire.parameters == Fields(fs[..2]);
      if request.Some? && IsSetValue(request.value.domainName) {
        wire.AddParameter("DomainName", FromString(request.value.domainName.value));
      }
      assert wire.parameters == Fields(fs[..2]) + Optional(fs[2].0, fs[2].1);
      assert fs[..3] == fs;
    }
  }
}
