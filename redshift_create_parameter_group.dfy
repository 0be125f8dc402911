// CreateClusterParameterGroupRequestMarshaller (Amazon Redshift): the
// routing pair, then each of three optional strings when the request is
// non-null and the member is set.
module RedshiftCreateClusterParameterGroupMarshaller {
  import opened Wrappers
  import opened Presence
  import opened QueryProtocol

  datatype CreateClusterParameterGroupRequest = CreateClusterParameterGroupRequest(
    description: Option<string>,
    parameterGroupFamily: Option<string>,
    parameterGroupName: Option<string>)

  /** A null request skips every member check, as a request with nothing set would. */
  const Unset := CreateClusterParameterGroupRequest(None, None, None)

  const ServiceName := "Amazon.Redshift"
  const Routing: seq<Parameter> := [("Action", "CreateClusterParameterGroup"), ("Version", "2012-12-01")]
  const KnownNames := {"Action", "Version", "Description", "ParameterGroupFamily", "ParameterGroupName"}

  /** The fields in the order the marshaller checks them. */
  function WireFields(request: Option<CreateClusterParameterGroupRequest>): seq<Field> {
    var r := if request.Some? then request.value else Unset;
    [ ("Action", Some("CreateClusterParameterGroup")),
      ("Version", Some("2012-12-01")),
      ("Description", MapOption(if IsSetValue(r.description) then r.description else None, FromString)),
      ("ParameterGroupFamily", MapOption(if IsSetValue(r.parameterGroupFamily) then r.parameterGroupFamily else None, FromString)),
      ("ParameterGroupName", MapOption(if IsSetValue(r.parameterGroupName) then r.parameterGroupName else None, FromString)) ]
  }

  function Parameters(request: Option<CreateClusterParameterGroupRequest>): seq<Parameter> {
    Fields(WireFields(request))
  }

  /** The routing pair is always first; a null request gets nothing after it. */
  lemma RoutingFirst(request: Option<CreateClusterParameterGroupRequest>)
    ensures |Parameters(request)| >= 2 && Parameters(request)[..2] == Routing
    ensures request.None? ==> Parameters(request) == Routing
  {
    var fs := WireFields(request);
    assert fs[1..][1..] == fs[2..];
    assert Parameters(request) == [Routing[0]] + ([Routing[1]] + Fields(fs[2..]));
    if request.None? {
      assert fs[2..][1..][1..][1..] == [];
    }
  }

  /** Each member is sent iff the request is non-null and the member is set, with its value. */
  lemma FieldsEmittedIffSet(request: Option<CreateClusterParameterGroupRequest>)
    ensures var ps := Parameters(request);
            && ValueOf(ps, "Action") == Some("CreateClusterParameterGroup")
            && ValueOf(ps, "Version") == Some("2012-12-01")
            && ValueOf(ps, "Description") == (if request.Some? then request.value.description else None)
            && ValueOf(ps, "ParameterGroupFamily") == (if request.Some? then request.value.parameterGroupFamily else None)
            && ValueOf(ps, "ParameterGroupName") == (if request.Some? then request.value.parameterGroupName else None)
  {
    var fs := WireFields(request);
    WireFieldsDistinct(request);
    FieldsSpec(fs, "Action");
    assert fs[0].0 == "Action";
    FieldsSpec(fs, "Version");
    assert fs[1].0 == "Version";
    FieldsSpec(fs, "Description");
    assert fs[2].0 == "Description";
    FieldsSpec(fs, "ParameterGroupFamily");
    assert fs[3].0 == "ParameterGroupFamily";
    FieldsSpec(fs, "ParameterGroupName");
    assert fs[4].0 == "ParameterGroupName";
  }

  /** No other name is ever produced, none repeats, and the count is two plus the number of set members. */
  lemma OnlyKnownNames(request: Option<CreateClusterParameterGroupRequest>)
    ensures var ps := Parameters(request);
            && DistinctNames(ps)
            && (forall n :: HasParameter(ps, n) ==> n in KnownNames)
            && |ps| == 2 + (if request.Some? && IsSetValue(request.value.description) then 1 else 0)
                         + (if request.Some? && IsSetValue(request.value.parameterGroupFamily) then 1 else 0)
                         + (if request.Some? && IsSetValue(request.value.parameterGroupName) then 1 else 0)
  {
    var fs := WireFields(request);
    WireFieldsDistinct(request);
    forall n | HasParameter(Parameters(request), n)
      ensures n in KnownNames
    {
      FieldsSpec(fs, n);
    }
    FieldsSpec(fs, "");
    assert fs[1..][1..][1..][1..][1..] == [];
  }

  lemma WireFieldsDistinct(request: Option<CreateClusterParameterGroupRequest>)
    ensures DistinctFieldNames(WireFields(request))
  {
  }

  class CreateClusterParameterGroupRequestMarshaller {
    constructor () {}

    method Marshall(request: Option<CreateClusterParameterGroupRequest>) returns (wire: WireRequest)
      ensures fresh(wire) && wire.serviceName == ServiceName
      ensures wire.parameters == Parameters(request)
      ensures wire.headers == map[] && wire.resourcePath == None && wire.content == None
    {
      ghost var fs := WireFields(request);
      WireFieldsDistinct(request);
      wire := new WireRequest(ServiceName);
      FieldsStep(fs, 0);
      wire.AddParameter("Action", "CreateClusterParameterGroup");
      FieldsStep(fs, 1);
      wire.AddParameter("Version", "2012-12-01");
      assert wire.parameters == Fields(fs[..2]);
      FieldsStep(fs, 2);
      FieldsStep(fs, 3);
      FieldsStep(fs, 4);
      assert request.None? ==> fs[2].1 == None && fs[3].1 == None && fs[4].1 == None;
      if request.Some? {
        var r := request.value;
        if IsSetValue(r.description) {
          wire.AddParameter("Description", FromString(r.description.value));
        }
        assert wire.parameters == Fields(fs[..3]);
        if IsSetValue(r.parameterGroupFamily) {
          wire.AddParameter("ParameterGroupFamily", FromString(r.parameterGroupFamily.value));
        }
        assert wire.parameters == Fields(fs[..4]);
        if IsSetValue(r.parameterGroupName) {
          wire.AddParameter("ParameterGroupName", FromString(r.parameterGroupName.value));
        }
      }
      assert wire.parameters == Fields(fs[..5]);
      assert fs[..5] == fs;
    }
  }
}
