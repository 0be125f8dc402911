// CreateSnapshotRequestMarshaller (AWS Storage Gateway): a JSON-protocol
// request.  Two fixed headers name the operation and the content type, the
// resource path is empty, and the body is one JSON object holding
// `VolumeARN` and `SnapshotDescription`, each only when set, in that order.
module StorageGatewayCreateSnapshotMarshaller {
  import opened Wrappers
  import opened Presence
  import opened QueryProtocol

  datatype CreateSnapshotRequest = CreateSnapshotRequest(
    volumeARN: Option<string>,
    snapshotDescription: Option<string>)

  const ServiceName := "AmazonStorageGateway"
  const Target := "StorageGateway_20130630.CreateSnapshot"
  const ContentType := "application/x-amz-json-1.1"

  /** The body's members in the order they are written; a null request writes none. */
  function MemberFields(request: Option<CreateSnapshotRequest>): seq<Field> {
    [ ("VolumeARN", if request.Some? && IsSetValue(request.value.volumeARN) then request.value.volumeARN else None),
      ("SnapshotDescription", if request.Some? && IsSetValue(request.value.snapshotDescription) then request.value.snapshotDescription else None) ]
  }

  function Members(request: Option<CreateSnapshotRequest>): seq<(string, string)> {
    Fields(MemberFields(request))
  }

  /** The writer calls the marshaller makes. */
  function Body(request: Option<CreateSnapshotRequest>): seq<JsonEvent> {
    ObjectEvents(Members(request))
  }

  /** The two members, each present iff set, with no other member. */
  lemma MembersShape(request: Option<CreateSnapshotRequest>)
    ensures var a := if request.Some? then request.value.volumeARN else None;
            var d := if request.Some? then request.value.snapshotDescription else None;
            Members(request) == Optional("VolumeARN", a) + Optional("SnapshotDescription", d)
  {
    var fs := MemberFields(request);
    assert fs[1..][1..] == [];
    assert Fields(fs[1..]) == Optional(fs[1].0, fs[1].1) + Fields([]);
  }

  /**
   * The body is one object; reading its members back gives `VolumeARN` iff
   * it is set and `SnapshotDescription` iff it is set, with their values,
   * `VolumeARN` first when both are present, and no other member.
   */
  lemma BodyMembers(request: Option<CreateSnapshotRequest>)
    ensures var a := if request.Some? then request.value.volumeARN else None;
            var d := if request.Some? then request.value.snapshotDescription else None;
            var ms := Members(request);
            && ObjectMembers(Body(request)) == Some(ms)
            && ValueOf(ms, "VolumeARN") == a
            && ValueOf(ms, "SnapshotDescription") == d
            && (forall n :: HasParameter(ms, n) ==> n == "VolumeARN" || n == "SnapshotDescription")
            && (a.Some? && d.Some? ==> ms == [("VolumeARN", a.value), ("SnapshotDescription", d.value)])
            && |ms| == (if a.Some? then 1 else 0) + (if d.Some? then 1 else 0)
  {
    var a := if request.Some? then request.value.volumeARN else None;
    var d := if request.Some? then request.value.snapshotDescription else None;
    var oa, od := Optional("VolumeARN", a), Optional("SnapshotDescription", d);
    ObjectMembersRoundTrip(Members(request));
    MembersShape(request);
    ValueOfConcat(oa, od, "VolumeARN");
    OptionalSpec("VolumeARN", a, "VolumeARN");
    ValueOfConcat(oa, od, "SnapshotDescription");
    OptionalSpec("VolumeARN", a, "SnapshotDescription");
    OptionalSpec("SnapshotDescription", d, "SnapshotDescription");
    forall n | HasParameter(Members(request), n)
      ensures n == "VolumeARN" || n == "SnapshotDescription"
    {
      HasParameterConcat(oa, od, n);
      OptionalSpec("VolumeARN", a, n);
      OptionalSpec("SnapshotDescription", d, n);
    }
  }

  /** A null request, or one with neither member set, gets the body `{}`. */
  lemma EmptyBody(request: Option<CreateSnapshotRequest>)
    requires request.None? || (!IsSetValue(request.value.volumeARN) && !IsSetValue(request.value.snapshotDescription))
    ensures Render(Body(request), false) == "{}"
  {
    MembersShape(request);
    EmptyObjectText();
  }

  class CreateSnapshotRequestMarshaller {
    constructor () {}

    method Marshall(request: Option<CreateSnapshotRequest>) returns (wire: WireRequest)
      ensures fresh(wire) && wire.serviceName == ServiceName
      ensures wire.headers == map["X-Amz-Target" := Target, "Content-Type" := ContentType]
      ensures wire.resourcePath == Some("")
      ensures wire.content == Some(Render(Body(request), false))
      ensures wire.parameters == []
    {
      wire := new WireRequest(ServiceName);
      var target := Target;
      wire.SetHeader("X-Amz-Target", target);
      wire.SetHeader("Content-Type", ContentType);
      var uriResourcePath := "";
      wire.SetResourcePath(uriResourcePath);
      var body := WriteBody(request);
      wire.SetContent(body);
    }
  }

  /** The body text: the object start, each set member's name and value, the object end. */
  method WriteBody(request: Option<CreateSnapshotRequest>) returns (text: string)
    ensures text == Render(Body(request), false)
  {
    ghost var a := if request.Some? then request.value.volumeARN else None;
    ghost var d := if request.Some? then request.value.snapshotDescription else None;
    ghost var ea := if a.Some? then [PropertyName("VolumeARN"), StringValue(a.value)] else [];
    ghost var ed := if d.Some? then [PropertyName("SnapshotDescription"), StringValue(d.value)] else [];
    var writer := new JsonWriter();
    writer.WriteObjectStart();
    if request.Some? && IsSetValue(request.value.volumeARN) {
      writer.WritePropertyName("VolumeARN");
      writer.Write(request.value.volumeARN.value);
    }
    assert writer.events == [ObjectStart] + ea;
    if request.Some? && IsSetValue(request.value.snapshotDescription) {
      writer.WritePropertyName("SnapshotDescription");
      writer.Write(request.value.snapshotDescription.value);
    }
    assert writer.events == [ObjectStart] + ea + ed;
    writer.WriteObjectEnd();
    WrittenEvents(request);
    assert writer.events == Body(request);
    text := writer.Text();
  }

  /** The body's calls are those the two guarded writes between start and end produce. */
  lemma WrittenEvents(request: Option<CreateSnapshotRequest>)
    ensures var a := if request.Some? then request.value.volumeARN else None;
            var d := if request.Some? then request.value.snapshotDescription else None;
            Body(request) == [ObjectStart]
                             + (if a.Some? then [PropertyName("VolumeARN"), StringValue(a.value)] else [])
                             + (if d.Some? then [PropertyName("SnapshotDescription"), StringValue(d.value)] else [])
                             + [ObjectEnd]
  {
    var a := if request.Some? then request.value.volumeARN else None;
    var d := if request.Some? then request.value.snapshotDescription else None;
    var oa, od := Optional("VolumeARN", a), Optional("SnapshotDescription", d);
    MembersShape(request);
    PairEventsConcat(oa, od);
    PairEventsOptional("VolumeARN", a);
    PairEventsOptional("SnapshotDescription", d);
    assert Body(request) == [ObjectStart] + (PairEvents(oa) + PairEvents(od)) + [ObjectEnd];
  }
}
