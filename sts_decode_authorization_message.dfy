// DecodeAuthorizationMessageRequestMarshaller (AWS Security Token Service): the routing pair, then `EncodedMessage` when
// the request is non-null and the member is set.
module SecurityTokenDecodeAuthorizationMessageMarshaller {
  import opened Wrappers
  import opened Presence
  import opened QueryProtocol

  datatype DecodeAuthorizationMessageRequest = DecodeAuthorizationMessageRequest(encodedMessage: Option<string>)

  const ServiceName := "Amazon.SecurityToken"
  const Routing: seq<Parameter> := [("Action", "DecodeAuthorizationMessage"), ("Version", "2011-06-15")]

  /** The fields in the order the marshaller checks them; a null request sets none. */
  function WireFields(request: Option<DecodeAuthorizationMessageRequest>): seq<Field> {
    [ ("Action", Some("DecodeAuthorizationMessage")),
      ("Version", Some("2011-06-15")),
      ("EncodedMessage", MapOption(if request.Some? && IsSetValue(request.value.encodedMessage) then request.value.encodedMessage else None, FromString)) ]
  }

  function Parameters(request: Option<DecodeAuthorizationMessageRequest>): seq<Parameter> {
    Fields(WireFields(request))
  }

  /** The encoded message as the marshaller sends it: only when the request is non-null and the member is set. */
  function Sent(request: Option<DecodeAuthorizationMessageRequest>): Option<string> {
    if request.Some? && IsSetValue(request.value.encodedMessage) then request.value.encodedMessage else None
  }

  /** The routing pair comes first, followed by at most the encoded message. */
  lemma RoutingFirst(request: Option<DecodeAuthorizationMessageRequest>)
    ensures var ps := Parameters(request);
            && |ps| >= 2 && ps[..2] == Routing
            && (|ps| == 2 || |ps| == 3)
            && (|ps| == 3 <==> request.Some? && IsSetValue(request.value.encodedMessage))
  {
    ParametersShape(request);
    PrefixOfConcat(Routing, Optional("EncodedMessage", Sent(request)));
  }

  /** The routing values, and `EncodedMessage` iff the request is non-null and the member is set. */
  lemma MemberValues(request: Option<DecodeAuthorizationMessageRequest>)
    ensures var ps := Parameters(request);
            && ValueOf(ps, "Action") == Some("DecodeAuthorizationMessage")
            && ValueOf(ps, "Version") == Some("2011-06-15")
            && ValueOf(ps, "EncodedMessage") == (if request.Some? then request.value.encodedMessage else None)
  {
    var o := Optional("EncodedMessage", Sent(request));
    ParametersShape(request);
    assert Routing[0].0 == "Action" && Routing[1].0 == "Version";
    ValueOfConcat(Routing, o, "Action");
    ValueOfConcat(Routing, o, "Version");
    ValueOfConcat(Routing, o, "EncodedMessage");
    OptionalSpec("EncodedMessage", Sent(request), "EncodedMessage");
  }

  /** No name other than the three is sent, and none twice. */
  lemma OnlyKnownNames(request: Option<DecodeAuthorizationMessageRequest>)
    ensures var ps := Parameters(request);
            && (forall n :: HasParameter(ps, n) ==> n == "Action" || n == "Version" || n == "EncodedMessage")
            && DistinctNames(ps)
  {
    var o := Optional("EncodedMessage", Sent(request));
    ParametersShape(request);
    forall n | HasParameter(Parameters(request), n)
      ensures n == "Action" || n == "Version" || n == "EncodedMessage"
    {
      HasParameterConcat(Routing, o, n);
      OptionalSpec("EncodedMessage", Sent(request), n);
    }
    forall j | 0 <= j < |o|
      ensures !HasParameter(Routing, o[j].0)
    {
      OptionalSpec("EncodedMessage", Sent(request), o[j].0);
    }
    DistinctConcat(Routing, o);
  }

  /**
   * The routing pair comes first, `EncodedMessage` is sent iff the request is
   * non-null and the member is set, and nothing else is ever sent: two
   * parameters, or three.
   */
  lemma FieldsEmittedIffSet(request: Option<DecodeAuthorizationMessageRequest>)
    ensures var ps := Parameters(request);
            && |ps| >= 2 && ps[..2] == Routing
            && ValueOf(ps, "Action") == Some("DecodeAuthorizationMessage")
            && ValueOf(ps, "Version") == Some("2011-06-15")
            && ValueOf(ps, "EncodedMessage") == (if request.Some? then request.value.encodedMessage else None)
            && (forall n :: HasParameter(ps, n) ==> n == "Action" || n == "Version" || n == "EncodedMessage")
            && DistinctNames(ps)
            && (|ps| == 2 || |ps| == 3)
            && (|ps| == 3 <==> request.Some? && IsSetValue(request.value.encodedMessage))
  {
    RoutingFirst(request);
    MemberValues(request);
    OnlyKnownNames(request);
  }

  /** The routing pair followed by the encoded message when it is sent. */
  lemma ParametersShape(request: Option<DecodeAuthorizationMessageRequest>)
    ensures Parameters(request) == Routing + Optional("EncodedMessage", Sent(request))
  {
    var fs := WireFields(request);
    assert fs[1..][1..] == [fs[2]];
    assert Fields([fs[2]]) == Optional(fs[2].0, fs[2].1) + Fields([]);
    assert Fields(fs[1..]) == Optional(fs[1].0, fs[1].1) + Fields([fs[2]]);
  }

  class DecodeAuthorizationMessageRequestMarshaller {
    constructor () {}

    method Marshall(request: Option<DecodeAuthorizationMessageRequest>) returns (wire: WireRequest)
      ensures fresh(wire) && wire.serviceName == ServiceName
      ensures wire.parameters == Parameters(request)
      ensures wire.headers == map[] && wire.resourcePath == None && wire.content == None
    {
      ghost var fs := WireFields(request);
      wire := new WireRequest(ServiceName);
      FieldsStep(fs, 0);
      wire.AddParameter("Action", "DecodeAuthorizationMessage");
      FieldsStep(fs, 1);
      wire.AddParameter("Version", "2011-06-15");
      FieldsStep(fs, 2);
      assert wire.parameters == Fields(fs[..2]);
      if request.Some? {
        if IsSetValue(request.value.encodedMessage) {
          wire.AddParameter("EncodedMessage", FromString(request.value.encodedMessage.value));
        }
      }
      assert wire.parameters == Fields(fs[..2]) + Optional(fs[2].0, fs[2].1);
      assert fs[..3] == fs;
    }
  }
}
