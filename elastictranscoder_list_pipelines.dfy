// ListPipelinesResponseUnmarshaller (Amazon Elastic Transcoder): a JSON loop
// over the members at the depth of the first token read, and the mapping of
// error codes to typed faults.
module ElasticTranscoderListPipelines {
  import opened Wrappers
  import opened Cursor
  import opened ServiceErrors

  /** The response; `pipelines` holds the tokens the list unmarshaller consumed. */
  datatype ListPipelinesResponse = ListPipelinesResponse(
    nextPageToken: Option<string>,
    pipelines: Option<seq<Token>>)

  const Unset := ListPipelinesResponse(None, None)

  /** The ReadAtDepth loop, from the position q its guard has just read. */
  function Loop(ts: seq<Token>, d: int, q: int, acc: ListPipelinesResponse): (r: Decoded<ListPipelinesResponse>)
    requires 0 <= q <= |ts|
    decreases |ts| - q
    ensures q <= r.end <= |ts|
  {
    if !(q < |ts| && ts[q].depth >= d) then Decoded(acc, q)
    else if TestAt(ts, q, "NextPageToken", d) then
      Loop(ts, d, q + 1, acc.(nextPageToken := StringValue(ts, q)))
    else if TestAt(ts, q, "Pipelines", d) then
      Loop(ts, d, SubtreeEnd(ts, q) + 1, acc.(pipelines := Some(Subtree(ts, q))))
    else Loop(ts, d, q + 1, acc)
  }

  /** Unmarshall from cursor position p: one Read, then the loop at the depth of that token. */
  function Decode(ts: seq<Token>, p: int): Decoded<ListPipelinesResponse>
    requires InCursorRange(ts, p)
  {
    var q := Next(ts, p);
    Loop(ts, DepthAt(ts, q), Next(ts, q), Unset)
  }

  /**
   * The loop ends at the end of input or at the first token shallower than
   * d; everything it consumed, list contents included, is at least d deep.
   */
  lemma {:induction false} LoopExit(ts: seq<Token>, d: int, q: int, acc: ListPipelinesResponse)
    requires 0 <= q <= |ts|
    ensures var e := Loop(ts, d, q, acc).end;
            (e == |ts| || ts[e].depth < d) && forall k :: q <= k < e ==> ts[k].depth >= d
    decreases |ts| - q
  {
    if q < |ts| && ts[q].depth >= d {
      if TestAt(ts, q, "NextPageToken", d) {
        LoopExit(ts, d, q + 1, acc.(nextPageToken := StringValue(ts, q)));
      } else if TestAt(ts, q, "Pipelines", d) {
        LoopExit(ts, d, SubtreeEnd(ts, q) + 1, acc.(pipelines := Some(Subtree(ts, q))));
      } else {
        LoopExit(ts, d, q + 1, acc);
      }
    }
  }

  /** NextPageToken holds the text of the last token carrying its name at depth d. */
  lemma {:induction false} LoopNextPageToken(ts: seq<Token>, d: int, q: int, acc: ListPipelinesResponse)
    requires 0 <= q <= |ts|
    ensures var Decoded(a, e) := Loop(ts, d, q, acc);
            a.nextPageToken == (match LastHit(ts, q - 1, e, "NextPageToken", d, false)
                                 case None => acc.nextPageToken
                                 case Some(k) => StringValue(ts, k))
    decreases |ts| - q
  {
    if q < |ts| && ts[q].depth >= d {
      var e := Loop(ts, d, q, acc).end;
      if TestAt(ts, q, "NextPageToken", d) {
        LoopNextPageToken(ts, d, q + 1, acc.(nextPageToken := StringValue(ts, q)));
      } else if TestAt(ts, q, "Pipelines", d) {
        var s := SubtreeEnd(ts, q);
        LoopNextPageToken(ts, d, s + 1, acc.(pipelines := Some(Subtree(ts, q))));
        LastHitSkip(ts, q, s, e, "NextPageToken", d, false);
      } else {
        LoopNextPageToken(ts, d, q + 1, acc);
      }
      LastHitFrom(ts, q, e, "NextPageToken", d, false);
    }
  }

  /**
   * From position q on, Pipelines ends up holding the subtree of the last
   * token carrying its name at depth d, or keeps its value from acc.
   */
  predicate PipelinesFromLastHit(ts: seq<Token>, d: int, q: int, acc: ListPipelinesResponse)
    requires 0 <= q <= |ts|
  {
    var Decoded(a, e) := Loop(ts, d, q, acc);
    a.pipelines == (match LastHit(ts, q - 1, e, "Pipelines", d, false)
                     case None => acc.pipelines
                     case Some(k) => Some(Subtree(ts, k)))
  }

  /** A Pipelines token: the rest of the loop starts after its subtree, holding that subtree. */
  lemma PipelinesHitStep(ts: seq<Token>, d: int, q: int, acc: ListPipelinesResponse)
    requires 0 <= q < |ts| && ts[q].depth >= d
    requires !TestAt(ts, q, "NextPageToken", d) && TestAt(ts, q, "Pipelines", d)
    requires PipelinesFromLastHit(ts, d, SubtreeEnd(ts, q) + 1, acc.(pipelines := Some(Subtree(ts, q))))
    ensures PipelinesFromLastHit(ts, d, q, acc)
  {
    var e := Loop(ts, d, q, acc).end;
    LastHitFrom(ts, q, e, "Pipelines", d, false);
    LastHitSkip(ts, q, SubtreeEnd(ts, q), e, "Pipelines", d, false);
  }

  /** Any other token: the rest of the loop starts at the next token with Pipelines unchanged. */
  lemma PipelinesMissStep(ts: seq<Token>, d: int, q: int, acc: ListPipelinesResponse, next: ListPipelinesResponse)
    requires 0 <= q < |ts| && !TestAt(ts, q, "Pipelines", d)
    requires next.pipelines == acc.pipelines && Loop(ts, d, q, acc) == Loop(ts, d, q + 1, next)
    requires PipelinesFromLastHit(ts, d, q + 1, next)
    ensures PipelinesFromLastHit(ts, d, q, acc)
  {
    LastHitFrom(ts, q, Loop(ts, d, q, acc).end, "Pipelines", d, false);
  }

  /** Pipelines holds the subtree of the last token carrying its name at depth d. */
  lemma {:induction false} LoopPipelines(ts: seq<Token>, d: int, q: int, acc: ListPipelinesResponse)
    requires 0 <= q <= |ts|
    ensures PipelinesFromLastHit(ts, d, q, acc)
    decreases |ts| - q
  {
    if q < |ts| && ts[q].depth >= d {
      if TestAt(ts, q, "NextPageToken", d) {
        var next := acc.(nextPageToken := StringValue(ts, q));
        LoopPipelines(ts, d, q + 1, next);
        PipelinesMissStep(ts, d, q, acc, next);
      } else if TestAt(ts, q, "Pipelines", d) {
        LoopPipelines(ts, d, SubtreeEnd(ts, q) + 1, acc.(pipelines := Some(Subtree(ts, q))));
        PipelinesHitStep(ts, d, q, acc);
      } else {
        LoopPipelines(ts, d, q + 1, acc);
        PipelinesMissStep(ts, d, q, acc, acc);
      }
    }
  }

  /**
   * Each member holds the value read at the last token carrying its name at
   * depth d, and keeps its earlier value when there is none.
   */
  lemma LoopMembers(ts: seq<Token>, d: int, q: int, acc: ListPipelinesResponse)
    requires 0 <= q <= |ts|
    ensures var Decoded(a, e) := Loop(ts, d, q, acc);
            && a.nextPageToken == (match LastHit(ts, q - 1, e, "NextPageToken", d, false)
                                    case None => acc.nextPageToken
                                    case Some(k) => StringValue(ts, k))
            && a.pipelines == (match LastHit(ts, q - 1, e, "Pipelines", d, false)
                                case None => acc.pipelines
                                case Some(k) => Some(Subtree(ts, k)))
  {
    LoopNextPageToken(ts, d, q, acc);
    LoopPipelines(ts, d, q, acc);
  }

  /**
   * Unmarshall reads its members from the tokens after the first one, at its
   * depth, up to the first shallower token; a member no token names stays unset.
   */
  lemma DecodeMembers(ts: seq<Token>, p: int)
    requires InCursorRange(ts, p)
    ensures var q := Next(ts, p);
            var d := DepthAt(ts, q);
            var Decoded(a, e) := Decode(ts, p);
            && (e == |ts| || ts[e].depth < d)
            && (forall k :: q < k < e ==> ts[k].depth >= d)
            && a.nextPageToken == (match LastHit(ts, q, e, "NextPageToken", d, false)
                                    case None => None
                                    case Some(k) => StringValue(ts, k))
            && a.pipelines == (match LastHit(ts, q, e, "Pipelines", d, false)
                                case None => None
                                case Some(k) => Some(Subtree(ts, k)))
  {
    var q := Next(ts, p);
    var d := DepthAt(ts, q);
    var s := Next(ts, q);
    assert s - 1 == q || (q == |ts| && s == q);
    LoopExit(ts, d, s, Unset);
    LoopMembers(ts, d, s, Unset);
  }

  datatype ElasticTranscoderFault =
    | AccessDeniedException
    | IncompatibleVersionException
    | InternalServiceException
    | ValidationException
    | AmazonElasticTranscoderException   // the service's generic fault

  /** The codes with a dedicated fault type. */
  const ErrorCodes: seq<(string, ElasticTranscoderFault)> := [
    ("AccessDeniedException", AccessDeniedException),
    ("IncompatibleVersionException", IncompatibleVersionException),
    ("InternalServiceException", InternalServiceException),
    ("ValidationException", ValidationException)
  ]

  /**
   * UnmarshallException: the first code check that holds picks the fault
   * type; the envelope's fields, the inner exception and the status go into
   * the fault unchanged.
   */
  function UnmarshallException(errorResponse: ErrorResponse, innerException: Option<string>, statusCode: int)
    : (f: ServiceFault<ElasticTranscoderFault>)
    ensures f == FaultFrom(f.kind, errorResponse, innerException, statusCode)
    ensures f.kind == Lookup(ErrorCodes, errorResponse.code, AmazonElasticTranscoderException)
  {
    var e := errorResponse;
    if CodeIs(e.code, "AccessDeniedException") then FaultFrom(AccessDeniedException, e, innerException, statusCode)
    else if CodeIs(e.code, "IncompatibleVersionException") then FaultFrom(IncompatibleVersionException, e, innerException, statusCode)
    else if CodeIs(e.code, "InternalServiceException") then FaultFrom(InternalServiceException, e, innerException, statusCode)
    else if CodeIs(e.code, "ValidationException") then FaultFrom(ValidationException, e, innerException, statusCode)
    else FaultFrom(AmazonElasticTranscoderException, e, innerException, statusCode)
  }

  /**
   * Each code maps to its same-named fault; any other code, null included,
   * to the generic fault.  The codes are distinct, so any order of the checks
   * gives the same mapping.
   */
  lemma FaultKindByCode(errorResponse: ErrorResponse, innerException: Option<string>, statusCode: int)
    ensures DistinctCodes(ErrorCodes)
    ensures var k := UnmarshallException(errorResponse, innerException, statusCode).kind;
            && (errorResponse.code == Some("AccessDeniedException") ==> k == AccessDeniedException)
            && (errorResponse.code == Some("IncompatibleVersionException") ==> k == IncompatibleVersionException)
            && (errorResponse.code == Some("InternalServiceException") ==> k == InternalServiceException)
            && (errorResponse.code == Some("ValidationException") ==> k == ValidationException)
            && (k == AmazonElasticTranscoderException <==>
                  forall i :: 0 <= i < |ErrorCodes| ==> !CodeIs(errorResponse.code, ErrorCodes[i].0))
  {
    assert DistinctCodes(ErrorCodes);
  }

  /** Any reordering of the code checks yields the same fault type. */
  lemma FaultKindOrderIndependent(reordered: seq<(string, ElasticTranscoderFault)>, errorResponse: ErrorResponse,
                                  innerException: Option<string>, statusCode: int)
    requires multiset(reordered) == multiset(ErrorCodes)
    ensures UnmarshallException(errorResponse, innerException, statusCode).kind
            == Lookup(reordered, errorResponse.code, AmazonElasticTranscoderException)
  {
    assert DistinctCodes(ErrorCodes);
    LookupOrderIndependent(ErrorCodes, reordered, errorResponse.code, AmazonElasticTranscoderException);
  }

  class ListPipelinesResponseUnmarshaller {
    constructor () {}

    method Unmarshall(context: UnmarshallerContext) returns (response: ListPipelinesResponse)
      requires context.Valid()
      modifies context
      ensures context.Valid()
      ensures Decode(context.tokens, old(context.pos)) == Decoded(response, context.pos)
    {
      response := Unset;
      var _ := context.Read();
      var targetDepth := context.CurrentDepth();
      ghost var first := context.pos;
      var more := context.ReadAtDepth(targetDepth);
      while more
        invariant context.Valid() && 0 <= context.pos
        invariant more <==> context.pos < |context.tokens| && context.tokens[context.pos].depth >= targetDepth
        invariant Loop(context.tokens, targetDepth, Next(context.tokens, first), Unset)
                  == Loop(context.tokens, targetDepth, context.pos, response)
        decreases |context.tokens| - context.pos
      {
        if context.TestExpression("NextPageToken", targetDepth) {
          response := response.(nextPageToken := StringValue(context.tokens, context.pos));
        } else if context.TestExpression("Pipelines", targetDepth) {
          var pipelines := context.ReadSubtree();
          response := response.(pipelines := Some(pipelines));
        }
        more := context.ReadAtDepth(targetDepth);
      }
    }
  }

  /** The eagerly created static instance behind GetInstance() and Instance. */
  class ListPipelinesResponseUnmarshallerInstance {
    const instance: ListPipelinesResponseUnmarshaller

    constructor ()
      ensures fresh(instance)
    {
      instance := new ListPipelinesResponseUnmarshaller();
    }

    function GetInstance(): ListPipelinesResponseUnmarshaller {
      instance
    }

    function Instance(): ListPipelinesResponseUnmarshaller {
      instance
    }
  }

  /** Both accessors, called any number of times, return the same object. */
  method AccessorsAgree(holder: ListPipelinesResponseUnmarshallerInstance)
    returns (first: ListPipelinesResponseUnmarshaller, second: ListPipelinesResponseUnmarshaller)
    ensures first == second && first == holder.instance
  {
    first := holder.GetInstance();
    second := holder.Instance();
  }
}
