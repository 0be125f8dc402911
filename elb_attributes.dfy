// DescribeLoadBalancerAttributesResponseUnmarshaller (Elastic Load Balancing):
// an XML loop over the response document that hands the result element to
// UnmarshallResult and reads response metadata, and the mapping of error
// codes to typed faults.
module ElbDescribeLoadBalancerAttributes {
  import opened Wrappers
  import opened Cursor
  import opened ServiceErrors

  /** The response's state; each member holds the tokens its nested unmarshaller consumed. */
  datatype Members = Members(
    loadBalancerAttributes: Option<seq<Token>>,
    responseMetadata: Option<seq<Token>>)

  const Unset := Members(None, None)

  const ResultName := "DescribeLoadBalancerAttributesResult"
  const MetadataName := "ResponseMetadata"
  const AttributesName := "LoadBalancerAttributes"

  predicate StartOrAttribute(ts: seq<Token>, q: int) {
    KindIs(ts, q, StartElement) || KindIs(ts, q, Attribute)
  }

  /** The depth at which UnmarshallResult looks for its member, entered at p. */
  function ResultTargetDepth(ts: seq<Token>, p: int): int {
    DepthAt(ts, p) + 1 + (if p == -1 then 2 else 0)
  }

  /** UnmarshallResult's ReadAtDepth(originalDepth) loop, from the position q its guard has just read. */
  function ResultLoop(ts: seq<Token>, originalDepth: int, targetDepth: int, q: int, acc: Members): (r: Decoded<Members>)
    requires 0 <= q <= |ts|
    decreases |ts| - q
    ensures q <= r.end <= |ts|
  {
    if !(q < |ts| && ts[q].depth >= originalDepth) then Decoded(acc, q)
    else if StartOrAttribute(ts, q) && TestAt(ts, q, AttributesName, targetDepth) then
      ResultLoop(ts, originalDepth, targetDepth, SubtreeEnd(ts, q) + 1, acc.(loadBalancerAttributes := Some(Subtree(ts, q))))
    else ResultLoop(ts, originalDepth, targetDepth, q + 1, acc)
  }

  /** UnmarshallResult entered with the cursor on p. */
  function UnmarshallResult(ts: seq<Token>, p: int, acc: Members): (r: Decoded<Members>)
    requires InCursorRange(ts, p)
    ensures p < |ts| ==> p < r.end
    ensures r.end <= |ts|
  {
    ResultLoop(ts, DepthAt(ts, p), ResultTargetDepth(ts, p), Next(ts, p), acc)
  }

  /** The ReadAtDepth(targetDepth) loop of Unmarshall, from the position q its guard has just read. */
  function MainLoop(ts: seq<Token>, d: int, q: int, acc: Members): (r: Decoded<Members>)
    requires 0 <= q <= |ts|
    decreases |ts| - q
    ensures q <= r.end <= |ts|
  {
    if !(q < |ts| && ts[q].depth >= d) then Decoded(acc, q)
    else if KindIs(ts, q, StartElement) && TestAt(ts, q, ResultName, 2) then
      var result := UnmarshallResult(ts, q, acc);
      MainLoop(ts, d, Next(ts, result.end), result.value)
    else if KindIs(ts, q, StartElement) && TestAt(ts, q, MetadataName, 2) then
      MainLoop(ts, d, SubtreeEnd(ts, q) + 1, acc.(responseMetadata := Some(Subtree(ts, q))))
    else MainLoop(ts, d, q + 1, acc)
  }

  /** Unmarshall from cursor position p: one Read, then the loop at the depth of that token. */
  function Decode(ts: seq<Token>, p: int): Decoded<Members>
    requires InCursorRange(ts, p)
  {
    var q := Next(ts, p);
    MainLoop(ts, DepthAt(ts, q), Next(ts, q), Unset)
  }

  /** A start element or attribute named LoadBalancerAttributes at depth t. */
  predicate AttributesAt(ts: seq<Token>, k: int, t: int) {
    StartOrAttribute(ts, k) && TestAt(ts, k, AttributesName, t)
  }

  /** A start element named DescribeLoadBalancerAttributesResult at depth 2. */
  predicate ResultAt(ts: seq<Token>, j: int) {
    KindIs(ts, j, StartElement) && TestAt(ts, j, ResultName, 2)
  }

  /** A start element named ResponseMetadata at depth 2. */
  predicate MetadataAt(ts: seq<Token>, j: int) {
    KindIs(ts, j, StartElement) && TestAt(ts, j, MetadataName, 2)
  }

  /**
   * Position k is one UnmarshallResult's loop, started at q, tests: a matched
   * LoadBalancerAttributes subtree is stepped over, and the loop stops at the
   * first token above its entry depth.
   */
  ghost predicate ResultTested(ts: seq<Token>, originalDepth: int, targetDepth: int, q: int, k: int): (b: bool)
    requires 0 <= q <= |ts|
    decreases |ts| - q
    ensures b ==> q <= k < |ts|
  {
    && q < |ts| && ts[q].depth >= originalDepth
    && (|| k == q
        || if AttributesAt(ts, q, targetDepth) then ResultTested(ts, originalDepth, targetDepth, SubtreeEnd(ts, q) + 1, k)
           else ResultTested(ts, originalDepth, targetDepth, q + 1, k))
  }

  /**
   * Position k is one Unmarshall's loop, started at q, tests: a result element
   * is stepped over as far as UnmarshallResult read, a metadata subtree as a whole.
   */
  ghost predicate MainTested(ts: seq<Token>, d: int, q: int, k: int): (b: bool)
    requires 0 <= q <= |ts|
    decreases |ts| - q
    ensures b ==> q <= k < |ts|
  {
    && q < |ts| && ts[q].depth >= d
    && (|| k == q
        || if ResultAt(ts, q) then MainTested(ts, d, Next(ts, UnmarshallResult(ts, q, Unset).end), k)
           else if MetadataAt(ts, q) then MainTested(ts, d, SubtreeEnd(ts, q) + 1, k)
           else MainTested(ts, d, q + 1, k))
  }

  /**
   * Position k is a LoadBalancerAttributes element at depth 3 that
   * UnmarshallResult tests, run from a result element Unmarshall's loop tests.
   */
  ghost predicate AttributesTested(ts: seq<Token>, d: int, q: int, k: int): (b: bool)
    requires 0 <= q <= |ts|
    decreases |ts| - q
    ensures b ==> q < k < |ts|
  {
    && q < |ts| && ts[q].depth >= d
    && if ResultAt(ts, q) then
         || (ResultTested(ts, 2, 3, q + 1, k) && AttributesAt(ts, k, 3))
         || AttributesTested(ts, d, Next(ts, UnmarshallResult(ts, q, Unset).end), k)
       else if MetadataAt(ts, q) then AttributesTested(ts, d, SubtreeEnd(ts, q) + 1, k)
       else AttributesTested(ts, d, q + 1, k)
  }

  /** UnmarshallResult's loop stops at the end of input or below the entry depth, keeps the metadata, and takes the attributes from a matching element. */
  lemma {:induction false} ResultLoopFrom(ts: seq<Token>, originalDepth: int, targetDepth: int, q: int, acc: Members)
    requires 0 <= q <= |ts|
    ensures var Decoded(a, e) := ResultLoop(ts, originalDepth, targetDepth, q, acc);
            && (e == |ts| || ts[e].depth < originalDepth)
            && a.responseMetadata == acc.responseMetadata
            && (a.loadBalancerAttributes != acc.loadBalancerAttributes ==>
                  exists k :: q <= k < e && AttributesAt(ts, k, targetDepth) && a.loadBalancerAttributes == Some(Subtree(ts, k)))
    decreases |ts| - q
  {
    if q < |ts| && ts[q].depth >= originalDepth {
      if AttributesAt(ts, q, targetDepth) {
        ResultLoopFrom(ts, originalDepth, targetDepth, SubtreeEnd(ts, q) + 1,
                       acc.(loadBalancerAttributes := Some(Subtree(ts, q))));
      } else {
        ResultLoopFrom(ts, originalDepth, targetDepth, q + 1, acc);
      }
    }
  }

  /**
   * UnmarshallResult's loop stops at the end of input or below the entry
   * depth, never touches the metadata, and sets the attributes only from a
   * LoadBalancerAttributes start element or attribute at the target depth:
   * the last one it tests wins, and with none they keep their value.
   */
  lemma ResultLoopSpec(ts: seq<Token>, originalDepth: int, targetDepth: int, q: int, acc: Members)
    requires 0 <= q <= |ts|
    ensures var Decoded(a, e) := ResultLoop(ts, originalDepth, targetDepth, q, acc);
            && (e == |ts| || ts[e].depth < originalDepth)
            && (forall m :: q <= m < e ==> ts[m].depth >= originalDepth)
            && a.responseMetadata == acc.responseMetadata
            && (a.loadBalancerAttributes != acc.loadBalancerAttributes ==>
                  exists k :: q <= k < e && AttributesAt(ts, k, targetDepth) && a.loadBalancerAttributes == Some(Subtree(ts, k)))
    ensures var a := ResultLoop(ts, originalDepth, targetDepth, q, acc).value;
            && ((forall k :: ResultTested(ts, originalDepth, targetDepth, q, k) ==> !AttributesAt(ts, k, targetDepth))
                ==> a.loadBalancerAttributes == acc.loadBalancerAttributes)
            && (forall k :: LastResultTested(ts, originalDepth, targetDepth, q, k) ==> a.loadBalancerAttributes == Some(Subtree(ts, k)))
  {
    ResultLoopFrom(ts, originalDepth, targetDepth, q, acc);
    ResultLoopDepth(ts, originalDepth, targetDepth, q, acc);
    ResultLoopLast(ts, originalDepth, targetDepth, q, acc);
  }

  /** Every token UnmarshallResult's loop passes, skipped subtrees included, is at least as deep as its entry depth. */
  lemma {:induction false} ResultLoopDepth(ts: seq<Token>, originalDepth: int, targetDepth: int, q: int, acc: Members)
    requires 0 <= q <= |ts|
    ensures var e := ResultLoop(ts, originalDepth, targetDepth, q, acc).end;
            forall m :: q <= m < e ==> ts[m].depth >= originalDepth
    decreases |ts| - q
  {
    if q < |ts| && ts[q].depth >= originalDepth {
      if AttributesAt(ts, q, targetDepth) {
        ResultLoopDepth(ts, originalDepth, targetDepth, SubtreeEnd(ts, q) + 1,
                        acc.(loadBalancerAttributes := Some(Subtree(ts, q))));
      } else {
        ResultLoopDepth(ts, originalDepth, targetDepth, q + 1, acc);
      }
    }
  }

  /** UnmarshallResult's loop ends after every position it tests. */
  lemma {:induction false} ResultLoopTestedBeforeEnd(ts: seq<Token>, originalDepth: int, targetDepth: int, q: int, acc: Members)
    requires 0 <= q <= |ts|
    ensures var e := ResultLoop(ts, originalDepth, targetDepth, q, acc).end;
            forall k :: ResultTested(ts, originalDepth, targetDepth, q, k) ==> k < e
    decreases |ts| - q
  {
    if q < |ts| && ts[q].depth >= originalDepth {
      if AttributesAt(ts, q, targetDepth) {
        ResultLoopTestedBeforeEnd(ts, originalDepth, targetDepth, SubtreeEnd(ts, q) + 1,
                                  acc.(loadBalancerAttributes := Some(Subtree(ts, q))));
      } else {
        ResultLoopTestedBeforeEnd(ts, originalDepth, targetDepth, q + 1, acc);
      }
    }
  }

  /** Position k is the last LoadBalancerAttributes element UnmarshallResult's loop, started at q, tests. */
  ghost predicate LastResultTested(ts: seq<Token>, originalDepth: int, targetDepth: int, q: int, k: int)
    requires 0 <= q <= |ts|
  {
    && ResultTested(ts, originalDepth, targetDepth, q, k) && AttributesAt(ts, k, targetDepth)
    && forall j :: ResultTested(ts, originalDepth, targetDepth, q, j) && k < j ==> !AttributesAt(ts, j, targetDepth)
  }

  /** With no LoadBalancerAttributes element tested, UnmarshallResult's loop keeps the attributes. */
  lemma {:induction false} ResultLoopUnchanged(ts: seq<Token>, originalDepth: int, targetDepth: int, q: int, acc: Members)
    requires 0 <= q <= |ts|
    requires forall k :: ResultTested(ts, originalDepth, targetDepth, q, k) ==> !AttributesAt(ts, k, targetDepth)
    ensures ResultLoop(ts, originalDepth, targetDepth, q, acc).value.loadBalancerAttributes == acc.loadBalancerAttributes
    decreases |ts| - q
  {
    if q < |ts| && ts[q].depth >= originalDepth {
      assert ResultTested(ts, originalDepth, targetDepth, q, q);
      var q' := q + 1;
      forall k | ResultTested(ts, originalDepth, targetDepth, q', k) ensures !AttributesAt(ts, k, targetDepth) {
        assert ResultTested(ts, originalDepth, targetDepth, q, k);
      }
      ResultLoopUnchanged(ts, originalDepth, targetDepth, q', acc);
    }
  }

  /** The last LoadBalancerAttributes element UnmarshallResult's loop tests sets the attributes. */
  lemma {:induction false} ResultLoopLastHit(ts: seq<Token>, originalDepth: int, targetDepth: int, q: int, acc: Members, k: int)
    requires 0 <= q <= |ts|
    requires LastResultTested(ts, originalDepth, targetDepth, q, k)
    ensures ResultLoop(ts, originalDepth, targetDepth, q, acc).value.loadBalancerAttributes == Some(Subtree(ts, k))
    decreases |ts| - q
  {
    if AttributesAt(ts, q, targetDepth) {
      var q' := SubtreeEnd(ts, q) + 1;
      var acc' := acc.(loadBalancerAttributes := Some(Subtree(ts, q)));
      if k == q {
        forall j | ResultTested(ts, originalDepth, targetDepth, q', j) ensures !AttributesAt(ts, j, targetDepth) {
          assert ResultTested(ts, originalDepth, targetDepth, q, j);
        }
        ResultLoopUnchanged(ts, originalDepth, targetDepth, q', acc');
      } else {
        forall j | ResultTested(ts, originalDepth, targetDepth, q', j) && k < j ensures !AttributesAt(ts, j, targetDepth) {
          assert ResultTested(ts, originalDepth, targetDepth, q, j);
        }
        ResultLoopLastHit(ts, originalDepth, targetDepth, q', acc', k);
      }
    } else {
      var q' := q + 1;
      forall j | ResultTested(ts, originalDepth, targetDepth, q', j) && k < j ensures !AttributesAt(ts, j, targetDepth) {
        assert ResultTested(ts, originalDepth, targetDepth, q, j);
      }
      ResultLoopLastHit(ts, originalDepth, targetDepth, q', acc, k);
    }
  }

  /**
   * UnmarshallResult's loop ends after every position it tests; the last
   * LoadBalancerAttributes element it tests sets the attributes, and with none
   * they keep their value.
   */
  lemma ResultLoopLast(ts: seq<Token>, originalDepth: int, targetDepth: int, q: int, acc: Members)
    requires 0 <= q <= |ts|
    ensures var e := ResultLoop(ts, originalDepth, targetDepth, q, acc).end;
            forall k :: ResultTested(ts, originalDepth, targetDepth, q, k) ==> k < e
    ensures var a := ResultLoop(ts, originalDepth, targetDepth, q, acc).value;
            (forall k :: ResultTested(ts, originalDepth, targetDepth, q, k) ==> !AttributesAt(ts, k, targetDepth))
            ==> a.loadBalancerAttributes == acc.loadBalancerAttributes
    ensures var a := ResultLoop(ts, originalDepth, targetDepth, q, acc).value;
            forall k :: LastResultTested(ts, originalDepth, targetDepth, q, k) ==> a.loadBalancerAttributes == Some(Subtree(ts, k))
  {
    ResultLoopTestedBeforeEnd(ts, originalDepth, targetDepth, q, acc);
    if forall k :: ResultTested(ts, originalDepth, targetDepth, q, k) ==> !AttributesAt(ts, k, targetDepth) {
      ResultLoopUnchanged(ts, originalDepth, targetDepth, q, acc);
    }
    forall k | LastResultTested(ts, originalDepth, targetDepth, q, k)
      ensures ResultLoop(ts, originalDepth, targetDepth, q, acc).value.loadBalancerAttributes == Some(Subtree(ts, k))
    {
      ResultLoopLastHit(ts, originalDepth, targetDepth, q, acc, k);
    }
  }

  /** Where UnmarshallResult's loop ends does not depend on what it has decoded. */
  lemma {:induction false} ResultLoopEnd(ts: seq<Token>, originalDepth: int, targetDepth: int, q: int, acc: Members, acc': Members)
    requires 0 <= q <= |ts|
    ensures ResultLoop(ts, originalDepth, targetDepth, q, acc).end == ResultLoop(ts, originalDepth, targetDepth, q, acc').end
    decreases |ts| - q
  {
    if q < |ts| && ts[q].depth >= originalDepth {
      if AttributesAt(ts, q, targetDepth) {
        ResultLoopEnd(ts, originalDepth, targetDepth, SubtreeEnd(ts, q) + 1,
                      acc.(loadBalancerAttributes := Some(Subtree(ts, q))), acc'.(loadBalancerAttributes := Some(Subtree(ts, q))));
      } else {
        ResultLoopEnd(ts, originalDepth, targetDepth, q + 1, acc, acc');
      }
    }
  }

  /** One turn of UnmarshallResult's loop, with the guard's next read written as Next. */
  lemma ResultLoopStep(ts: seq<Token>, originalDepth: int, targetDepth: int, q: int, acc: Members)
    requires 0 <= q < |ts| && ts[q].depth >= originalDepth
    ensures ResultLoop(ts, originalDepth, targetDepth, q, acc)
            == if StartOrAttribute(ts, q) && TestAt(ts, q, AttributesName, targetDepth)
               then ResultLoop(ts, originalDepth, targetDepth, Next(ts, SubtreeEnd(ts, q)),
                               acc.(loadBalancerAttributes := Some(Subtree(ts, q))))
               else ResultLoop(ts, originalDepth, targetDepth, Next(ts, q), acc)
  {
  }

  /** One pass of Unmarshall's loop at a token it has read. */
  lemma MainLoopStep(ts: seq<Token>, d: int, q: int, acc: Members)
    requires 0 <= q < |ts| && ts[q].depth >= d
    ensures MainLoop(ts, d, q, acc)
            == if ResultAt(ts, q) then
                 var result := UnmarshallResult(ts, q, acc);
                 MainLoop(ts, d, Next(ts, result.end), result.value)
               else if MetadataAt(ts, q) then
                 MainLoop(ts, d, SubtreeEnd(ts, q) + 1, acc.(responseMetadata := Some(Subtree(ts, q))))
               else MainLoop(ts, d, q + 1, acc)
  {
  }

  /**
   * UnmarshallResult matches one level below its entry depth (three at the
   * start of the document) and stops below its entry depth; the last match it
   * tests sets the attributes.
   */
  lemma UnmarshallResultSpec(ts: seq<Token>, p: int, acc: Members)
    requires InCursorRange(ts, p)
    ensures p == -1 ==> ResultTargetDepth(ts, p) == 3
    ensures 0 <= p < |ts| ==> ResultTargetDepth(ts, p) == ts[p].depth + 1
    ensures var Decoded(a, e) := UnmarshallResult(ts, p, acc);
            && (e == |ts| || ts[e].depth < DepthAt(ts, p))
            && (forall m :: p < m < e ==> ts[m].depth >= DepthAt(ts, p))
            && a.responseMetadata == acc.responseMetadata
            && (a.loadBalancerAttributes != acc.loadBalancerAttributes ==>
                  exists k :: p < k < e && AttributesAt(ts, k, ResultTargetDepth(ts, p))
                              && a.loadBalancerAttributes == Some(Subtree(ts, k)))
    ensures var od, td := DepthAt(ts, p), ResultTargetDepth(ts, p);
            var a := UnmarshallResult(ts, p, acc).value;
            && ((forall k :: ResultTested(ts, od, td, Next(ts, p), k) ==> !AttributesAt(ts, k, td))
                ==> a.loadBalancerAttributes == acc.loadBalancerAttributes)
            && (forall k :: LastResultTested(ts, od, td, Next(ts, p), k) ==> a.loadBalancerAttributes == Some(Subtree(ts, k)))
  {
    ResultLoopSpec(ts, DepthAt(ts, p), ResultTargetDepth(ts, p), Next(ts, p), acc);
  }

  /** A LoadBalancerAttributes element at depth 3 that result start element j reaches through tokens at depth 2 or more. */
  predicate AttributesInResult(ts: seq<Token>, j: int, k: int) {
    0 <= j < k < |ts| && ResultAt(ts, j) && AttributesAt(ts, k, 3)
    && forall m :: j < m <= k ==> ts[m].depth >= 2
  }

  /** A result element that changes the attributes took them from an element in the run it scans. */
  lemma ResultAttributesHit(ts: seq<Token>, j: int, acc: Members) returns (k: int)
    requires 0 <= j < |ts| && ResultAt(ts, j)
    requires UnmarshallResult(ts, j, acc).value.loadBalancerAttributes != acc.loadBalancerAttributes
    ensures j < k < UnmarshallResult(ts, j, acc).end && AttributesInResult(ts, j, k)
    ensures UnmarshallResult(ts, j, acc).value.loadBalancerAttributes == Some(Subtree(ts, k))
  {
    UnmarshallResultSpec(ts, j, acc);
    k :| j < k < UnmarshallResult(ts, j, acc).end && AttributesAt(ts, k, 3)
         && UnmarshallResult(ts, j, acc).value.loadBalancerAttributes == Some(Subtree(ts, k));
  }

  /** Unmarshall's loop stops at the end of input or below depth d. */
  lemma {:induction false} MainLoopExit(ts: seq<Token>, d: int, q: int, acc: Members)
    requires 0 <= q <= |ts|
    ensures var e := MainLoop(ts, d, q, acc).end;
            e == |ts| || ts[e].depth < d
    decreases |ts| - q
  {
    if q < |ts| && ts[q].depth >= d {
      if ResultAt(ts, q) {
        var result := UnmarshallResult(ts, q, acc);
        MainLoopExit(ts, d, Next(ts, result.end), result.value);
      } else if MetadataAt(ts, q) {
        MainLoopExit(ts, d, SubtreeEnd(ts, q) + 1, acc.(responseMetadata := Some(Subtree(ts, q))));
      } else {
        MainLoopExit(ts, d, q + 1, acc);
      }
    }
  }

  /** The metadata comes only from a ResponseMetadata start element at depth 2. */
  lemma {:induction false} MainLoopMetadataFrom(ts: seq<Token>, d: int, q: int, acc: Members)
    requires 0 <= q <= |ts|
    ensures var Decoded(a, e) := MainLoop(ts, d, q, acc);
            a.responseMetadata != acc.responseMetadata ==>
              exists k :: q <= k < e && MetadataAt(ts, k) && a.responseMetadata == Some(Subtree(ts, k))
    decreases |ts| - q
  {
    if q < |ts| && ts[q].depth >= d {
      if ResultAt(ts, q) {
        var result := UnmarshallResult(ts, q, acc);
        UnmarshallResultSpec(ts, q, acc);
        MainLoopMetadataFrom(ts, d, Next(ts, result.end), result.value);
      } else if MetadataAt(ts, q) {
        MainLoopMetadataFrom(ts, d, SubtreeEnd(ts, q) + 1, acc.(responseMetadata := Some(Subtree(ts, q))));
        assert MetadataAt(ts, q);
      } else {
        MainLoopMetadataFrom(ts, d, q + 1, acc);
      }
    }
  }

  /** Position k is the last ResponseMetadata element Unmarshall's loop, started at q, tests. */
  ghost predicate LastMetadataTested(ts: seq<Token>, d: int, q: int, k: int)
    requires 0 <= q <= |ts|
  {
    && MainTested(ts, d, q, k) && MetadataAt(ts, k)
    && forall j :: MainTested(ts, d, q, j) && k < j ==> !MetadataAt(ts, j)
  }

  /** With no ResponseMetadata element tested, the metadata keeps its value. */
  lemma {:induction false} MainLoopMetadataUnchanged(ts: seq<Token>, d: int, q: int, acc: Members)
    requires 0 <= q <= |ts|
    requires forall k :: MainTested(ts, d, q, k) ==> !MetadataAt(ts, k)
    ensures MainLoop(ts, d, q, acc).value.responseMetadata == acc.responseMetadata
    decreases |ts| - q
  {
    if q < |ts| && ts[q].depth >= d {
      if ResultAt(ts, q) {
        var result := UnmarshallResult(ts, q, acc);
        var q' := Next(ts, result.end);
        UnmarshallResultSpec(ts, q, acc);
        ResultLoopEnd(ts, 2, 3, q + 1, acc, Unset);
        forall k | MainTested(ts, d, q', k) ensures !MetadataAt(ts, k) {
          assert MainTested(ts, d, q, k);
        }
        MainLoopMetadataUnchanged(ts, d, q', result.value);
      } else {
        assert MainTested(ts, d, q, q);
        var q' := q + 1;
        forall k | MainTested(ts, d, q', k) ensures !MetadataAt(ts, k) {
          assert MainTested(ts, d, q, k);
        }
        MainLoopMetadataUnchanged(ts, d, q', acc);
      }
    }
  }

  /** The last ResponseMetadata element tested sets the metadata. */
  lemma {:induction false} MainLoopMetadataLast(ts: seq<Token>, d: int, q: int, acc: Members, k: int)
    requires 0 <= q <= |ts|
    requires LastMetadataTested(ts, d, q, k)
    ensures MainLoop(ts, d, q, acc).value.responseMetadata == Some(Subtree(ts, k))
    decreases |ts| - q
  {
    if ResultAt(ts, q) {
      var result := UnmarshallResult(ts, q, acc);
      var q' := Next(ts, result.end);
      UnmarshallResultSpec(ts, q, acc);
      ResultLoopEnd(ts, 2, 3, q + 1, acc, Unset);
      assert k != q;
      forall j | MainTested(ts, d, q', j) && k < j ensures !MetadataAt(ts, j) {
        assert MainTested(ts, d, q, j);
      }
      MainLoopMetadataLast(ts, d, q', result.value, k);
    } else if MetadataAt(ts, q) {
      var q' := SubtreeEnd(ts, q) + 1;
      var acc' := acc.(responseMetadata := Some(Subtree(ts, q)));
      if k == q {
        forall j | MainTested(ts, d, q', j) ensures !MetadataAt(ts, j) {
          assert MainTested(ts, d, q, j);
        }
        MainLoopMetadataUnchanged(ts, d, q', acc');
      } else {
        forall j | MainTested(ts, d, q', j) && k < j ensures !MetadataAt(ts, j) {
          assert MainTested(ts, d, q, j);
        }
        MainLoopMetadataLast(ts, d, q', acc', k);
      }
    } else {
      var q' := q + 1;
      assert k != q;
      forall j | MainTested(ts, d, q', j) && k < j ensures !MetadataAt(ts, j) {
        assert MainTested(ts, d, q, j);
      }
      MainLoopMetadataLast(ts, d, q', acc, k);
    }
  }

  /**
   * The metadata comes only from a ResponseMetadata start element at depth 2:
   * the last one the loop tests sets it, and with none it keeps its value.
   */
  lemma MainLoopMetadata(ts: seq<Token>, d: int, q: int, acc: Members)
    requires 0 <= q <= |ts|
    ensures var Decoded(a, e) := MainLoop(ts, d, q, acc);
            a.responseMetadata != acc.responseMetadata ==>
              exists k :: q <= k < e && MetadataAt(ts, k) && a.responseMetadata == Some(Subtree(ts, k))
    ensures var a := MainLoop(ts, d, q, acc).value;
            (forall k :: MainTested(ts, d, q, k) ==> !MetadataAt(ts, k)) ==> a.responseMetadata == acc.responseMetadata
    ensures var a := MainLoop(ts, d, q, acc).value;
            forall k :: LastMetadataTested(ts, d, q, k) ==> a.responseMetadata == Some(Subtree(ts, k))
  {
    MainLoopMetadataFrom(ts, d, q, acc);
    if forall k :: MainTested(ts, d, q, k) ==> !MetadataAt(ts, k) {
      MainLoopMetadataUnchanged(ts, d, q, acc);
    }
    forall k | LastMetadataTested(ts, d, q, k)
      ensures MainLoop(ts, d, q, acc).value.responseMetadata == Some(Subtree(ts, k))
    {
      MainLoopMetadataLast(ts, d, q, acc, k);
    }
  }

  /** The attributes come only from a LoadBalancerAttributes element in the run a result element scans. */
  lemma {:induction false} MainLoopAttributesFrom(ts: seq<Token>, d: int, q: int, acc: Members)
    requires 0 <= q <= |ts|
    ensures var Decoded(a, e) := MainLoop(ts, d, q, acc);
            a.loadBalancerAttributes != acc.loadBalancerAttributes ==>
              exists j, k :: q <= j < k < e && AttributesInResult(ts, j, k) && a.loadBalancerAttributes == Some(Subtree(ts, k))
    decreases |ts| - q
  {
    if q < |ts| && ts[q].depth >= d {
      if ResultAt(ts, q) {
        var result := UnmarshallResult(ts, q, acc);
        MainLoopAttributesFrom(ts, d, Next(ts, result.end), result.value);
        if result.value.loadBalancerAttributes != acc.loadBalancerAttributes {
          var k := ResultAttributesHit(ts, q, acc);
        }
      } else if MetadataAt(ts, q) {
        MainLoopAttributesFrom(ts, d, SubtreeEnd(ts, q) + 1, acc.(responseMetadata := Some(Subtree(ts, q))));
      } else {
        MainLoopAttributesFrom(ts, d, q + 1, acc);
      }
    }
  }

  /** Position k is the last position AttributesTested accepts. */
  ghost predicate LastAttributesTested(ts: seq<Token>, d: int, q: int, k: int)
    requires 0 <= q <= |ts|
  {
    AttributesTested(ts, d, q, k) && forall j :: k < j ==> !AttributesTested(ts, d, q, j)
  }

  /** With no LoadBalancerAttributes element tested inside a tested result element, the attributes keep their value. */
  lemma {:induction false} MainLoopAttributesUnchanged(ts: seq<Token>, d: int, q: int, acc: Members)
    requires 0 <= q <= |ts|
    requires forall k :: !AttributesTested(ts, d, q, k)
    ensures MainLoop(ts, d, q, acc).value.loadBalancerAttributes == acc.loadBalancerAttributes
    decreases |ts| - q
  {
    if q < |ts| && ts[q].depth >= d {
      if ResultAt(ts, q) {
        var result := UnmarshallResult(ts, q, acc);
        var q' := Next(ts, result.end);
        ResultLoopEnd(ts, 2, 3, q + 1, acc, Unset);
        forall k | ResultTested(ts, 2, 3, q + 1, k) ensures !AttributesAt(ts, k, 3) {
          assert !AttributesTested(ts, d, q, k);
        }
        ResultLoopUnchanged(ts, 2, 3, q + 1, acc);
        forall k ensures !AttributesTested(ts, d, q', k) {
          assert !AttributesTested(ts, d, q, k);
        }
        MainLoopAttributesUnchanged(ts, d, q', result.value);
      } else if MetadataAt(ts, q) {
        var q' := SubtreeEnd(ts, q) + 1;
        forall k ensures !AttributesTested(ts, d, q', k) {
          assert !AttributesTested(ts, d, q, k);
        }
        MainLoopAttributesUnchanged(ts, d, q', acc.(responseMetadata := Some(Subtree(ts, q))));
      } else {
        var q' := q + 1;
        forall k ensures !AttributesTested(ts, d, q', k) {
          assert !AttributesTested(ts, d, q, k);
        }
        MainLoopAttributesUnchanged(ts, d, q', acc);
      }
    }
  }

  /** The last LoadBalancerAttributes element tested inside a tested result element sets the attributes. */
  lemma {:induction false} MainLoopAttributesLast(ts: seq<Token>, d: int, q: int, acc: Members, k: int)
    requires 0 <= q <= |ts|
    requires LastAttributesTested(ts, d, q, k)
    ensures MainLoop(ts, d, q, acc).value.loadBalancerAttributes == Some(Subtree(ts, k))
    decreases |ts| - q
  {
    if ResultAt(ts, q) {
      var result := UnmarshallResult(ts, q, acc);
      var q' := Next(ts, result.end);
      ResultLoopEnd(ts, 2, 3, q + 1, acc, Unset);
      if AttributesTested(ts, d, q', k) {
        forall j | k < j ensures !AttributesTested(ts, d, q', j) {
          assert !AttributesTested(ts, d, q, j);
        }
        MainLoopAttributesLast(ts, d, q', result.value, k);
      } else {
        ResultLoopTestedBeforeEnd(ts, 2, 3, q + 1, acc);
        assert ResultTested(ts, 2, 3, q + 1, k) && AttributesAt(ts, k, 3);
        assert k < q';
        forall j ensures !AttributesTested(ts, d, q', j) {
          assert k < j ==> !AttributesTested(ts, d, q, j);
        }
        forall j | ResultTested(ts, 2, 3, q + 1, j) && k < j ensures !AttributesAt(ts, j, 3) {
          assert !AttributesTested(ts, d, q, j);
        }
        ResultLoopLastHit(ts, 2, 3, q + 1, acc, k);
        MainLoopAttributesUnchanged(ts, d, q', result.value);
      }
    } else if MetadataAt(ts, q) {
      var q' := SubtreeEnd(ts, q) + 1;
      forall j | k < j ensures !AttributesTested(ts, d, q', j) {
        assert !AttributesTested(ts, d, q, j);
      }
      MainLoopAttributesLast(ts, d, q', acc.(responseMetadata := Some(Subtree(ts, q))), k);
    } else {
      var q' := q + 1;
      forall j | k < j ensures !AttributesTested(ts, d, q', j) {
        assert !AttributesTested(ts, d, q, j);
      }
      MainLoopAttributesLast(ts, d, q', acc, k);
    }
  }

  /**
   * The attributes come only from a LoadBalancerAttributes element in the run
   * a result element scans: the last one tested inside a tested result element
   * sets them, and with none they keep their value.
   */
  lemma MainLoopAttributes(ts: seq<Token>, d: int, q: int, acc: Members)
    requires 0 <= q <= |ts|
    ensures var Decoded(a, e) := MainLoop(ts, d, q, acc);
            a.loadBalancerAttributes != acc.loadBalancerAttributes ==>
              exists j, k :: q <= j < k < e && AttributesInResult(ts, j, k) && a.loadBalancerAttributes == Some(Subtree(ts, k))
    ensures var a := MainLoop(ts, d, q, acc).value;
            (forall k :: !AttributesTested(ts, d, q, k)) ==> a.loadBalancerAttributes == acc.loadBalancerAttributes
    ensures var a := MainLoop(ts, d, q, acc).value;
            forall k :: LastAttributesTested(ts, d, q, k) ==> a.loadBalancerAttributes == Some(Subtree(ts, k))
  {
    MainLoopAttributesFrom(ts, d, q, acc);
    if forall k :: !AttributesTested(ts, d, q, k) {
      MainLoopAttributesUnchanged(ts, d, q, acc);
    }
    forall k | LastAttributesTested(ts, d, q, k)
      ensures MainLoop(ts, d, q, acc).value.loadBalancerAttributes == Some(Subtree(ts, k))
    {
      MainLoopAttributesLast(ts, d, q, acc, k);
    }
  }

  /**
   * Unmarshall's loop stops at the end of input or below depth d; the
   * metadata comes only from a ResponseMetadata start element at depth 2, and
   * the attributes only from a LoadBalancerAttributes element at depth 3 that
   * a result start element at depth 2 reaches through tokens no shallower
   * than 2: the run UnmarshallResult scans from that element.  For each
   * member the last element the loops test wins, and with none it is unchanged.
   */
  lemma MainLoopSpec(ts: seq<Token>, d: int, q: int, acc: Members)
    requires 0 <= q <= |ts|
    ensures var Decoded(a, e) := MainLoop(ts, d, q, acc);
            && (e == |ts| || ts[e].depth < d)
            && (a.responseMetadata != acc.responseMetadata ==>
                  exists k :: q <= k < e && MetadataAt(ts, k) && a.responseMetadata == Some(Subtree(ts, k)))
            && (a.loadBalancerAttributes != acc.loadBalancerAttributes ==>
                  exists j, k :: q <= j < k < e && AttributesInResult(ts, j, k)
                                 && a.loadBalancerAttributes == Some(Subtree(ts, k)))
    ensures var a := MainLoop(ts, d, q, acc).value;
            && ((forall k :: MainTested(ts, d, q, k) ==> !MetadataAt(ts, k)) ==> a.responseMetadata == acc.responseMetadata)
            && (forall k :: LastMetadataTested(ts, d, q, k) ==> a.responseMetadata == Some(Subtree(ts, k)))
            && ((forall k :: !AttributesTested(ts, d, q, k)) ==> a.loadBalancerAttributes == acc.loadBalancerAttributes)
            && (forall k :: LastAttributesTested(ts, d, q, k) ==> a.loadBalancerAttributes == Some(Subtree(ts, k)))
  {
    MainLoopExit(ts, d, q, acc);
    MainLoopMetadata(ts, d, q, acc);
    MainLoopAttributes(ts, d, q, acc);
  }

  /**
   * Unmarshall stops at the end of input or below the depth of the first
   * token read; only the two depth-2 start elements populate the response,
   * each member from the last such element the loops test, null when none.
   */
  lemma DecodeSpec(ts: seq<Token>, p: int)
    requires InCursorRange(ts, p)
    ensures var q := Next(ts, p);
            var Decoded(a, e) := Decode(ts, p);
            && (e == |ts| || ts[e].depth < DepthAt(ts, q))
            && (a.responseMetadata.Some? ==>
                  exists k :: q < k < e && MetadataAt(ts, k) && a.responseMetadata == Some(Subtree(ts, k)))
            && (a.loadBalancerAttributes.Some? ==>
                  exists j, k :: q < j < k < e && AttributesInResult(ts, j, k)
                                 && a.loadBalancerAttributes == Some(Subtree(ts, k)))
    ensures var q := Next(ts, p);
            var d, s := DepthAt(ts, q), Next(ts, q);
            var a := Decode(ts, p).value;
            && ((forall k :: MainTested(ts, d, s, k) ==> !MetadataAt(ts, k)) ==> a.responseMetadata.None?)
            && (forall k :: LastMetadataTested(ts, d, s, k) ==> a.responseMetadata == Some(Subtree(ts, k)))
            && ((forall k :: !AttributesTested(ts, d, s, k)) ==> a.loadBalancerAttributes.None?)
            && (forall k :: LastAttributesTested(ts, d, s, k) ==> a.loadBalancerAttributes == Some(Subtree(ts, k)))
  {
    DecodeFrom(ts, p);
    DecodeLastWins(ts, p);
  }

  /** Unmarshall's exit, and where each member of its response came from. */
  lemma DecodeFrom(ts: seq<Token>, p: int)
    requires InCursorRange(ts, p)
    ensures var q := Next(ts, p);
            var Decoded(a, e) := Decode(ts, p);
            && (e == |ts| || ts[e].depth < DepthAt(ts, q))
            && (a.responseMetadata.Some? ==>
                  exists k :: q < k < e && MetadataAt(ts, k) && a.responseMetadata == Some(Subtree(ts, k)))
            && (a.loadBalancerAttributes.Some? ==>
                  exists j, k :: q < j < k < e && AttributesInResult(ts, j, k)
                                 && a.loadBalancerAttributes == Some(Subtree(ts, k)))
  {
    var q := Next(ts, p);
    var s := Next(ts, q);
    assert s - 1 == q || (q == |ts| && s == q);
    MainLoopExit(ts, DepthAt(ts, q), s, Unset);
    MainLoopMetadataFrom(ts, DepthAt(ts, q), s, Unset);
    MainLoopAttributesFrom(ts, DepthAt(ts, q), s, Unset);
  }

  /** Each member of Unmarshall's response is set by the last element its loops test, null when none. */
  lemma DecodeLastWins(ts: seq<Token>, p: int)
    requires InCursorRange(ts, p)
    ensures var q := Next(ts, p);
            var d, s := DepthAt(ts, q), Next(ts, q);
            var a := Decode(ts, p).value;
            && ((forall k :: MainTested(ts, d, s, k) ==> !MetadataAt(ts, k)) ==> a.responseMetadata.None?)
            && (forall k :: LastMetadataTested(ts, d, s, k) ==> a.responseMetadata == Some(Subtree(ts, k)))
            && ((forall k :: !AttributesTested(ts, d, s, k)) ==> a.loadBalancerAttributes.None?)
            && (forall k :: LastAttributesTested(ts, d, s, k) ==> a.loadBalancerAttributes == Some(Subtree(ts, k)))
  {
    var q := Next(ts, p);
    MainLoopMetadata(ts, DepthAt(ts, q), Next(ts, q), Unset);
    MainLoopAttributes(ts, DepthAt(ts, q), Next(ts, q), Unset);
  }

  /** DescribeLoadBalancerAttributesResponse: the object both unmarshalling methods fill in. */
  class DescribeLoadBalancerAttributesResponse {
    var loadBalancerAttributes: Option<seq<Token>>
    var responseMetadata: Option<seq<Token>>

    constructor ()
      ensures loadBalancerAttributes.None? && responseMetadata.None?
    {
      loadBalancerAttributes := None;
      responseMetadata := None;
    }

    function State(): Members
      reads this
    {
      Members(loadBalancerAttributes, responseMetadata)
    }
  }

  class DescribeLoadBalancerAttributesResponseUnmarshaller {
    constructor () {}

    method Unmarshall(context: UnmarshallerContext) returns (response: DescribeLoadBalancerAttributesResponse)
      requires context.Valid()
      modifies context
      ensures context.Valid() && fresh(response)
      ensures Decode(context.tokens, old(context.pos)) == Decoded(response.State(), context.pos)
    {
      response := new DescribeLoadBalancerAttributesResponse();
      var _ := context.Read();
      var targetDepth := context.CurrentDepth();
      ghost var first := context.pos;
      ghost var ts := context.tokens;
      ghost var spec := MainLoop(ts, targetDepth, Next(ts, first), Unset);
      var more := context.ReadAtDepth(targetDepth);
      while more
        invariant context.Valid() && 0 <= context.pos && context.tokens == ts
        invariant more <==> context.pos < |ts| && ts[context.pos].depth >= targetDepth
        invariant spec == MainLoop(ts, targetDepth, context.pos, response.State())
        decreases |ts| - context.pos
      {
        more := UnmarshallMember(context, response, targetDepth);
      }
    }

    /** One pass of Unmarshall's loop: dispatch on the current token, then ReadAtDepth. */
    static method UnmarshallMember(context: UnmarshallerContext, response: DescribeLoadBalancerAttributesResponse,
                                   targetDepth: int) returns (more: bool)
      requires context.Valid() && 0 <= context.pos < |context.tokens|
      requires context.tokens[context.pos].depth >= targetDepth
      modifies context, response
      ensures context.Valid() && old(context.pos) < context.pos
      ensures more <==> context.pos < |context.tokens| && context.tokens[context.pos].depth >= targetDepth
      ensures MainLoop(context.tokens, targetDepth, old(context.pos), old(response.State()))
              == MainLoop(context.tokens, targetDepth, context.pos, response.State())
    {
      ghost var ts, q, acc := context.tokens, context.pos, response.State();
      MainLoopStep(ts, targetDepth, q, acc);
      if context.IsStartElement() {
        if context.TestExpression(ResultName, 2) {
          UnmarshallResultInto(context, response);
        } else if context.TestExpression(MetadataName, 2) {
          var metadata := context.ReadSubtree();
          response.responseMetadata := Some(metadata);
        }
      }
      more := context.ReadAtDepth(targetDepth);
    }

    /** UnmarshallResult: fills in the caller's response object. */
    static method UnmarshallResultInto(context: UnmarshallerContext, response: DescribeLoadBalancerAttributesResponse)
      requires context.Valid()
      modifies context, response
      ensures context.Valid()
      ensures UnmarshallResult(context.tokens, old(context.pos), old(response.State()))
              == Decoded(response.State(), context.pos)
    {
      var originalDepth := context.CurrentDepth();
      var targetDepth := originalDepth + 1;
      if context.IsStartOfDocument() {
        targetDepth := targetDepth + 2;
      }
      ghost var ts := context.tokens;
      ghost var spec := UnmarshallResult(ts, context.pos, response.State());
      assert spec == UnmarshallResult(context.tokens, old(context.pos), old(response.State()));
      assert spec == ResultLoop(ts, originalDepth, targetDepth, Next(ts, context.pos), response.State());
      var more := context.ReadAtDepth(originalDepth);
      while more
        invariant context.Valid() && 0 <= context.pos && context.tokens == ts
        invariant more <==> context.pos < |ts| && ts[context.pos].depth >= originalDepth
        invariant spec == ResultLoop(ts, originalDepth, targetDepth, context.pos, response.State())
        decreases |ts| - context.pos
      {
        ResultLoopStep(ts, originalDepth, targetDepth, context.pos, response.State());
        if context.IsStartElement() || context.IsAttribute() {
          if context.TestExpression(AttributesName, targetDepth) {
            var attributes := context.ReadSubtree();
            response.loadBalancerAttributes := Some(attributes);
          }
        }
        more := context.ReadAtDepth(originalDepth);
      }
      assert spec == Decoded(response.State(), context.pos);
    }
  }

  datatype ElasticLoadBalancingFault =
    | AccessPointNotFoundException
    | LoadBalancerAttributeNotFoundException
    | AmazonElasticLoadBalancingException   // the service's generic fault

  /** The codes with a dedicated fault type. */
  const ErrorCodes: seq<(string, ElasticLoadBalancingFault)> := [
    ("LoadBalancerNotFound", AccessPointNotFoundException),
    ("LoadBalancerAttributeNotFound", LoadBalancerAttributeNotFoundException)
  ]

  /**
   * UnmarshallException: the first code check that holds picks the fault
   * type; the envelope's fields, the inner exception and the status go into
   * the fault unchanged.
   */
  function UnmarshallException(errorResponse: ErrorResponse, innerException: Option<string>, statusCode: int)
    : (f: ServiceFault<ElasticLoadBalancingFault>)
    ensures f == FaultFrom(f.kind, errorResponse, innerException, statusCode)
    ensures f.kind == Lookup(ErrorCodes, errorResponse.code, AmazonElasticLoadBalancingException)
  {
    var e := errorResponse;
    if CodeIs(e.code, "LoadBalancerNotFound") then FaultFrom(AccessPointNotFoundException, e, innerException, statusCode)
    else if CodeIs(e.code, "LoadBalancerAttributeNotFound") then FaultFrom(LoadBalancerAttributeNotFoundException, e, innerException, statusCode)
    else FaultFrom(AmazonElasticLoadBalancingException, e, innerException, statusCode)
  }

  /**
   * "LoadBalancerNotFound" maps to AccessPointNotFoundException (the fault is
   * not named after the code), "LoadBalancerAttributeNotFound" to its own
   * fault, and everything else, a null code included, to the generic fault.
   */
  lemma FaultKindByCode(errorResponse: ErrorResponse, innerException: Option<string>, statusCode: int)
    ensures DistinctCodes(ErrorCodes)
    ensures var k := UnmarshallException(errorResponse, innerException, statusCode).kind;
            && (errorResponse.code == Some("LoadBalancerNotFound") ==> k == AccessPointNotFoundException)
            && (errorResponse.code == Some("LoadBalancerAttributeNotFound") ==> k == LoadBalancerAttributeNotFoundException)
            && (k == AmazonElasticLoadBalancingException <==>
                  errorResponse.code !in {Some("LoadBalancerNotFound"), Some("LoadBalancerAttributeNotFound")})
  {
    assert DistinctCodes(ErrorCodes);
  }

  /** The eagerly created static instance behind GetInstance() and Instance. */
  class DescribeLoadBalancerAttributesResponseUnmarshallerInstance {
    const instance: DescribeLoadBalancerAttributesResponseUnmarshaller

    constructor ()
      ensures fresh(instance)
    {
      instance := new DescribeLoadBalancerAttributesResponseUnmarshaller();
    }

    function GetInstance(): DescribeLoadBalancerAttributesResponseUnmarshaller {
      instance
    }

    function Instance(): DescribeLoadBalancerAttributesResponseUnmarshaller {
      instance
    }
  }

  /** Both accessors, called any number of times, return the same object. */
  method AccessorsAgree(holder: DescribeLoadBalancerAttributesResponseUnmarshallerInstance)
    returns (first: DescribeLoadBalancerAttributesResponseUnmarshaller, second: DescribeLoadBalancerAttributesResponseUnmarshaller)
    ensures first == second && first == holder.instance
  {
    first := holder.GetInstance();
    second := holder.Instance();
  }
}
