// The error envelope the response unmarshallers read on a failed call, the
// typed fault they build from it, and the exact-match code lookup that both
// UnmarshallException mappers perform.
module ServiceErrors {
  import opened Wrappers

  /**
   * What the (XML or JSON) error-response unmarshaller extracts from an error
   * body.  Any member may be null.
   */
  datatype ErrorResponse = ErrorResponse(
    code: Option<string>,
    message: Option<string>,
    errorType: Option<string>,
    requestId: Option<string>)

  /**
   * A service exception of kind K with the arguments every fault constructor
   * receives: message, inner exception, error type, code, request id and HTTP
   * status.  The inner exception is represented by its message.
   */
  datatype ServiceFault<K> = ServiceFault(
    kind: K,
    message: Option<string>,
    innerException: Option<string>,
    errorType: Option<string>,
    code: Option<string>,
    requestId: Option<string>,
    statusCode: int)

  /** A fault of the given kind built from an envelope and the call's context. */
  function FaultFrom<K>(kind: K, e: ErrorResponse, innerException: Option<string>, statusCode: int): (f: ServiceFault<K>)
    ensures f.kind == kind && f.statusCode == statusCode && f.innerException == innerException
    ensures f.message == e.message && f.errorType == e.errorType && f.code == e.code && f.requestId == e.requestId
  {
    ServiceFault(kind, e.message, innerException, e.errorType, e.code, e.requestId, statusCode)
  }

  /** `errorResponse.Code != null && errorResponse.Code.Equals(s)`: ordinal equality. */
  predicate CodeIs(code: Option<string>, s: string) {
    code.Some? && code.value == s
  }

  predicate DistinctCodes<K>(table: seq<(string, K)>) {
    forall i, j :: 0 <= i < j < |table| ==> table[i].0 != table[j].0
  }

  /**
   * Reference lookup: the kind paired with the code in the table, or the
   * fallback.  With distinct codes the answer names the one matching entry,
   * so it does not depend on the order of the entries.
   */
  function Lookup<K>(table: seq<(string, K)>, code: Option<string>, fallback: K): (k: K)
    ensures DistinctCodes(table) ==>
              forall i :: 0 <= i < |table| && CodeIs(code, table[i].0) ==> k == table[i].1
    ensures (forall i :: 0 <= i < |table| ==> !CodeIs(code, table[i].0)) ==> k == fallback
    ensures k == fallback || exists i :: 0 <= i < |table| && CodeIs(code, table[i].0) && k == table[i].1
  {
    if |table| == 0 then fallback
    else if CodeIs(code, table[0].0) then table[0].1
    else
      var k := Lookup(table[1..], code, fallback);
      assert forall i :: 1 <= i < |table| ==> table[i] == table[1..][i - 1];
      k
  }

  /** An entry that occurs at two positions is counted at least twice. */
  lemma CountedTwice<T>(s: seq<T>, i: int, j: int)
    requires 0 <= i < j < |s| && s[i] == s[j]
    ensures multiset(s)[s[i]] >= 2
  {
    assert s == s[..j] + s[j..];
    assert s[..j][i] == s[i];
    assert s[j..][0] == s[i];
  }

  /** In a table of distinct codes every entry is counted once. */
  lemma CountedOnce<K>(table: seq<(string, K)>, i: int)
    requires DistinctCodes(table) && 0 <= i < |table|
    ensures multiset(table)[table[i]] == 1
  {
    var x := table[i];
    assert table == table[..i] + [x] + table[i + 1..];
    assert x !in table[..i] by {
      forall k | 0 <= k < i ensures table[..i][k] != x {
        assert table[..i][k] == table[k];
      }
    }
    var after := table[i + 1..];
    assert x !in after by {
      forall k | 0 <= k < |after| ensures after[k] != x {
        assert after[k] == table[i + 1 + k];
      }
    }
  }

  /** A reordering of a table of distinct codes has distinct codes too. */
  lemma {:induction false} DistinctCodesPermuted<K>(table: seq<(string, K)>, other: seq<(string, K)>)
    requires DistinctCodes(table) && multiset(table) == multiset(other)
    ensures DistinctCodes(other)
  {
    forall i, j | 0 <= i < j < |other|
      ensures other[i].0 != other[j].0
    {
      if other[i].0 == other[j].0 {
        var x, y := other[i], other[j];
        assert x in multiset(table) && y in multiset(table);
        var a :| 0 <= a < |table| && table[a] == x;
        var b :| 0 <= b < |table| && table[b] == y;
        assert a == b;
        CountedTwice(other, i, j);
        CountedOnce(table, a);
        assert false;
      }
    }
  }

  /** Reordering a table of distinct codes does not change any lookup. */
  lemma LookupOrderIndependent<K>(table: seq<(string, K)>, other: seq<(string, K)>, code: Option<string>, fallback: K)
    requires DistinctCodes(table)
    requires multiset(table) == multiset(other)
    ensures Lookup(table, code, fallback) == Lookup(other, code, fallback)
  {
    DistinctCodesPermuted(table, other);
    var k := Lookup(table, code, fallback);
    if exists i :: 0 <= i < |table| && CodeIs(code, table[i].0) {
      var i :| 0 <= i < |table| && CodeIs(code, table[i].0);
      assert table[i] in multiset(other);
      var j :| 0 <= j < |other| && other[j] == table[i];
    } else {
      forall j | 0 <= j < |other|
        ensures !CodeIs(code, other[j].0)
      {
        assert other[j] in multiset(table);
      }
    }
  }
}
