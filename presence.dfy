/** The presence rules every generated request and result type follows for its
    `IsSet*` checks.  A C# reference that may be null, and a `Nullable<T>`
    backing field, are both an `Option`; a list or a dictionary is an `Option`
    of a sequence or a map. */
module Presence {
  import opened Wrappers

  /** A string or a `T?` backing field: set iff it holds a value (`!= null`, `HasValue`). */
  predicate IsSetValue<T>(field: Option<T>) {
    field.Some?
  }

  /** A list field: set iff it is non-null and `Count > 0`. */
  predicate IsSetList<T>(field: Option<seq<T>>) {
    field.Some? && |field.value| > 0
  }

  /** A dictionary field: set iff it is non-null and `Count > 0`. */
  predicate IsSetDictionary<K, V>(field: Option<map<K, V>>) {
    field.Some? && |field.value| > 0
  }

  /** `GetValueOrDefault()` / `?? default(bool)` on a `bool?` backing field. */
  function BoolOrDefault(field: Option<bool>): (b: bool)
    ensures field.Some? ==> b == field.value
    ensures field.None? ==> !b
  {
    if field.Some? then field.value else false
  }

  /**
   * What a `bool?`-backed property gives away: the getter and `IsSet`
   * together determine the backing field, and when two fields read alike
   * but differ, `IsSet` is what tells them apart.
   */
  lemma BoolFieldObservable(f: Option<bool>, g: Option<bool>)
    ensures (BoolOrDefault(f) == BoolOrDefault(g) && IsSetValue(f) == IsSetValue(g)) <==> f == g
    ensures BoolOrDefault(f) == BoolOrDefault(g) && f != g ==> IsSetValue(f) != IsSetValue(g)
  {
  }

  /** A list or dictionary is set iff it is non-null and holds an element, or a key. */
  lemma SetCollectionsHoldAnElement<T, K, V>(list: Option<seq<T>>, dict: Option<map<K, V>>)
    ensures IsSetList(list) <==> list.Some? && exists x :: x in list.value
    ensures IsSetDictionary(dict) <==> dict.Some? && exists k :: k in dict.value
  {
    if IsSetList(list) {
      assert list.value[0] in list.value;
    }
    if dict.Some? && exists k :: k in dict.value {
      var k :| k in dict.value;
      assert k in dict.value.Keys;
    }
  }
}
