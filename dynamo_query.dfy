/** Query composition: the filter a query sends, the indexes its key
    conditions point at, the index it finally runs against, and the range-key
    condition built from a value list. */
module DynamoQuery {
  import opened Wrappers
  import opened DynamoModel
  import opened DynamoConversion

  /** NO_INDEX: the candidate index of a condition on the table's own range key. */
  const NoIndex: string := ""

  /** One condition of the QueryFilter, in the order it was added. */
  datatype FilterCondition = FilterCondition(attributeName: string, op: ComparisonOperator, values: seq<Entry>)

  /** The property a condition names; a null name is rejected as a null
      dictionary key is, with ArgumentNullException for `key`. */
  function PropertyNamed(config: ItemStorageConfig, name: Option<string>): (r: Result<PropertyStorage, DynamoError>)
    ensures r.Success? ==> name.Some? && r.value in config.allPropertyStorage && r.value.propertyName == name.value
  {
    if name.None? then Failure(ArgumentNull("key")) else GetPropertyStorage(config, name.value)
  }

  /** ConvertConditionValues over a non-null value array, from some value on
      with the attribute values made so far: every value is converted in
      order, and a value that converts to null fails when it is turned into an
      attribute value. */
  function ConvertValuesFrom(ps: PropertyStorage, values: seq<Value>, canReturnPrimitive: bool, done: seq<Entry>)
    : Result<seq<Entry>, DynamoError>
    decreases |values|
  {
    if |values| == 0 then Success(done)
    else
      match ToEntry(ps, values[0], canReturnPrimitive)
      case Failure(e) => Failure(e)
      case Success(entry) =>
        if entry.Null? then Failure(NullReference)
        else ConvertValuesFrom(ps, values[1..], canReturnPrimitive, done + [entry])
  }

  function ConditionValues(ps: PropertyStorage, values: seq<Value>, canReturnPrimitive: bool): Result<seq<Entry>, DynamoError> {
    ConvertValuesFrom(ps, values, canReturnPrimitive, [])
  }

  /** The values convert one to one, in order, and conversion succeeds iff
      every value converts to a non-null entry. */
  lemma {:induction false} ConvertValuesFromSpec(ps: PropertyStorage, values: seq<Value>, canReturnPrimitive: bool, done: seq<Entry>)
    ensures var r := ConvertValuesFrom(ps, values, canReturnPrimitive, done);
      (r.Success? <==> forall i | 0 <= i < |values| :: ToEntry(ps, values[i], canReturnPrimitive).Success? && !values[i].VNull?) &&
      (r.Success? ==>
        |r.value| == |done| + |values| && r.value[..|done|] == done &&
        forall i | 0 <= i < |values| :: ToEntry(ps, values[i], canReturnPrimitive) == Success(r.value[|done| + i]))
    decreases |values|
  {
    if |values| > 0 {
      var rest := values[1..];
      assert forall i | 1 <= i < |values| :: values[i] == rest[i - 1];
      var e := ToEntry(ps, values[0], canReturnPrimitive);
      if e.Success? && !e.value.Null? {
        ConvertValuesFromSpec(ps, rest, canReturnPrimitive, done + [e.value]);
        var r := ConvertValuesFrom(ps, values, canReturnPrimitive, done);
        if r.Success? {
          assert r.value[..|done| + 1][..|done|] == r.value[..|done|];
          forall i | 0 <= i < |values|
            ensures ToEntry(ps, values[i], canReturnPrimitive) == Success(r.value[|done| + i])
          {
            if i > 0 {
              assert values[i] == rest[i - 1];
              assert |done + [e.value]| + (i - 1) == |done| + i;
            }
          }
        }
      }
    }
  }

  lemma ConditionValuesSpec(ps: PropertyStorage, values: seq<Value>, canReturnPrimitive: bool)
    ensures var r := ConditionValues(ps, values, canReturnPrimitive);
      (r.Success? <==> forall i | 0 <= i < |values| :: ToEntry(ps, values[i], canReturnPrimitive).Success? && !values[i].VNull?) &&
      (r.Success? ==>
        |r.value| == |values| &&
        forall i | 0 <= i < |values| :: ToEntry(ps, values[i], canReturnPrimitive) == Success(r.value[i]))
  {
    ConvertValuesFromSpec(ps, values, canReturnPrimitive, []);
  }

  /** ConvertConditionValues(conditionValues, conditionProperty, canReturnPrimitiveInsteadOfList). */
  method ConvertConditionValues(values: Option<seq<Value>>, ps: PropertyStorage, canReturnPrimitive: bool)
    returns (r: Result<seq<Entry>, DynamoError>)
    ensures values.None? ==> r == Failure(NullReference)
    ensures values.Some? ==> r == ConditionValues(ps, values.value, canReturnPrimitive)
  {
    if values.None? {
      return Failure(NullReference);
    }
    var vs := values.value;
    var attributeValues: seq<Entry> := [];
    var i := 0;
    assert vs[0..] == vs;
    while i < |vs|
      invariant 0 <= i <= |vs|
      invariant ConditionValues(ps, vs, canReturnPrimitive)
             == ConvertValuesFrom(ps, vs[i..], canReturnPrimitive, attributeValues)
    {
      assert vs[i..][1..] == vs[i + 1..];
      var entry := ToDynamoDBEntry(ps, vs[i], canReturnPrimitive);
      if entry.Failure? {
        return Failure(entry.error);
      }
      if entry.value.Null? {
        return Failure(NullReference);
      }
      attributeValues := attributeValues + [entry.value];
      i := i + 1;
    }
    return Success(attributeValues);
  }

  /** The candidate index names one key condition's property contributes. */
  function IndexCandidates(cp: PropertyStorage): seq<string> {
    (if cp.isLSIRangeKey || cp.isGSIKey then cp.indexNames else []) + (if cp.isRangeKey then [NoIndex] else [])
  }

  /** The loop over a list of conditions, from some condition on with the
      filter conditions and (when `collectIndexes`) candidate index names
      gathered so far. */
  function AddConditionsFrom(config: ItemStorageConfig, conds: seq<Condition>, canReturnPrimitive: bool, collectIndexes: bool,
                             filter: seq<FilterCondition>, names: seq<string>)
    : Result<(seq<FilterCondition>, seq<string>), DynamoError>
    decreases |conds|
  {
    if |conds| == 0 then Success((filter, names))
    else
      var c := conds[0];
      match PropertyNamed(config, c.propertyName)
      case Failure(e) => Failure(e)
      case Success(cp) =>
        var names' := if collectIndexes then names + IndexCandidates(cp) else names;
        var converted: Result<seq<Entry>, DynamoError> :=
          if c.values.None? then Failure(NullReference) else ConditionValues(cp, c.values.value, canReturnPrimitive);
        match converted
        case Failure(e) => Failure(e)
        case Success(vs) =>
          AddConditionsFrom(config, conds[1..], canReturnPrimitive, collectIndexes,
                            filter + [FilterCondition(cp.attributeName, c.op, vs)], names')
  }

  function AddConditions(config: ItemStorageConfig, conds: seq<Condition>, canReturnPrimitive: bool, collectIndexes: bool)
    : Result<(seq<FilterCondition>, seq<string>), DynamoError>
  {
    AddConditionsFrom(config, conds, canReturnPrimitive, collectIndexes, [], [])
  }

  /** The query filter ComposeQueryFilterHelper builds, with the candidate
      index names. `hashKeyProperty` is the hash-key property the flat config
      selects (GetCorrectHashKeyProperty). */
  function QueryFilterOf(currentConfig: FlatConfig, hashKey: Option<Document>, conditions: Option<seq<Condition>>,
                         config: ItemStorageConfig, hashKeyProperty: string)
    : Result<(seq<FilterCondition>, seq<string>), DynamoError>
  {
    if hashKey.None? then Failure(ArgumentNull("hashKey"))
    else if |config.hashKeyPropertyNames| != 1 then Failure(InvalidOperation(NoSingleHashKey))
    else if |config.rangeKeyPropertyNames| != 1 && |config.gsiIndexNames| == 0 then Failure(InvalidOperation(NoRangeKeyOrGsi))
    else
      match GetPropertyStorage(config, hashKeyProperty)
      case Failure(e) => Failure(e)
      case Success(hp) =>
        if hp.attributeName !in hashKey.value then Failure(KeyNotFound(hp.attributeName))
        else
          var hashCondition := FilterCondition(hp.attributeName, Equal, [hashKey.value[hp.attributeName]]);
          var keyPart: Result<(seq<FilterCondition>, seq<string>), DynamoError> :=
            if conditions.None? then Success(([], [])) else AddConditions(config, conditions.value, false, true);
          match keyPart
          case Failure(e) => Failure(e)
          case Success((keyFilter, indexNames)) =>
            var filterPart: Result<(seq<FilterCondition>, seq<string>), DynamoError> :=
              if currentConfig.queryFilter.None? then Success(([], []))
              else AddConditions(config, currentConfig.queryFilter.value, true, false);
            match filterPart
            case Failure(e) => Failure(e)
            case Success((extra, _)) => Success(([hashCondition] + keyFilter + extra, indexNames))
  }

  /** One of the two condition loops of ComposeQueryFilterHelper. */
  method AddConditionsLoop(config: ItemStorageConfig, conds: seq<Condition>, canReturnPrimitive: bool, collectIndexes: bool)
    returns (r: Result<(seq<FilterCondition>, seq<string>), DynamoError>)
    ensures r == AddConditions(config, conds, canReturnPrimitive, collectIndexes)
  {
    var filter: seq<FilterCondition> := [];
    var indexNames: seq<string> := [];
    var i := 0;
    assert conds[0..] == conds;
    while i < |conds|
      invariant 0 <= i <= |conds|
      invariant AddConditions(config, conds, canReturnPrimitive, collectIndexes)
             == AddConditionsFrom(config, conds[i..], canReturnPrimitive, collectIndexes, filter, indexNames)
    {
      assert conds[i..][1..] == conds[i + 1..];
      var c := conds[i];
      var cp := PropertyNamed(config, c.propertyName);
      if cp.Failure? {
        return Failure(cp.error);
      }
      if collectIndexes {
        indexNames := indexNames + IndexCandidates(cp.value);
      }
      var values := ConvertConditionValues(c.values, cp.value, canReturnPrimitive);
      if values.Failure? {
        return Failure(values.error);
      }
      filter := filter + [FilterCondition(cp.value.attributeName, c.op, values.value)];
      i := i + 1;
    }
    return Success((filter, indexNames));
  }

  /** ComposeQueryFilterHelper: returns the filter and the candidate index names. */
  method ComposeQueryFilterHelper(currentConfig: FlatConfig, hashKey: Option<Document>, conditions: Option<seq<Condition>>,
                                  config: ItemStorageConfig, hashKeyProperty: string)
    returns (r: Result<(seq<FilterCondition>, seq<string>), DynamoError>)
    ensures r == QueryFilterOf(currentConfig, hashKey, conditions, config, hashKeyProperty)
  {
    if hashKey.None? {
      return Failure(ArgumentNull("hashKey"));
    }
    if |config.hashKeyPropertyNames| != 1 {
      return Failure(InvalidOperation(NoSingleHashKey));
    }
    if |config.rangeKeyPropertyNames| != 1 && |config.gsiIndexNames| == 0 {
      return Failure(InvalidOperation(NoRangeKeyOrGsi));
    }
    var hp := GetPropertyStorage(config, hashKeyProperty);
    if hp.Failure? {
      return Failure(hp.error);
    }
    var attributeName := hp.value.attributeName;
    if attributeName !in hashKey.value {
      return Failure(KeyNotFound(attributeName));
    }
    var hashCondition := FilterCondition(attributeName, Equal, [hashKey.value[attributeName]]);
    var keyPart: Result<(seq<FilterCondition>, seq<string>), DynamoError> := Success(([], []));
    if conditions.Some? {
      keyPart := AddConditionsLoop(config, conditions.value, false, true);
      if keyPart.Failure? {
        return Failure(keyPart.error);
      }
    }
    var filterPart: Result<(seq<FilterCondition>, seq<string>), DynamoError> := Success(([], []));
    if currentConfig.queryFilter.Some? {
      filterPart := AddConditionsLoop(config, currentConfig.queryFilter.value, true, false);
      if filterPart.Failure? {
        return Failure(filterPart.error);
      }
    }
    return Success(([hashCondition] + keyPart.value.0 + filterPart.value.0, keyPart.value.1));
  }

  /** Each condition gives one filter condition on its property's attribute,
      with its operator and its converted values, in order. */
  lemma {:induction false} AddConditionsFromShape(config: ItemStorageConfig, conds: seq<Condition>, canReturnPrimitive: bool,
                                                  collectIndexes: bool, filter: seq<FilterCondition>, names: seq<string>)
    ensures var r := AddConditionsFrom(config, conds, canReturnPrimitive, collectIndexes, filter, names);
      r.Success? ==>
        |r.value.0| == |filter| + |conds| && r.value.0[..|filter|] == filter &&
        forall i | 0 <= i < |conds| :: ConditionGives(config, conds[i], canReturnPrimitive, r.value.0[|filter| + i])
    decreases |conds|
  {
    var r := AddConditionsFrom(config, conds, canReturnPrimitive, collectIndexes, filter, names);
    if |conds| > 0 && r.Success? {
      var c := conds[0];
      var cp := PropertyNamed(config, c.propertyName).value;
      var vs := ConditionValues(cp, c.values.value, canReturnPrimitive).value;
      var fc := FilterCondition(cp.attributeName, c.op, vs);
      var names' := if collectIndexes then names + IndexCandidates(cp) else names;
      AddConditionsFromShape(config, conds[1..], canReturnPrimitive, collectIndexes, filter + [fc], names');
      assert r.value.0[..|filter| + 1][..|filter|] == r.value.0[..|filter|];
      forall i | 0 <= i < |conds|
        ensures ConditionGives(config, conds[i], canReturnPrimitive, r.value.0[|filter| + i])
      {
        if i > 0 {
          assert conds[i] == conds[1..][i - 1];
          assert |filter + [fc]| + (i - 1) == |filter| + i;
        }
      }
    }
  }

  /** Condition `c` gives filter condition `fc`. */
  predicate ConditionGives(config: ItemStorageConfig, c: Condition, canReturnPrimitive: bool, fc: FilterCondition) {
    var cp := PropertyNamed(config, c.propertyName);
    cp.Success? && c.values.Some? &&
    ConditionValues(cp.value, c.values.value, canReturnPrimitive).Success? &&
    fc == FilterCondition(cp.value.attributeName, c.op, ConditionValues(cp.value, c.values.value, canReturnPrimitive).value)
  }

  lemma AddConditionsShape(config: ItemStorageConfig, conds: seq<Condition>, canReturnPrimitive: bool, collectIndexes: bool)
    ensures var r := AddConditions(config, conds, canReturnPrimitive, collectIndexes);
      r.Success? ==>
        |r.value.0| == |conds| &&
        forall i | 0 <= i < |conds| :: ConditionGives(config, conds[i], canReturnPrimitive, r.value.0[i])
  {
    var r := AddConditionsFrom(config, conds, canReturnPrimitive, collectIndexes, [], []);
    assert r == AddConditions(config, conds, canReturnPrimitive, collectIndexes);
    AddConditionsFromShape(config, conds, canReturnPrimitive, collectIndexes, [], []);
    if r.Success? {
      forall i | 0 <= i < |conds|
        ensures ConditionGives(config, conds[i], canReturnPrimitive, r.value.0[i])
      {
        var none: seq<FilterCondition> := [];
        assert |none| + i == i;
      }
    }
  }

  /** A key condition's property offers index name `n`. */
  predicate Offers(config: ItemStorageConfig, c: Condition, n: string) {
    PropertyNamed(config, c.propertyName).Success? &&
    n in IndexCandidates(PropertyNamed(config, c.propertyName).value)
  }

  lemma {:induction false} IndexCandidatesFromOrigin(config: ItemStorageConfig, conds: seq<Condition>, canReturnPrimitive: bool,
                                                     filter: seq<FilterCondition>, names: seq<string>)
    ensures var r := AddConditionsFrom(config, conds, canReturnPrimitive, true, filter, names);
      r.Success? ==>
        forall n :: n in r.value.1 <==> n in names || exists i | 0 <= i < |conds| :: Offers(config, conds[i], n)
    decreases |conds|
  {
    var r := AddConditionsFrom(config, conds, canReturnPrimitive, true, filter, names);
    if |conds| > 0 && r.Success? {
      var c := conds[0];
      var cp := PropertyNamed(config, c.propertyName).value;
      var vs := ConditionValues(cp, c.values.value, canReturnPrimitive).value;
      var names' := names + IndexCandidates(cp);
      IndexCandidatesFromOrigin(config, conds[1..], canReturnPrimitive, filter + [FilterCondition(cp.attributeName, c.op, vs)], names');
      forall n
        ensures n in r.value.1 <==> n in names || exists i | 0 <= i < |conds| :: Offers(config, conds[i], n)
      {
        if n in r.value.1 && n !in names' {
          var j :| 0 <= j < |conds[1..]| && Offers(config, conds[1..][j], n);
          assert Offers(config, conds[j + 1], n);
        }
        if n in names' && n !in names {
          assert Offers(config, conds[0], n);
        }
        if exists i | 0 <= i < |conds| :: Offers(config, conds[i], n) {
          var i :| 0 <= i < |conds| && Offers(config, conds[i], n);
          if i > 0 {
            assert Offers(config, conds[1..][i - 1], n);
          }
        }
      }
    }
  }

  /** A name is a candidate index iff some key condition's property offers
      it: NO_INDEX for a range key, the listed indexes for an LSI range key or
      a GSI key. */
  lemma IndexCandidatesOrigin(config: ItemStorageConfig, conds: seq<Condition>, canReturnPrimitive: bool)
    ensures var r := AddConditions(config, conds, canReturnPrimitive, true);
      r.Success? ==>
        forall n :: n in r.value.1 <==> exists i | 0 <= i < |conds| :: Offers(config, conds[i], n)
  {
    IndexCandidatesFromOrigin(config, conds, canReturnPrimitive, [], []);
  }

  /** A successful filter starts with the hash-key equality on the hash
      attribute's entry, then the key conditions, then the query filter. */
  lemma QueryFilterShape(currentConfig: FlatConfig, hashKey: Option<Document>, conditions: Option<seq<Condition>>,
                         config: ItemStorageConfig, hashKeyProperty: string)
    ensures var r := QueryFilterOf(currentConfig, hashKey, conditions, config, hashKeyProperty);
      r.Success? ==>
        var hp := GetPropertyStorage(config, hashKeyProperty).value;
        var nConds := if conditions.None? then 0 else |conditions.value|;
        var nExtra := if currentConfig.queryFilter.None? then 0 else |currentConfig.queryFilter.value|;
        |config.hashKeyPropertyNames| == 1 &&
        |r.value.0| == 1 + nConds + nExtra &&
        r.value.0[0] == FilterCondition(hp.attributeName, Equal, [hashKey.value[hp.attributeName]]) &&
        (conditions.None? ==> r.value.1 == [])
  {
    if conditions.Some? {
      AddConditionsShape(config, conditions.value, false, true);
    }
    if currentConfig.queryFilter.Some? {
      AddConditionsShape(config, currentConfig.queryFilter.value, true, false);
    }
  }

  /**
   * The QueryFilter a sequence of AddCondition calls leaves: one condition
   * per attribute name, a later call replacing an earlier one on the same
   * attribute.
   */
  function FilterState(calls: seq<FilterCondition>): (m: map<string, FilterCondition>)
    ensures forall a | a in m :: m[a].attributeName == a
    decreases |calls|
  {
    if |calls| == 0 then map[]
    else FilterState(calls[..|calls| - 1])[calls[|calls| - 1].attributeName := calls[|calls| - 1]]
  }

  /** An attribute is in the filter iff some call names it, and it then holds the last such call's condition. */
  lemma {:induction false} FilterStateLastWins(calls: seq<FilterCondition>, a: string)
    ensures a in FilterState(calls) <==> exists i | 0 <= i < |calls| :: calls[i].attributeName == a
    ensures a in FilterState(calls) ==>
              exists i | 0 <= i < |calls| :: calls[i] == FilterState(calls)[a]
                                             && forall j | i < j < |calls| :: calls[j].attributeName != a
    decreases |calls|
  {
    if |calls| > 0 {
      var n := |calls| - 1;
      var init := calls[..n];
      FilterStateLastWins(init, a);
      if calls[n].attributeName == a {
        assert calls[n] == FilterState(calls)[a];
      } else {
        forall i | 0 <= i < |calls| && calls[i].attributeName == a
          ensures exists k | 0 <= k < |init| :: init[k].attributeName == a
        {
          assert init[i] == calls[i];
        }
        if a in FilterState(calls) {
          var i :| 0 <= i < |init| && init[i] == FilterState(init)[a]
                   && forall j | i < j < |init| :: init[j].attributeName != a;
          assert calls[i] == init[i];
          forall j | i < j < |calls|
            ensures calls[j].attributeName != a
          {
            if j < n {
              assert calls[j] == init[j];
            }
          }
        }
      }
    }
  }

  /**
   * The QueryFilter ComposeQueryFilterHelper returns holds the hash
   * attribute, with the hash-key equality unless a later key or query-filter
   * condition names the same attribute; every other attribute holds the
   * last condition naming it.
   */
  lemma QueryFilterHashAttribute(currentConfig: FlatConfig, hashKey: Option<Document>, conditions: Option<seq<Condition>>,
                                 config: ItemStorageConfig, hashKeyProperty: string)
    ensures var r := QueryFilterOf(currentConfig, hashKey, conditions, config, hashKeyProperty);
      r.Success? ==>
        var hp := GetPropertyStorage(config, hashKeyProperty).value;
        var calls := r.value.0;
        var m := FilterState(calls);
        && hp.attributeName in m
        && ((forall i | 1 <= i < |calls| :: calls[i].attributeName != hp.attributeName) ==>
              m[hp.attributeName] == FilterCondition(hp.attributeName, Equal, [hashKey.value[hp.attributeName]]))
  {
    var r := QueryFilterOf(currentConfig, hashKey, conditions, config, hashKeyProperty);
    if r.Success? {
      var hp := GetPropertyStorage(config, hashKeyProperty).value;
      var calls := r.value.0;
      QueryFilterShape(currentConfig, hashKey, conditions, config, hashKeyProperty);
      FilterStateLastWins(calls, hp.attributeName);
      assert calls[0].attributeName == hp.attributeName;
    }
  }

  predicate NoDuplicates(s: seq<string>) {
    forall i, j | 0 <= i < j < |s| :: s[i] != s[j]
  }

  /** indexNames.Distinct(): each candidate name once. */
  function Distinct(s: seq<string>): (r: seq<string>)
    ensures forall x :: x in r <==> x in s
    ensures NoDuplicates(r)
    ensures |r| <= |s|
  {
    if |s| == 0 then []
    else
      var r := Distinct(s[..|s| - 1]);
      assert forall x :: x in s <==> x in s[..|s| - 1] || x == s[|s| - 1];
      if s[|s| - 1] in r then r else r + [s[|s| - 1]]
  }

  /** All candidates are one name exactly when de-duplication leaves one. */
  lemma DistinctSingle(s: seq<string>)
    ensures |Distinct(s)| == 1 <==> s != [] && forall i | 0 <= i < |s| :: s[i] == s[0]
  {
    var d := Distinct(s);
    if s != [] && forall i | 0 <= i < |s| :: s[i] == s[0] {
      assert s[0] in d;
      assert forall x | x in d :: x == s[0];
    }
    if |d| == 1 {
      forall i | 0 <= i < |s|
        ensures s[i] == s[0]
      {
        assert s[i] in d && s[0] in d;
      }
      assert d[0] in s;
    }
  }

  /** GetQueryIndexName: the index the query runs against, None for the table. */
  function GetQueryIndexName(flatConfig: FlatConfig, indexNames: seq<string>): Result<Option<string>, DynamoError> {
    var specified := flatConfig.indexName;
    var names := Distinct(indexNames);
    var inferred: Result<Option<string>, DynamoError> :=
      if NullOrEmpty(specified) && |names| == 1 then Success(Some(names[0]))
      else if specified.Some? && specified.value in names then Success(specified)
      else if |names| > 0 then Failure(InvalidOperation(NoIndexInferred))
      else Success(None);
    match inferred
    case Failure(e) => Failure(e)
    case Success(inf) =>
      if !NullOrEmpty(specified) && !NullOrEmpty(inf) then
        if inf.value == specified.value then Success(inf) else Failure(InvalidOperation(IndexNameMismatch))
      else if !NullOrEmpty(inf) then Success(inf)
      else if !NullOrEmpty(specified) then Success(specified)
      else Success(None)
  }

  /** With no index specified and one distinct candidate, that candidate is
      used (the table itself when it is NO_INDEX). */
  lemma IndexInferredFromSingleCandidate(flatConfig: FlatConfig, indexNames: seq<string>)
    requires NullOrEmpty(flatConfig.indexName)
    requires indexNames != [] && forall i | 0 <= i < |indexNames| :: indexNames[i] == indexNames[0]
    ensures GetQueryIndexName(flatConfig, indexNames)
         == Success(if indexNames[0] == NoIndex then None else Some(indexNames[0]))
  {
    DistinctSingle(indexNames);
    assert Distinct(indexNames)[0] in indexNames;
  }

  /** A specified index among the candidates is used. */
  lemma SpecifiedCandidateUsed(flatConfig: FlatConfig, indexNames: seq<string>)
    requires !NullOrEmpty(flatConfig.indexName) && flatConfig.indexName.value in indexNames
    ensures GetQueryIndexName(flatConfig, indexNames) == Success(flatConfig.indexName)
  {
  }

  /** Candidates that neither single out an index nor contain the specified
      one are an error. */
  lemma NoIndexInferredFails(flatConfig: FlatConfig, indexNames: seq<string>)
    requires indexNames != []
    requires !(NullOrEmpty(flatConfig.indexName) && forall i | 0 <= i < |indexNames| :: indexNames[i] == indexNames[0])
    requires !(flatConfig.indexName.Some? && flatConfig.indexName.value in indexNames)
    ensures GetQueryIndexName(flatConfig, indexNames) == Failure(InvalidOperation(NoIndexInferred))
  {
    DistinctSingle(indexNames);
    assert indexNames[0] in Distinct(indexNames);
  }

  /** Without candidates the specified index (if any) is used. */
  lemma NoCandidatesUsesSpecified(flatConfig: FlatConfig)
    ensures GetQueryIndexName(flatConfig, [])
         == Success(if NullOrEmpty(flatConfig.indexName) then None else flatConfig.indexName)
  {
  }

  /** The specified-versus-inferred mismatch is never reported, and a chosen
      index is non-empty and either specified or a candidate. */
  lemma IndexNameNeverMismatches(flatConfig: FlatConfig, indexNames: seq<string>)
    ensures GetQueryIndexName(flatConfig, indexNames) != Failure(InvalidOperation(IndexNameMismatch))
    ensures var r := GetQueryIndexName(flatConfig, indexNames);
      r.Success? && r.value.Some? ==>
        r.value.value != "" && (r.value == flatConfig.indexName || r.value.value in indexNames)
  {
    var names := Distinct(indexNames);
    if NullOrEmpty(flatConfig.indexName) && |names| == 1 {
      assert names[0] in indexNames;
    }
  }

  /** CreateQueryConditions: one condition on the range key (of the
      specified index, or the table's first), with the operator and values. */
  function CreateQueryConditions(flatConfig: FlatConfig, op: ComparisonOperator, values: Option<seq<Value>>,
                                 config: ItemStorageConfig): (r: Result<seq<Condition>, DynamoError>)
    ensures r.Success? ==> |r.value| == 1 && r.value[0].op == op && r.value[0].values == values
    ensures r.Success? && NullOrEmpty(flatConfig.indexName) ==>
      r.value[0].propertyName == (if config.rangeKeyPropertyNames == [] then None else Some(config.rangeKeyPropertyNames[0]))
    ensures r.Success? && !NullOrEmpty(flatConfig.indexName) ==>
      flatConfig.indexName.value in config.rangeKeyByIndex &&
      r.value[0].propertyName == Some(config.rangeKeyByIndex[flatConfig.indexName.value])
    ensures r.Failure? <==>
      values.None? || (!NullOrEmpty(flatConfig.indexName) && flatConfig.indexName.value !in config.rangeKeyByIndex)
  {
    var rangeKeyPropertyName: Result<Option<string>, DynamoError> :=
      if NullOrEmpty(flatConfig.indexName) then
        Success(if |config.rangeKeyPropertyNames| == 0 then None else Some(config.rangeKeyPropertyNames[0]))
      else if flatConfig.indexName.value in config.rangeKeyByIndex then
        Success(Some(config.rangeKeyByIndex[flatConfig.indexName.value]))
      else Failure(InvalidOperation(UnknownIndex(flatConfig.indexName.value)));
    match rangeKeyPropertyName
    case Failure(e) => Failure(e)
    case Success(name) =>
      if values.None? then Failure(ArgumentNull("source"))
      else Success([Condition(name, op, values)])
  }
}
