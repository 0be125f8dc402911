/** Primary keys: building the key of an item from hash and range values, and
    checking that a key carries every key attribute of a type. */
module DynamoKeys {
  import opened Wrappers
  import opened DynamoModel
  import opened DynamoConversion

  /** A Key: attribute name to (the attribute value of) an entry. */
  type Key = map<string, Entry>

  /** The key attribute of every named property is present. */
  predicate HasKeyAttributes(key: Key, config: ItemStorageConfig, names: seq<string>) {
    forall i | 0 <= i < |names| ::
      GetPropertyStorage(config, names[i]).Success? && GetPropertyStorage(config, names[i]).value.attributeName in key
  }

  /** ValidateKey's loop over one list of key property names, from some name
      on: the first name whose attribute is missing fails. */
  function MissingKeyFrom(key: Key, config: ItemStorageConfig, names: seq<string>, isHash: bool): Outcome<DynamoError>
    decreases |names|
  {
    if |names| == 0 then Pass
    else
      match GetPropertyStorage(config, names[0])
      case Failure(e) => Fail(e)
      case Success(ps) =>
        if ps.attributeName !in key then
          Fail(InvalidOperation(if isHash then KeyMissingHashKey(names[0]) else KeyMissingRangeKey(names[0])))
        else MissingKeyFrom(key, config, names[1..], isHash)
  }

  /** What ValidateKey decides. */
  function KeyCheck(key: Option<Key>, config: Option<ItemStorageConfig>): Outcome<DynamoError> {
    if key.None? then Fail(ArgumentNull("key"))
    else if config.None? then Fail(ArgumentNull("storageConfig"))
    else if |key.value| == 0 then Fail(InvalidOperation(KeyEmpty))
    else
      match MissingKeyFrom(key.value, config.value, config.value.hashKeyPropertyNames, true)
      case Fail(e) => Fail(e)
      case Pass => MissingKeyFrom(key.value, config.value, config.value.rangeKeyPropertyNames, false)
  }

  lemma {:induction false} MissingKeyFromPass(key: Key, config: ItemStorageConfig, names: seq<string>, isHash: bool)
    ensures MissingKeyFrom(key, config, names, isHash) == Pass <==> HasKeyAttributes(key, config, names)
    decreases |names|
  {
    if |names| > 0 {
      MissingKeyFromPass(key, config, names[1..], isHash);
      assert forall i | 1 <= i < |names| :: names[i] == names[1..][i - 1];
      if HasKeyAttributes(key, config, names) {
        assert HasKeyAttributes(key, config, names[1..]) by {
          forall i | 0 <= i < |names[1..]|
            ensures GetPropertyStorage(config, names[1..][i]).Success?
          {
            assert names[1..][i] == names[i + 1];
          }
        }
      }
    }
  }

  /** A missing attribute is reported for a property of the list. */
  lemma {:induction false} MissingKeyFromNames(key: Key, config: ItemStorageConfig, names: seq<string>, isHash: bool)
    ensures MissingKeyFrom(key, config, names, isHash).Fail? ==>
      exists i | 0 <= i < |names| ::
        MissingKeyFrom(key, config, names, isHash).error ==
          (if GetPropertyStorage(config, names[i]).Failure? then InvalidOperation(UnknownProperty(names[i]))
           else if isHash then InvalidOperation(KeyMissingHashKey(names[i]))
           else InvalidOperation(KeyMissingRangeKey(names[i])))
    decreases |names|
  {
    if |names| > 0 && MissingKeyFrom(key, config, names, isHash).Fail? {
      var ps := GetPropertyStorage(config, names[0]);
      if ps.Success? && ps.value.attributeName in key {
        MissingKeyFromNames(key, config, names[1..], isHash);
        var j :| 0 <= j < |names[1..]| && MissingKeyFrom(key, config, names[1..], isHash).error ==
          (if GetPropertyStorage(config, names[1..][j]).Failure? then InvalidOperation(UnknownProperty(names[1..][j]))
           else if isHash then InvalidOperation(KeyMissingHashKey(names[1..][j]))
           else InvalidOperation(KeyMissingRangeKey(names[1..][j])));
        assert names[1..][j] == names[j + 1];
      }
    }
  }

  /** ValidateKey passes iff key and config are given, the key is non-empty,
      and it has the attribute of every hash and every range key property. */
  lemma KeyCheckPass(key: Option<Key>, config: Option<ItemStorageConfig>)
    ensures KeyCheck(key, config).Pass? <==>
      key.Some? && config.Some? && |key.value| > 0 &&
      HasKeyAttributes(key.value, config.value, config.value.hashKeyPropertyNames) &&
      HasKeyAttributes(key.value, config.value, config.value.rangeKeyPropertyNames)
  {
    if key.Some? && config.Some? {
      MissingKeyFromPass(key.value, config.value, config.value.hashKeyPropertyNames, true);
      MissingKeyFromPass(key.value, config.value, config.value.rangeKeyPropertyNames, false);
    }
  }

  /** ValidateKey(key, storageConfig). */
  method ValidateKey(key: Option<Key>, config: Option<ItemStorageConfig>) returns (r: Outcome<DynamoError>)
    ensures r == KeyCheck(key, config)
  {
    if key.None? {
      return Fail(ArgumentNull("key"));
    }
    if config.None? {
      return Fail(ArgumentNull("storageConfig"));
    }
    var k := key.value;
    var c := config.value;
    if |k| == 0 {
      return Fail(InvalidOperation(KeyEmpty));
    }
    var names := c.hashKeyPropertyNames;
    var i := 0;
    assert names[0..] == names;
    while i < |names|
      invariant 0 <= i <= |names|
      invariant MissingKeyFrom(k, c, names, true) == MissingKeyFrom(k, c, names[i..], true)
    {
      assert names[i..][1..] == names[i + 1..];
      var ps := GetPropertyStorage(c, names[i]);
      if ps.Failure? {
        return Fail(ps.error);
      }
      if ps.value.attributeName !in k {
        return Fail(InvalidOperation(KeyMissingHashKey(names[i])));
      }
      i := i + 1;
    }
    names := c.rangeKeyPropertyNames;
    i := 0;
    assert names[0..] == names;
    while i < |names|
      invariant 0 <= i <= |names|
      invariant MissingKeyFrom(k, c, names, false) == MissingKeyFrom(k, c, names[i..], false)
    {
      assert names[i..][1..] == names[i + 1..];
      var ps := GetPropertyStorage(c, names[i]);
      if ps.Failure? {
        return Fail(ps.error);
      }
      if ps.value.attributeName !in k {
        return Fail(InvalidOperation(KeyMissingRangeKey(names[i])));
      }
      i := i + 1;
    }
    return Pass;
  }

  /** The key MakeKey builds before validating it. */
  function KeyOf(hashKey: Value, rangeKey: Value, config: ItemStorageConfig): (r: Result<Key, DynamoError>)
    ensures |config.hashKeyPropertyNames| != 1 ==> r == Failure(InvalidOperation(NoSingleHashKey))
    ensures r.Success? ==>
      |config.hashKeyPropertyNames| == 1 && |config.rangeKeyPropertyNames| <= 1 &&
      var hp := GetPropertyStorage(config, config.hashKeyPropertyNames[0]);
      hp.Success? && hp.value.attributeName in r.value && !hashKey.VNull? &&
      ToEntry(hp.value, hashKey, false).Success? &&
      (|config.rangeKeyPropertyNames| == 0 ==>
        r.value == map[hp.value.attributeName := ToEntry(hp.value, hashKey, false).value]) &&
      (|config.rangeKeyPropertyNames| == 1 ==>
        var rp := GetPropertyStorage(config, config.rangeKeyPropertyNames[0]);
        rp.Success? && !rangeKey.VNull? && ToEntry(rp.value, rangeKey, false).Success? &&
        r.value == map[hp.value.attributeName := ToEntry(hp.value, hashKey, false).value,
                       rp.value.attributeName := ToEntry(rp.value, rangeKey, false).value])
  {
    if |config.hashKeyPropertyNames| != 1 then Failure(InvalidOperation(NoSingleHashKey))
    else
      var hashName := config.hashKeyPropertyNames[0];
      match GetPropertyStorage(config, hashName)
      case Failure(e) => Failure(e)
      case Success(hp) =>
        match ToEntry(hp, hashKey, false)
        case Failure(e) => Failure(e)
        case Success(hashEntry) =>
          if hashEntry.Null? then Failure(InvalidOperation(HashKeyNotConvertible(hashName)))
          else
            var key := map[hp.attributeName := hashEntry];
            if |config.rangeKeyPropertyNames| == 0 then Success(key)
            else if |config.rangeKeyPropertyNames| != 1 then Failure(InvalidOperation(NoSingleRangeKey))
            else
              var rangeName := config.rangeKeyPropertyNames[0];
              match GetPropertyStorage(config, rangeName)
              case Failure(e) => Failure(e)
              case Success(rp) =>
                match ToEntry(rp, rangeKey, false)
                case Failure(e) => Failure(e)
                case Success(rangeEntry) =>
                  if rangeEntry.Null? then Failure(InvalidOperation(RangeKeyNotConvertible(rangeName)))
                  else Success(key[rp.attributeName := rangeEntry])
  }

  /** A key MakeKey builds always passes ValidateKey. */
  lemma MadeKeyIsValid(hashKey: Value, rangeKey: Value, config: ItemStorageConfig)
    requires KeyOf(hashKey, rangeKey, config).Success?
    ensures KeyCheck(Some(KeyOf(hashKey, rangeKey, config).value), Some(config)) == Pass
  {
    var k := KeyOf(hashKey, rangeKey, config).value;
    KeyCheckPass(Some(k), Some(config));
  }

  /** MakeKey(hashKey, rangeKey, storageConfig).  The method keeps the
      source's steps, including its call to the looping ValidateKey method;
      KeyOf is the function it is proved against, which the lemmas use. */
  method MakeKey(hashKey: Value, rangeKey: Value, config: ItemStorageConfig) returns (r: Result<Key, DynamoError>)
    ensures r == KeyOf(hashKey, rangeKey, config)
  {
    if |config.hashKeyPropertyNames| != 1 {
      return Failure(InvalidOperation(NoSingleHashKey));
    }
    var hashName := config.hashKeyPropertyNames[0];
    var hp := GetPropertyStorage(config, hashName);
    if hp.Failure? {
      return Failure(hp.error);
    }
    var hashEntry := ToDynamoDBEntry(hp.value, hashKey, false);
    if hashEntry.Failure? {
      return Failure(hashEntry.error);
    }
    if hashEntry.value.Null? {
      return Failure(InvalidOperation(HashKeyNotConvertible(hashName)));
    }
    var key: Key := map[hp.value.attributeName := hashEntry.value];
    if |config.rangeKeyPropertyNames| > 0 {
      if |config.rangeKeyPropertyNames| != 1 {
        return Failure(InvalidOperation(NoSingleRangeKey));
      }
      var rangeName := config.rangeKeyPropertyNames[0];
      var rp := GetPropertyStorage(config, rangeName);
      if rp.Failure? {
        return Failure(rp.error);
      }
      var rangeEntry := ToDynamoDBEntry(rp.value, rangeKey, false);
      if rangeEntry.Failure? {
        return Failure(rangeEntry.error);
      }
      if rangeEntry.value.Null? {
        return Failure(InvalidOperation(RangeKeyNotConvertible(rangeName)));
      }
      key := key[rp.value.attributeName := rangeEntry.value];
    }
    MadeKeyIsValid(hashKey, rangeKey, config);
    var validation := ValidateKey(Some(key), Some(config));
    // the key holds every key attribute, so validation cannot throw here
    assert validation.Pass?;
    return Success(key);
  }
}
