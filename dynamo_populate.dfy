/** Building the document stored for an object: each configured property is
    read, converted, filtered and written under its attribute name. */
module DynamoPopulate {
  import opened Wrappers
  import opened DynamoModel
  import opened DynamoConversion

  /** The storage state when population stops; `error` is the exception that
      stopped it, if any. */
  datatype Populated = Populated(document: Document, currentVersion: Option<Primitive>, error: Option<DynamoError>)

  predicate KeyOrVersion(ps: PropertyStorage) {
    ps.isHashKey || ps.isRangeKey || ps.isVersion
  }

  /** The properties that may not be stored as a primitive list. */
  predicate KeyLike(ps: PropertyStorage) {
    KeyOrVersion(ps) || ps.isLSIRangeKey
  }

  /** Keys-only mode skips every property that is neither key nor version. */
  predicate Skipped(ps: PropertyStorage, keysOnly: bool) {
    keysOnly && !KeyOrVersion(ps)
  }

  /** `dbe as Primitive`. */
  function AsPrimitive(entry: Entry): Option<Primitive> {
    if entry.Prim? then Some(entry.primitive) else None
  }

  /** One pass of the foreach over the configured properties. The object is
      its members' values by property name; a missing name is a member whose
      value cannot be retrieved. */
  function PopulateStep(ps: PropertyStorage, obj: map<string, Value>, ignoreNullValues: bool,
                        document: Document, currentVersion: Option<Primitive>): Populated
  {
    if ps.propertyName !in obj then
      Populated(document, currentVersion, Some(InvalidOperation(ValueNotRetrievable(ps.propertyName))))
    else
      match ToEntry(ps, obj[ps.propertyName], false)
      case Failure(e) => Populated(document, currentVersion, Some(e))
      case Success(dbe) =>
        match ShouldSave(dbe, ignoreNullValues)
        case Failure(e) => Populated(document, currentVersion, Some(e))
        case Success(false) => Populated(document, currentVersion, None)
        case Success(true) =>
          if KeyLike(ps) && dbe.PrimList? then
            Populated(document, currentVersion, Some(InvalidOperation(KeyPropertyIsList(ps.propertyName))))
          else
            Populated(document[ps.attributeName := dbe],
                      if ps.isVersion then AsPrimitive(dbe) else currentVersion, None)
  }

  /** PopulateItemStorage over the remaining properties. */
  function PopulateFrom(props: seq<PropertyStorage>, obj: map<string, Value>, keysOnly: bool, ignoreNullValues: bool,
                        document: Document, currentVersion: Option<Primitive>): Populated
    decreases |props|
  {
    if |props| == 0 then Populated(document, currentVersion, None)
    else if Skipped(props[0], keysOnly) then
      PopulateFrom(props[1..], obj, keysOnly, ignoreNullValues, document, currentVersion)
    else
      var s := PopulateStep(props[0], obj, ignoreNullValues, document, currentVersion);
      if s.error.Some? then s
      else PopulateFrom(props[1..], obj, keysOnly, ignoreNullValues, s.document, s.currentVersion)
  }

  /** PopulateItemStorage(toStore, keysOnly, ignoreNullValues, storage). */
  method PopulateItemStorage(obj: map<string, Value>, keysOnly: bool, ignoreNullValues: bool, storage: ItemStorage)
    returns (failure: Option<DynamoError>)
    modifies storage
    ensures var r := PopulateFrom(storage.config.allPropertyStorage, obj, keysOnly, ignoreNullValues,
                                  old(storage.document), old(storage.currentVersion));
      storage.document == r.document && storage.currentVersion == r.currentVersion && failure == r.error
  {
    var props := storage.config.allPropertyStorage;
    var i := 0;
    while i < |props|
      invariant 0 <= i <= |props|
      invariant PopulateFrom(props, obj, keysOnly, ignoreNullValues, old(storage.document), old(storage.currentVersion))
             == PopulateFrom(props[i..], obj, keysOnly, ignoreNullValues, storage.document, storage.currentVersion)
    {
      var ps := props[i];
      assert props[i..][1..] == props[i + 1..];
      if keysOnly && !ps.isHashKey && !ps.isRangeKey && !ps.isVersion {
        i := i + 1;
        continue;
      }
      if ps.propertyName !in obj {
        return Some(InvalidOperation(ValueNotRetrievable(ps.propertyName)));
      }
      var dbe := ToDynamoDBEntry(ps, obj[ps.propertyName], false);
      if dbe.Failure? {
        return Some(dbe.error);
      }
      var entry := dbe.value;
      var save := ShouldSave(entry, ignoreNullValues);
      // a converted entry is never of an unrecognized kind
      assert save.Success?;
      if save.value {
        if KeyLike(ps) && entry.PrimList? {
          return Some(InvalidOperation(KeyPropertyIsList(ps.propertyName)));
        }
        storage.document := storage.document[ps.attributeName := entry];
        if ps.isVersion {
          storage.currentVersion := AsPrimitive(entry);
        }
      }
      i := i + 1;
    }
    return None;
  }

  /** ObjectToItemStorage: a fresh storage populated from the object. */
  method ObjectToItemStorage(obj: map<string, Value>, keysOnly: bool, ignoreNullValues: bool, config: ItemStorageConfig)
    returns (storage: ItemStorage, failure: Option<DynamoError>)
    ensures fresh(storage) && storage.config == config
    ensures var r := PopulateFrom(config.allPropertyStorage, obj, keysOnly, ignoreNullValues, map[], None);
      storage.document == r.document && storage.currentVersion == r.currentVersion && failure == r.error
  {
    storage := new ItemStorage(config);
    failure := PopulateItemStorage(obj, keysOnly, ignoreNullValues, storage);
  }

  /** A property writes entry `e`: it is not skipped, its value converts to
      `e`, `e` passes ShouldSave, and `e` is no list if the property is key-like. */
  predicate WrittenBy(p: PropertyStorage, obj: map<string, Value>, keysOnly: bool, ignoreNullValues: bool, e: Entry) {
    !Skipped(p, keysOnly) && p.propertyName in obj &&
    ToEntry(p, obj[p.propertyName], false) == Success(e) &&
    ShouldSave(e, ignoreNullValues) == Success(true) &&
    !(KeyLike(p) && e.PrimList?)
  }

  /** An attribute whose entry differs from (or is missing in) the initial document. */
  predicate Changed(before: Document, after: Document, a: string)
    requires a in after
  {
    !(a in before && after[a] == before[a])
  }

  /** A step that raises nothing either leaves the state alone or stores one
      entry the property writes, updating the version for a version property. */
  lemma StepOutcome(ps: PropertyStorage, obj: map<string, Value>, keysOnly: bool, ignoreNullValues: bool,
                    document: Document, currentVersion: Option<Primitive>)
    returns (written: bool, e: Entry)
    requires !Skipped(ps, keysOnly)
    ensures var s := PopulateStep(ps, obj, ignoreNullValues, document, currentVersion);
      s.error.Some? ==> s.document == document
    ensures var s := PopulateStep(ps, obj, ignoreNullValues, document, currentVersion);
      s.error.None? ==>
        if written then
          WrittenBy(ps, obj, keysOnly, ignoreNullValues, e) && s.document == document[ps.attributeName := e] &&
          s.currentVersion == (if ps.isVersion then AsPrimitive(e) else currentVersion)
        else s.document == document && s.currentVersion == currentVersion
  {
    written, e := false, Null;
    if ps.propertyName in obj {
      var t := ToEntry(ps, obj[ps.propertyName], false);
      if t.Success? && ShouldSave(t.value, ignoreNullValues) == Success(true) {
        written, e := true, t.value;
      }
    }
  }

  /** Every attribute population adds or changes was written by one of the
      properties, from that property's own value, and no attribute is removed. */
  lemma {:induction false} PopulateProvenance(props: seq<PropertyStorage>, obj: map<string, Value>, keysOnly: bool,
                                              ignoreNullValues: bool, document: Document, currentVersion: Option<Primitive>)
    ensures var r := PopulateFrom(props, obj, keysOnly, ignoreNullValues, document, currentVersion);
      document.Keys <= r.document.Keys &&
      forall a | a in r.document && Changed(document, r.document, a) ::
        exists p | p in props :: p.attributeName == a && WrittenBy(p, obj, keysOnly, ignoreNullValues, r.document[a])
    decreases |props|
  {
    if |props| == 0 {
      return;
    }
    var r := PopulateFrom(props, obj, keysOnly, ignoreNullValues, document, currentVersion);
    var ps := props[0];
    var rest := props[1..];
    if Skipped(ps, keysOnly) {
      PopulateProvenance(rest, obj, keysOnly, ignoreNullValues, document, currentVersion);
      assert forall p | p in rest :: p in props;
      return;
    }
    var s := PopulateStep(ps, obj, ignoreNullValues, document, currentVersion);
    var written, e := StepOutcome(ps, obj, keysOnly, ignoreNullValues, document, currentVersion);
    if s.error.Some? {
      return;
    }
    PopulateProvenance(rest, obj, keysOnly, ignoreNullValues, s.document, s.currentVersion);
    assert forall p | p in rest :: p in props;
    forall a | a in r.document && Changed(document, r.document, a)
      ensures exists p | p in props :: p.attributeName == a && WrittenBy(p, obj, keysOnly, ignoreNullValues, r.document[a])
    {
      if a in s.document && !Changed(s.document, r.document, a) {
        // unchanged by the rest, so written by this step
        assert written && a == ps.attributeName;
        assert r.document[a] == e;
      }
    }
  }

  /** In keys-only mode only hash, range and version properties are written. */
  lemma KeysOnlyWritesOnlyKeys(props: seq<PropertyStorage>, obj: map<string, Value>, ignoreNullValues: bool,
                               document: Document, currentVersion: Option<Primitive>)
    ensures var r := PopulateFrom(props, obj, true, ignoreNullValues, document, currentVersion);
      forall a | a in r.document && Changed(document, r.document, a) ::
        exists p | p in props :: p.attributeName == a && KeyOrVersion(p)
  {
    PopulateProvenance(props, obj, true, ignoreNullValues, document, currentVersion);
  }

  /** Every written entry passes ShouldSave, and no key-like property writes a list. */
  lemma WrittenEntriesAreSaved(props: seq<PropertyStorage>, obj: map<string, Value>, keysOnly: bool,
                               ignoreNullValues: bool, document: Document, currentVersion: Option<Primitive>)
    ensures var r := PopulateFrom(props, obj, keysOnly, ignoreNullValues, document, currentVersion);
      forall a | a in r.document && Changed(document, r.document, a) ::
        ShouldSave(r.document[a], ignoreNullValues) == Success(true) &&
        (r.document[a].PrimList? ==> exists p | p in props :: p.attributeName == a && !KeyLike(p))
  {
    PopulateProvenance(props, obj, keysOnly, ignoreNullValues, document, currentVersion);
  }

  /** The document gets no attribute names outside the configured ones. */
  lemma WritesOnlyConfiguredAttributes(props: seq<PropertyStorage>, obj: map<string, Value>, keysOnly: bool,
                                       ignoreNullValues: bool, document: Document, currentVersion: Option<Primitive>)
    ensures var r := PopulateFrom(props, obj, keysOnly, ignoreNullValues, document, currentVersion);
      r.document.Keys <= document.Keys + (set p | p in props :: p.attributeName)
  {
    PopulateProvenance(props, obj, keysOnly, ignoreNullValues, document, currentVersion);
    var r := PopulateFrom(props, obj, keysOnly, ignoreNullValues, document, currentVersion);
    forall a | a in r.document
      ensures a in document.Keys + (set p | p in props :: p.attributeName)
    {
      if Changed(document, r.document, a) {
        var p :| p in props && p.attributeName == a && WrittenBy(p, obj, keysOnly, ignoreNullValues, r.document[a]);
      }
    }
  }

  /** The version seen matches the document: the current version is the
      primitive stored under the version attribute, or none. */
  predicate VersionTracked(document: Document, currentVersion: Option<Primitive>, versionAttribute: string) {
    currentVersion == if versionAttribute in document then AsPrimitive(document[versionAttribute]) else None
  }

  /** When exactly the properties stored under the version attribute are
      version properties, population keeps the current version in step with
      the stored version entry. */
  lemma {:induction false} PopulateTracksVersion(props: seq<PropertyStorage>, obj: map<string, Value>, keysOnly: bool,
                                                 ignoreNullValues: bool, document: Document,
                                                 currentVersion: Option<Primitive>, versionAttribute: string)
    requires forall p | p in props :: p.isVersion <==> p.attributeName == versionAttribute
    requires VersionTracked(document, currentVersion, versionAttribute)
    ensures var r := PopulateFrom(props, obj, keysOnly, ignoreNullValues, document, currentVersion);
      VersionTracked(r.document, r.currentVersion, versionAttribute)
    decreases |props|
  {
    if |props| == 0 {
      return;
    }
    assert forall p | p in props[1..] :: p in props;
    if Skipped(props[0], keysOnly) {
      PopulateTracksVersion(props[1..], obj, keysOnly, ignoreNullValues, document, currentVersion, versionAttribute);
      return;
    }
    var s := PopulateStep(props[0], obj, ignoreNullValues, document, currentVersion);
    var written, e := StepOutcome(props[0], obj, keysOnly, ignoreNullValues, document, currentVersion);
    if s.error.None? {
      assert props[0] in props;
      assert VersionTracked(s.document, s.currentVersion, versionAttribute);
      PopulateTracksVersion(props[1..], obj, keysOnly, ignoreNullValues, s.document, s.currentVersion, versionAttribute);
    }
  }

  /** For a fresh storage, CurrentVersion is the version entry that was saved. */
  lemma FreshStorageVersion(config: ItemStorageConfig, obj: map<string, Value>, keysOnly: bool, ignoreNullValues: bool)
    requires config.HasVersion()
    requires forall p | p in config.allPropertyStorage ::
      p.isVersion <==> p.attributeName == config.versionPropertyStorage.value.attributeName
    ensures var r := PopulateFrom(config.allPropertyStorage, obj, keysOnly, ignoreNullValues, map[], None);
      var a := config.versionPropertyStorage.value.attributeName;
      r.currentVersion == if a in r.document then AsPrimitive(r.document[a]) else None
  {
    PopulateTracksVersion(config.allPropertyStorage, obj, keysOnly, ignoreNullValues, map[], None,
                          config.versionPropertyStorage.value.attributeName);
  }

  /** A key-like property whose value is a non-empty primitive list stops
      population with an error; an empty one is silently not saved. */
  lemma KeyPropertyListRejected(ps: PropertyStorage, obj: map<string, Value>, ignoreNullValues: bool,
                                document: Document, currentVersion: Option<Primitive>, l: PrimitiveList)
    requires KeyLike(ps) && ps.propertyName in obj
    requires ToEntry(ps, obj[ps.propertyName], false) == Success(PrimList(l))
    ensures var s := PopulateStep(ps, obj, ignoreNullValues, document, currentVersion);
      s.error == (if l.entries == [] then None else Some(InvalidOperation(KeyPropertyIsList(ps.propertyName)))) &&
      s.document == document
  {
  }
}
