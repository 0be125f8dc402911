/** The entities of the DynamoDB object-persistence layer: attribute entries,
    documents, member values, per-property storage flags and the per-type
    storage configuration, plus the exceptions the layer throws. */
module DynamoModel {
  import opened Wrappers

  /** DynamoDBEntryType: the wire type of a primitive attribute. */
  datatype EntryType = StringType | NumericType | BinaryType

  /** What a Primitive's Value holds: text (strings and numbers) or bytes. */
  datatype Payload = Text(s: string) | Bin(bytes: seq<bv8>)

  /** A scalar attribute; `value == None` is a Primitive whose Value is null. */
  datatype Primitive = Primitive(kind: EntryType, value: Option<Payload>)

  /** A set-valued attribute: a list of primitives with one list type. */
  datatype PrimitiveList = PrimitiveList(kind: EntryType, entries: seq<Primitive>)

  /** A document slot: a DynamoDBEntry or a null reference (`Null`).
      `Unrecognized` stands for any other DynamoDBEntry subclass. */
  datatype Entry = Null | Prim(primitive: Primitive) | PrimList(list: PrimitiveList) | Unrecognized

  /** Document: attribute name to entry. */
  type Document = map<string, Entry>

  /** The C# integral types a version or key member may have. */
  datatype IntegralType = Byte | SByte | Int16 | UInt16 | Int32 | UInt32 | Int64 | UInt64

  /** The declared type of a persisted member, as far as the conversions look at it. */
  datatype MemberType =
    | StringMember
    | IntegralMember(integral: IntegralType)
    | BinaryMember
    | CollectionMember(element: MemberType)
    | OtherMember

  /** A member's runtime value. `VInt` carries the runtime integral type of the
      boxed number, so that unboxing casts are exact as in C#. */
  datatype Value =
    | VNull
    | VString(s: string)
    | VInt(t: IntegralType, n: int)
    | VBytes(bytes: seq<bv8>)
    | VList(items: seq<Value>)

  /** PropertyStorage: how one member of the persisted type is stored. */
  datatype PropertyStorage = PropertyStorage(
    propertyName: string,
    attributeName: string,
    memberType: MemberType,
    isHashKey: bool,
    isRangeKey: bool,
    isVersion: bool,
    isLSIRangeKey: bool,
    isGSIKey: bool,
    indexNames: seq<string>)

  /** ItemStorageConfig: the storage description of one persisted type.
      `gsiIndexNames` are the keys of IndexNameToGSIMapping, `rangeKeyByIndex`
      is what GetRangeKeyByIndex looks up. */
  datatype ItemStorageConfig = ItemStorageConfig(
    tableName: string,
    allPropertyStorage: seq<PropertyStorage>,
    hashKeyPropertyNames: seq<string>,
    rangeKeyPropertyNames: seq<string>,
    versionPropertyStorage: Option<PropertyStorage>,
    gsiIndexNames: set<string>,
    rangeKeyByIndex: map<string, string>)
  {
    predicate HasVersion() {
      versionPropertyStorage.Some?
    }
  }

  /** The comparison operators of query and scan conditions. */
  datatype ComparisonOperator =
    | Equal | NotEqual | LessThanOrEqual | LessThan | GreaterThanOrEqual | GreaterThan
    | IsNotNull | IsNull | Contains | NotContains | BeginsWith | In | Between

  /** A QueryCondition or ScanCondition: a property, an operator and the
      values to compare with (each may be null). */
  datatype Condition = Condition(propertyName: Option<string>, op: ComparisonOperator, values: Option<seq<Value>>)

  /** DynamoDBFlatConfig, the settings the table and query rules read. */
  datatype FlatConfig = FlatConfig(
    overrideTableName: Option<string>,
    tableNamePrefix: Option<string>,
    indexName: Option<string>,
    queryFilter: Option<seq<Condition>>)

  /** Why an InvalidOperationException was thrown. */
  datatype Reason =
    | VersionNotNumeric
    | KeyCountMismatch(keyType: string)
    | KeyNotOnTable(property: string, keyType: string)
    | UnrecognizedEntry
    | ValueNotRetrievable(property: string)
    | KeyPropertyIsList(property: string)
    | NotConvertible(property: string)
    | MixedListTypes
    | NoSingleHashKey
    | NoRangeKeyOrGsi
    | NoIndexInferred
    | IndexNameMismatch
    | NoSingleRangeKey
    | HashKeyNotConvertible(property: string)
    | RangeKeyNotConvertible(property: string)
    | KeyEmpty
    | KeyMissingHashKey(property: string)
    | KeyMissingRangeKey(property: string)
    | UnknownProperty(property: string)
    | UnknownIndex(index: string)

  /** The exceptions the persistence layer lets escape. */
  datatype DynamoError =
    | ArgumentNull(parameter: string)
    | InvalidOperation(reason: Reason)
    | InvalidCast
    | Overflow
    | Format
    | NullReference
    | KeyNotFound(key: string)

  /** string.IsNullOrEmpty */
  predicate NullOrEmpty(s: Option<string>) {
    s.None? || s.value == ""
  }

  /** The first property storage with the given property name. */
  function FindProperty(props: seq<PropertyStorage>, name: string): (r: Option<PropertyStorage>)
    ensures r.Some? ==> r.value in props && r.value.propertyName == name
    ensures r.None? ==> forall p | p in props :: p.propertyName != name
  {
    if |props| == 0 then None
    else if props[0].propertyName == name then Some(props[0])
    else FindProperty(props[1..], name)
  }

  /** The property found is the first with the name: no earlier one carries it. */
  lemma {:induction false} FindPropertyFirst(props: seq<PropertyStorage>, name: string)
    ensures FindProperty(props, name).Some? ==>
              exists i :: 0 <= i < |props| && props[i] == FindProperty(props, name).value
                          && forall j :: 0 <= j < i ==> props[j].propertyName != name
    decreases |props|
  {
    if |props| > 0 && props[0].propertyName != name {
      FindPropertyFirst(props[1..], name);
      if FindProperty(props, name).Some? {
        var i :| 0 <= i < |props| - 1 && props[1..][i] == FindProperty(props, name).value
                 && forall j :: 0 <= j < i ==> props[1..][j].propertyName != name;
        assert props[i + 1] == props[1..][i];
        forall j | 0 <= j < i + 1
          ensures props[j].propertyName != name
        {
          if j > 0 {
            assert props[j] == props[1..][j - 1];
          }
        }
      }
    }
  }

  /** ItemStorageConfig.GetPropertyStorage: an unknown name is an error. */
  function GetPropertyStorage(config: ItemStorageConfig, name: string): (r: Result<PropertyStorage, DynamoError>)
    ensures r.Success? ==> r.value in config.allPropertyStorage && r.value.propertyName == name
    ensures r.Failure? <==> forall p | p in config.allPropertyStorage :: p.propertyName != name
    ensures r.Failure? ==> r.error == InvalidOperation(UnknownProperty(name))
  {
    match FindProperty(config.allPropertyStorage, name)
    case Some(p) => Success(p)
    case None => Failure(InvalidOperation(UnknownProperty(name)))
  }

  /** ItemStorage: the document built for (or read from) one object, with the
      version entry seen while building it. */
  class ItemStorage {
    const config: ItemStorageConfig
    var document: Document
    var currentVersion: Option<Primitive>

    constructor (config: ItemStorageConfig)
      ensures this.config == config
      ensures document == map[] && currentVersion == None
    {
      this.config := config;
      document := map[];
      currentVersion := None;
    }
  }
}
