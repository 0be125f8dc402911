/** Table resolution: the table name a type is stored in, and the check that
    a type's key properties match a table's key schema. */
module DynamoTables {
  import opened Wrappers
  import opened DynamoModel

  /** What a loaded Table exposes to the key-schema check. */
  datatype Table = Table(tableName: string, hashKeys: seq<string>, rangeKeys: seq<string>)

  /** The prefix GetTableName puts in front: none when unset or empty. */
  function PrefixOf(flatConfig: FlatConfig): string {
    if NullOrEmpty(flatConfig.tableNamePrefix) then "" else flatConfig.tableNamePrefix.value
  }

  /** GetTableName: an override replaces the base name, then the prefix is put in front. */
  function GetTableName(baseTableName: string, flatConfig: Option<FlatConfig>): (r: Result<string, DynamoError>)
    ensures flatConfig.None? <==> r.Failure?
    ensures flatConfig.None? ==> r.error == ArgumentNull("flatConfig")
    ensures r.Success? ==>
      var fc := flatConfig.value;
      var name := if NullOrEmpty(fc.overrideTableName) then baseTableName else fc.overrideTableName.value;
      PrefixOf(fc) <= r.value && r.value[|PrefixOf(fc)|..] == name
  {
    if flatConfig.None? then Failure(ArgumentNull("flatConfig"))
    else
      var fc := flatConfig.value;
      var tableName := if !NullOrEmpty(fc.overrideTableName) then fc.overrideTableName.value else baseTableName;
      if !NullOrEmpty(fc.tableNamePrefix) then Success(fc.tableNamePrefix.value + tableName)
      else Success(tableName)
  }

  /** With an override, the type's own table name plays no part. */
  lemma OverrideIgnoresBaseName(base1: string, base2: string, flatConfig: FlatConfig)
    requires !NullOrEmpty(flatConfig.overrideTableName)
    ensures GetTableName(base1, Some(flatConfig)) == GetTableName(base2, Some(flatConfig))
  {
  }

  /** Without override and prefix the base name is used as is. */
  lemma PlainBaseName(baseTableName: string, flatConfig: FlatConfig)
    requires NullOrEmpty(flatConfig.overrideTableName) && NullOrEmpty(flatConfig.tableNamePrefix)
    ensures GetTableName(baseTableName, Some(flatConfig)) == Success(baseTableName)
  {
  }

  /** One key property corresponds to a table key attribute. */
  predicate KeyPropertyMatches(config: ItemStorageConfig, attributes: seq<string>, property: string) {
    GetPropertyStorage(config, property).Success? &&
    GetPropertyStorage(config, property).value.attributeName in attributes
  }

  /** The error CompareKeys throws for a key property that does not match. */
  function KeyError(config: ItemStorageConfig, property: string, keyType: string): DynamoError {
    match GetPropertyStorage(config, property)
    case Failure(e) => e
    case Success(_) => InvalidOperation(KeyNotOnTable(property, keyType))
  }

  /** The table's keys and the type's key properties correspond. */
  predicate KeysCorrespond(config: ItemStorageConfig, attributes: seq<string>, properties: seq<string>) {
    |attributes| == |properties| &&
    forall i | 0 <= i < |properties| :: KeyPropertyMatches(config, attributes, properties[i])
  }

  /** CompareKeys: fails iff the counts differ or some key property's attribute
      is not a table key; the error names the first offending property. */
  method CompareKeys(config: ItemStorageConfig, table: Table, attributes: seq<string>, properties: seq<string>,
                     keyType: string) returns (r: Outcome<DynamoError>)
    ensures r.Pass? <==> KeysCorrespond(config, attributes, properties)
    ensures |attributes| != |properties| ==> r == Fail(InvalidOperation(KeyCountMismatch(keyType)))
    ensures |attributes| == |properties| && r.Fail? ==>
      exists k | 0 <= k < |properties| ::
        !KeyPropertyMatches(config, attributes, properties[k]) &&
        (forall j | 0 <= j < k :: KeyPropertyMatches(config, attributes, properties[j])) &&
        r.error == KeyError(config, properties[k], keyType)
  {
    if |attributes| != |properties| {
      return Fail(InvalidOperation(KeyCountMismatch(keyType)));
    }
    var i := 0;
    while i < |properties|
      invariant 0 <= i <= |properties|
      invariant forall j | 0 <= j < i :: KeyPropertyMatches(config, attributes, properties[j])
    {
      var property := GetPropertyStorage(config, properties[i]);
      if property.Failure? {
        return Fail(property.error);
      }
      if property.value.attributeName !in attributes {
        return Fail(InvalidOperation(KeyNotOnTable(properties[i], keyType)));
      }
      i := i + 1;
    }
    return Pass;
  }

  /** ValidateConfigAgainstTable: hash keys first, then range keys; the
      first failing check's error is the result. */
  method ValidateConfigAgainstTable(config: ItemStorageConfig, table: Table) returns (r: Outcome<DynamoError>)
    ensures r.Pass? <==>
      KeysCorrespond(config, table.hashKeys, config.hashKeyPropertyNames) &&
      KeysCorrespond(config, table.rangeKeys, config.rangeKeyPropertyNames)
    ensures |table.hashKeys| != |config.hashKeyPropertyNames| ==> r == Fail(InvalidOperation(KeyCountMismatch("hash")))
    ensures KeysCorrespond(config, table.hashKeys, config.hashKeyPropertyNames) &&
            |table.rangeKeys| != |config.rangeKeyPropertyNames|
            ==> r == Fail(InvalidOperation(KeyCountMismatch("range")))
    ensures |table.hashKeys| == |config.hashKeyPropertyNames| &&
            !KeysCorrespond(config, table.hashKeys, config.hashKeyPropertyNames) ==>
      exists k | 0 <= k < |config.hashKeyPropertyNames| ::
        !KeyPropertyMatches(config, table.hashKeys, config.hashKeyPropertyNames[k]) &&
        (forall j | 0 <= j < k :: KeyPropertyMatches(config, table.hashKeys, config.hashKeyPropertyNames[j])) &&
        r == Fail(KeyError(config, config.hashKeyPropertyNames[k], "hash"))
    ensures KeysCorrespond(config, table.hashKeys, config.hashKeyPropertyNames) &&
            |table.rangeKeys| == |config.rangeKeyPropertyNames| &&
            !KeysCorrespond(config, table.rangeKeys, config.rangeKeyPropertyNames) ==>
      exists k | 0 <= k < |config.rangeKeyPropertyNames| ::
        !KeyPropertyMatches(config, table.rangeKeys, config.rangeKeyPropertyNames[k]) &&
        (forall j | 0 <= j < k :: KeyPropertyMatches(config, table.rangeKeys, config.rangeKeyPropertyNames[j])) &&
        r == Fail(KeyError(config, config.rangeKeyPropertyNames[k], "range"))
  {
    r := CompareKeys(config, table, table.hashKeys, config.hashKeyPropertyNames, "hash");
    if r.Fail? {
      return;
    }
    r := CompareKeys(config, table, table.rangeKeys, config.rangeKeyPropertyNames, "range");
  }
}
