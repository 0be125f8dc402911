/** Optimistic versioning: the version attribute is bumped before every save. */
module DynamoVersioning {
  import opened Wrappers
  import opened Decimal
  import opened DynamoModel

  function MinValue(t: IntegralType): int {
    match t
    case Byte => 0
    case SByte => -0x80
    case Int16 => -0x8000
    case UInt16 => 0
    case Int32 => -0x8000_0000
    case UInt32 => 0
    case Int64 => -0x8000_0000_0000_0000
    case UInt64 => 0
  }

  function MaxValue(t: IntegralType): int {
    match t
    case Byte => 0xFF
    case SByte => 0x7F
    case Int16 => 0x7FFF
    case UInt16 => 0xFFFF
    case Int32 => 0x7FFF_FFFF
    case UInt32 => 0xFFFF_FFFF
    case Int64 => 0x7FFF_FFFF_FFFF_FFFF
    case UInt64 => 0xFFFF_FFFF_FFFF_FFFF
  }

  predicate InRange(t: IntegralType, n: int) {
    MinValue(t) <= n <= MaxValue(t)
  }

  /** C# promotes byte, sbyte, short and ushort operands of `+` to int. */
  predicate Promoted(t: IntegralType) {
    t.Byte? || t.SByte? || t.Int16? || t.UInt16?
  }

  /** `version.AsXxx() + 1` in an unchecked context: promoted types give the
      plain successor, int/uint/long/ulong wrap around to their minimum. */
  function Increment(t: IntegralType, n: int): int {
    if Promoted(t) then n + 1
    else
      var modulus := MaxValue(t) - MinValue(t) + 1;
      (n + 1 - MinValue(t)) % modulus + MinValue(t)
  }

  /** The increment is the successor, except at the maximum of a wrapping type. */
  lemma IncrementIsSuccessor(t: IntegralType, n: int)
    requires InRange(t, n)
    ensures Increment(t, n) == if n == MaxValue(t) && !Promoted(t) then MinValue(t) else n + 1
  {
  }

  /** Primitive.AsXxx(): the decimal text read as the C# type, with a format
      error for non-numbers and an overflow outside the type's range. */
  function AsIntegral(t: IntegralType, p: Primitive): (r: Result<int, DynamoError>)
    ensures r.Success? ==> InRange(t, r.value)
  {
    match p.value
    case None => Failure(NullReference)
    case Some(Bin(_)) => Failure(InvalidCast)
    case Some(Text(s)) =>
      match ParseInt(s)
      case None => Failure(Format)
      case Some(n) => if InRange(t, n) then Success(n) else Failure(Overflow)
  }

  /** The numeric primitive C# writes for an integer. */
  function Number(n: int): Primitive {
    Primitive(NumericType, Some(Text(FromInt(n))))
  }

  /** IncrementVersion: integral members are read, incremented and written
      back as a number; other member types leave the version unchanged. */
  function IncrementVersion(memberType: MemberType, version: Primitive): Result<Primitive, DynamoError> {
    match memberType
    case IntegralMember(t) =>
      (match AsIntegral(t, version)
       case Failure(e) => Failure(e)
       case Success(n) => Success(Number(Increment(t, n))))
    case _ => Success(version)
  }

  /** The version primitive found in a document for an attribute, if any. */
  function VersionIn(document: Document, attributeName: string): Option<Primitive> {
    if attributeName in document && document[attributeName].Prim? then Some(document[attributeName].primitive)
    else None
  }

  /** The attribute SetNewVersion writes and its new value, None when the type
      has no version property. */
  function NextVersion(config: ItemStorageConfig, document: Document): Result<Option<(string, Primitive)>, DynamoError> {
    match config.versionPropertyStorage
    case None => Success(None)
    case Some(vp) =>
      var version := VersionIn(document, vp.attributeName);
      if version.Some? && version.value.value.Some? then
        if version.value.kind != NumericType then Failure(InvalidOperation(VersionNotNumeric))
        else
          match IncrementVersion(vp.memberType, version.value)
          case Failure(e) => Failure(e)
          case Success(p) => Success(Some((vp.attributeName, p)))
      else Success(Some((vp.attributeName, Primitive(NumericType, Some(Text("0"))))))
  }

  /** SetNewVersion(storage). */
  method SetNewVersion(storage: ItemStorage) returns (failure: Option<DynamoError>)
    modifies storage
    ensures storage.currentVersion == old(storage.currentVersion)
    ensures match NextVersion(storage.config, old(storage.document))
      case Success(None) => failure.None? && storage.document == old(storage.document)
      case Success(Some((name, p))) => failure.None? && storage.document == old(storage.document)[name := Prim(p)]
      case Failure(e) => failure == Some(e) && storage.document == old(storage.document)
  {
    if !storage.config.HasVersion() {
      return None;
    }
    var vp := storage.config.versionPropertyStorage.value;
    var version := VersionIn(storage.document, vp.attributeName);
    var next: Primitive;
    if version.Some? && version.value.value.Some? {
      if version.value.kind != NumericType {
        return Some(InvalidOperation(VersionNotNumeric));
      }
      var incremented := IncrementVersion(vp.memberType, version.value);
      if incremented.Failure? {
        return Some(incremented.error);
      }
      next := incremented.value;
    } else {
      next := Primitive(NumericType, Some(Text("0")));
    }
    storage.document := storage.document[vp.attributeName := Prim(next)];
    return None;
  }

  /** Without a version property nothing is written. */
  lemma NoVersionNoChange(config: ItemStorageConfig, document: Document)
    requires !config.HasVersion()
    ensures NextVersion(config, document) == Success(None)
  {
  }

  /** An absent, non-primitive or null-valued version starts at numeric "0". */
  lemma MissingVersionStartsAtZero(config: ItemStorageConfig, document: Document)
    requires config.HasVersion()
    requires var a := config.versionPropertyStorage.value.attributeName;
      a !in document || !document[a].Prim? || document[a].primitive.value.None?
    ensures NextVersion(config, document)
         == Success(Some((config.versionPropertyStorage.value.attributeName, Number(0))))
  {
    assert FromInt(0) == "0";
  }

  /** A non-numeric stored version is rejected. */
  lemma NonNumericVersionFails(config: ItemStorageConfig, document: Document)
    requires config.HasVersion()
    requires var a := config.versionPropertyStorage.value.attributeName;
      a in document && document[a].Prim? && document[a].primitive.value.Some? &&
      document[a].primitive.kind != NumericType
    ensures NextVersion(config, document) == Failure(InvalidOperation(VersionNotNumeric))
  {
  }

  /** A stored integral version n is replaced by n + 1, or by the type's
      minimum when a wrapping type is at its maximum. */
  lemma VersionIncrements(config: ItemStorageConfig, document: Document, t: IntegralType, n: int)
    requires config.HasVersion() && config.versionPropertyStorage.value.memberType == IntegralMember(t)
    requires InRange(t, n)
    requires var a := config.versionPropertyStorage.value.attributeName;
      a in document && document[a] == Prim(Number(n))
    ensures NextVersion(config, document)
         == Success(Some((config.versionPropertyStorage.value.attributeName,
                          Number(if n == MaxValue(t) && !Promoted(t) then MinValue(t) else n + 1))))
  {
    ParseFromInt(n);
    IncrementIsSuccessor(t, n);
  }

  /** Stored version text with white space around it and a `+` sign reads as the plain number. */
  lemma PaddedVersionText(t: IntegralType, lead: string, n: nat, trail: string)
    requires AllWhite(lead) && AllWhite(trail) && InRange(t, n)
    ensures AsIntegral(t, Primitive(NumericType, Some(Text(lead + ("+" + FromNat(n)) + trail)))) == Success(n)
  {
    var s := "+" + FromNat(n);
    assert s[|s| - 1] == FromNat(n)[|FromNat(n)| - 1];
    ParseIgnoresSurroundingWhite(lead, s, trail);
    ParsePlusSign(n);
  }

  /** A version member that is not integral keeps the stored number as it is. */
  lemma NonIntegralVersionKept(config: ItemStorageConfig, document: Document, p: Primitive)
    requires config.HasVersion() && !config.versionPropertyStorage.value.memberType.IntegralMember?
    requires var a := config.versionPropertyStorage.value.attributeName;
      a in document && document[a] == Prim(p) && p.value.Some? && p.kind == NumericType
    ensures NextVersion(config, document) == Success(Some((config.versionPropertyStorage.value.attributeName, p)))
  {
  }

  /** A byte version at 255 is written as 256 (the sum is an int), and the save
      after that fails because 256 does not read back as a byte. */
  lemma ByteVersionOutgrowsItsType(config: ItemStorageConfig, document: Document)
    requires config.HasVersion() && config.versionPropertyStorage.value.memberType == IntegralMember(Byte)
    requires var a := config.versionPropertyStorage.value.attributeName;
      a in document && document[a] == Prim(Number(255))
    ensures var a := config.versionPropertyStorage.value.attributeName;
      NextVersion(config, document) == Success(Some((a, Number(256)))) &&
      NextVersion(config, document[a := Prim(Number(256))]) == Failure(Overflow)
  {
    VersionIncrements(config, document, Byte, 255);
    ParseFromInt(256);
  }
}
