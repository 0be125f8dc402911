/** Object-to-entry conversion of the DynamoDB persistence layer: the
    "should this entry be saved" filter, member values to primitives and to
    homogeneous primitive lists. */
module DynamoConversion {
  import opened Wrappers
  import opened Decimal
  import opened DynamoModel

  /** ShouldSave: null entries are saved unless nulls are ignored, primitives
      when they hold a value, lists when they are non-empty; any other entry
      kind is an error. */
  function ShouldSave(entry: Entry, ignoreNullValues: bool): Result<bool, DynamoError> {
    match entry
    case Null => Success(!ignoreNullValues)
    case Prim(p) => Success(p.value.Some?)
    case PrimList(l) => Success(|l.entries| > 0)
    case Unrecognized => Failure(InvalidOperation(UnrecognizedEntry))
  }

  /** An entry that carries data: a primitive with a value or a non-empty list. */
  predicate Carries(entry: Entry) {
    (entry.Prim? && entry.primitive.value.Some?) || (entry.PrimList? && entry.list.entries != [])
  }

  /** The truth table of ShouldSave, for every entry and flag. */
  lemma ShouldSaveTable(entry: Entry, ignoreNullValues: bool)
    ensures entry.Unrecognized? <==> ShouldSave(entry, ignoreNullValues).Failure?
    ensures entry.Null? ==> ShouldSave(entry, ignoreNullValues) == Success(!ignoreNullValues)
    ensures !entry.Null? && !entry.Unrecognized? ==>
      ShouldSave(entry, ignoreNullValues) == Success(Carries(entry))
  {
  }

  /** Ignoring nulls only ever drops entries, and only null ones. */
  lemma ShouldSaveIgnoreNullsOnlyDropsNull(entry: Entry)
    ensures ShouldSave(entry, true) == Success(true) ==> ShouldSave(entry, false) == Success(true)
    ensures ShouldSave(entry, true) != ShouldSave(entry, false) ==> entry.Null?
  {
  }

  /** The member types TryToPrimitive converts (a closed set here). */
  predicate IsPrimitiveType(t: MemberType) {
    t.StringMember? || t.IntegralMember? || t.BinaryMember?
  }

  /** The entry type a primitive member converts to. */
  function KindOf(t: MemberType): EntryType
    requires IsPrimitiveType(t)
  {
    match t
    case StringMember => StringType
    case IntegralMember(_) => NumericType
    case BinaryMember => BinaryType
  }

  /** TryToPrimitive: the declared type picks the conversion; the value is
      unboxed with an exact cast (a wrong runtime type is an InvalidCast, a null
      unboxed to a number a NullReference). Success(None) is "returns false". */
  function TryToPrimitive(t: MemberType, v: Value): (r: Result<Option<Primitive>, DynamoError>)
    ensures r == Success(None) <==> !IsPrimitiveType(t)
    ensures r.Success? && r.value.Some? ==> r.value.value.kind == KindOf(t)
    ensures r.Success? && r.value.Some? ==> (r.value.value.value.None? <==> v.VNull?)
  {
    match t
    case StringMember =>
      (match v
       case VString(s) => Success(Some(Primitive(StringType, Some(Text(s)))))
       case VNull => Success(Some(Primitive(StringType, None)))
       case _ => Failure(InvalidCast))
    case IntegralMember(it) =>
      (match v
       case VInt(vt, n) =>
         if vt == it then Success(Some(Primitive(NumericType, Some(Text(FromInt(n))))))
         else Failure(InvalidCast)
       case VNull => Failure(NullReference)
       case _ => Failure(InvalidCast))
    case BinaryMember =>
      (match v
       case VBytes(b) => Success(Some(Primitive(BinaryType, Some(Bin(b)))))
       case VNull => Success(Some(Primitive(BinaryType, None)))
       case _ => Failure(InvalidCast))
    case _ => Success(None)
  }

  /** The items a value yields as an IEnumerable; strings are never treated as
      collections, a byte array yields its bytes. */
  function ElementsOf(v: Value): (r: Option<seq<Value>>)
    ensures v.VString? ==> r.None?
    ensures v.VBytes? ==> r.Some? && |r.value| == |v.bytes|
  {
    match v
    case VList(items) => Some(items)
    case VBytes(b) => Some(seq(|b|, i requires 0 <= i < |b| => VInt(Byte, b[i] as int)))
    case _ => None
  }

  /** value.GetType().IsAssignableFrom(elementType) for a value that is not enumerable. */
  predicate RuntimeTypeAccepts(v: Value, element: MemberType) {
    match v
    case VString(_) => element.StringMember?
    case VInt(t, _) => element == IntegralMember(t)
    case _ => false
  }

  /** A value whose runtime type the element type accepts converts to a primitive. */
  lemma AcceptedValueConverts(v: Value, element: MemberType)
    requires RuntimeTypeAccepts(v, element)
    ensures TryToPrimitive(element, v).Success? && TryToPrimitive(element, v).value.Some?
  {
  }

  /** The foreach of TryToPrimitiveList from some item on: `listType` and
      `entries` are the loop's state, Success(None) is "returns false". */
  function ConvertItems(element: MemberType, items: seq<Value>, listType: Option<EntryType>,
                        entries: seq<Primitive>): Result<Option<PrimitiveList>, DynamoError>
    decreases |items|
  {
    if |items| == 0 then
      Success(Some(PrimitiveList(if listType.Some? then listType.value else StringType, entries)))
    else
      match TryToPrimitive(element, items[0])
      case Failure(e) => Failure(e)
      case Success(None) => Success(None)
      case Success(Some(p)) =>
        if listType.Some? && listType.value != p.kind then Failure(InvalidOperation(MixedListTypes))
        else ConvertItems(element, items[1..], Some(p.kind), entries + [p])
  }

  /** What TryToPrimitiveList produces for a non-null value. */
  function PrimitiveListOf(t: MemberType, v: Value, canReturnPrimitive: bool): Result<Option<Entry>, DynamoError>
    requires !v.VNull?
  {
    if !(t.CollectionMember? && IsPrimitiveType(t.element)) then Success(None)
    else match ElementsOf(v)
      case None =>
        if canReturnPrimitive && RuntimeTypeAccepts(v, t.element) then
          match TryToPrimitive(t.element, v)
          case Failure(e) => Failure(e)
          case Success(None) => Success(None)
          case Success(Some(p)) => Success(Some(Prim(p)))
        else Success(None)
      case Some(items) =>
        match ConvertItems(t.element, items, None, [])
        case Failure(e) => Failure(e)
        case Success(None) => Success(None)
        case Success(Some(l)) => Success(Some(PrimList(l)))
  }

  /** The primitives a run of convertible items gives, in order. */
  function Converted(element: MemberType, items: seq<Value>): seq<Primitive>
    requires IsPrimitiveType(element)
    requires forall i | 0 <= i < |items| :: TryToPrimitive(element, items[i]).Success?
    decreases |items|
  {
    if |items| == 0 then []
    else [TryToPrimitive(element, items[0]).value.value] + Converted(element, items[1..])
  }

  lemma {:induction false} ConvertedIndex(element: MemberType, items: seq<Value>)
    requires IsPrimitiveType(element)
    requires forall i | 0 <= i < |items| :: TryToPrimitive(element, items[i]).Success?
    ensures |Converted(element, items)| == |items|
    ensures forall i | 0 <= i < |items| :: Some(Converted(element, items)[i]) == TryToPrimitive(element, items[i]).value
    decreases |items|
  {
    if |items| > 0 {
      ConvertedIndex(element, items[1..]);
      forall i | 1 <= i < |items|
        ensures Some(Converted(element, items)[i]) == TryToPrimitive(element, items[i]).value
      {
        assert items[1..][i - 1] == items[i];
      }
    }
  }

  /** Every item of a primitive element type converts to a primitive of that type. */
  lemma {:induction false} ConvertItemsSucceeds(element: MemberType, items: seq<Value>, entries: seq<Primitive>)
    requires IsPrimitiveType(element)
    requires forall i | 0 <= i < |items| :: TryToPrimitive(element, items[i]).Success?
    ensures ConvertItems(element, items, if entries == [] then None else Some(KindOf(element)), entries)
         == Success(Some(PrimitiveList(if entries == [] && items == [] then StringType else KindOf(element),
                                       entries + Converted(element, items))))
    decreases |items|
  {
    if |items| == 0 {
      assert entries + [] == entries;
    } else {
      var p := TryToPrimitive(element, items[0]).value.value;
      ConvertItemsSucceeds(element, items[1..], entries + [p]);
      assert entries + Converted(element, items) == (entries + [p]) + Converted(element, items[1..]);
    }
  }

  /** The list type never mixes: a list conversion never fails with
      MixedListTypes, because the element type fixes every item's kind. */
  lemma {:induction false} ConvertItemsNeverMixes(element: MemberType, items: seq<Value>, entries: seq<Primitive>)
    requires IsPrimitiveType(element)
    ensures ConvertItems(element, items, if entries == [] then None else Some(KindOf(element)), entries)
         != Failure(InvalidOperation(MixedListTypes))
    decreases |items|
  {
    if |items| > 0 {
      var c := TryToPrimitive(element, items[0]);
      if c.Success? {
        ConvertItemsNeverMixes(element, items[1..], entries + [c.value.value]);
      }
    }
  }

  /** TryToPrimitiveList: order is kept, items are converted one by one, an
      empty collection is a String list, and list types never mix. */
  lemma PrimitiveListKeepsOrder(t: MemberType, items: seq<Value>, canReturnPrimitive: bool)
    requires t.CollectionMember? && IsPrimitiveType(t.element)
    requires forall i | 0 <= i < |items| :: TryToPrimitive(t.element, items[i]).Success?
    ensures PrimitiveListOf(t, VList(items), canReturnPrimitive).Success?
    ensures var r := PrimitiveListOf(t, VList(items), canReturnPrimitive).value;
      r.Some? && r.value.PrimList? &&
      |r.value.list.entries| == |items| &&
      (forall i | 0 <= i < |items| :: Some(r.value.list.entries[i]) == TryToPrimitive(t.element, items[i]).value) &&
      r.value.list.kind == (if items == [] then StringType else KindOf(t.element))
  {
    ConvertItemsSucceeds(t.element, items, []);
    ConvertedIndex(t.element, items);
  }

  lemma PrimitiveListNeverMixes(t: MemberType, v: Value, canReturnPrimitive: bool)
    requires !v.VNull?
    ensures PrimitiveListOf(t, v, canReturnPrimitive) != Failure(InvalidOperation(MixedListTypes))
  {
    if t.CollectionMember? && IsPrimitiveType(t.element) && ElementsOf(v).Some? {
      ConvertItemsNeverMixes(t.element, ElementsOf(v).value, []);
    }
  }

  /** A string is not a collection: it becomes a list only when it may come
      back as a single primitive, and then it is that primitive. */
  lemma StringIsNeverAList(t: MemberType, s: string, canReturnPrimitive: bool)
    ensures var r := PrimitiveListOf(t, VString(s), canReturnPrimitive);
      r.Success? && (r.value.Some? ==>
        canReturnPrimitive && t == CollectionMember(StringMember) &&
        r.value.value == Prim(Primitive(StringType, Some(Text(s)))))
  {
  }

  /** ToDynamoDBEntry without a converter: null stays null, then a primitive,
      then a primitive list, otherwise an error. */
  function ToEntry(ps: PropertyStorage, v: Value, canReturnPrimitive: bool): (r: Result<Entry, DynamoError>)
    ensures r.Success? ==> !r.value.Unrecognized?
    ensures r == Success(Null) <==> v.VNull?
  {
    if v.VNull? then Success(Null)
    else match TryToPrimitive(ps.memberType, v)
      case Failure(e) => Failure(e)
      case Success(Some(p)) => Success(Prim(p))
      case Success(None) =>
        match PrimitiveListOf(ps.memberType, v, canReturnPrimitive)
        case Failure(e) => Failure(e)
        case Success(Some(entry)) => Success(entry)
        case Success(None) => Failure(InvalidOperation(NotConvertible(ps.propertyName)))
  }

  /** A primitive member converts to a primitive of its own kind, never a list. */
  lemma PrimitiveMemberIsPrimitive(ps: PropertyStorage, v: Value, canReturnPrimitive: bool)
    requires IsPrimitiveType(ps.memberType) && !v.VNull?
    ensures var r := ToEntry(ps, v, canReturnPrimitive);
      r.Success? ==> r.value.Prim? && r.value.primitive.kind == KindOf(ps.memberType) && r.value.primitive.value.Some?
  {
  }

  /** TryToPrimitiveList, the loop as written. */
  method TryToPrimitiveList(t: MemberType, v: Value, canReturnPrimitive: bool) returns (r: Result<Option<Entry>, DynamoError>)
    requires !v.VNull?
    ensures r == PrimitiveListOf(t, v, canReturnPrimitive)
  {
    if !(t.CollectionMember? && IsPrimitiveType(t.element)) {
      return Success(None);
    }
    var elements := ElementsOf(v);
    if elements.None? {
      if canReturnPrimitive && RuntimeTypeAccepts(v, t.element) {
        AcceptedValueConverts(v, t.element);
        var conv := TryToPrimitive(t.element, v);
        return Success(Some(Prim(conv.value.value)));
      }
      return Success(None);
    }
    var items := elements.value;
    var listType: Option<EntryType> := None;
    var entries: seq<Primitive> := [];
    var i := 0;
    while i < |items|
      invariant 0 <= i <= |items|
      invariant ConvertItems(t.element, items, None, []) == ConvertItems(t.element, items[i..], listType, entries)
    {
      var conv := TryToPrimitive(t.element, items[i]);
      if conv.Failure? {
        return Failure(conv.error);
      }
      if conv.value.None? {
        return Success(None);
      }
      var p := conv.value.value;
      if listType.Some? && listType.value != p.kind {
        return Failure(InvalidOperation(MixedListTypes));
      }
      listType := Some(p.kind);
      entries := entries + [p];
      assert items[i..][1..] == items[i + 1..];
      i := i + 1;
    }
    var kind := if listType.Some? then listType.value else StringType;
    return Success(Some(PrimList(PrimitiveList(kind, entries))));
  }

  /** ToDynamoDBEntry(propertyStorage, value, canReturnPrimitiveInsteadOfList).
      The method keeps the source's steps and calls the looping
      TryToPrimitiveList method; ToEntry is the function it is proved
      against, which the functions and lemmas that cannot call a method use. */
  method ToDynamoDBEntry(ps: PropertyStorage, v: Value, canReturnPrimitive: bool) returns (r: Result<Entry, DynamoError>)
    ensures r == ToEntry(ps, v, canReturnPrimitive)
  {
    if v.VNull? {
      return Success(Null);
    }
    var primitive := TryToPrimitive(ps.memberType, v);
    if primitive.Failure? {
      return Failure(primitive.error);
    }
    if primitive.value.Some? {
      return Success(Prim(primitive.value.value));
    }
    var list := TryToPrimitiveList(ps.memberType, v, canReturnPrimitive);
    if list.Failure? {
      return Failure(list.error);
    }
    if list.value.Some? {
      return Success(list.value.value);
    }
    return Failure(InvalidOperation(NotConvertible(ps.propertyName)));
  }
}
