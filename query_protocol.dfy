/** What a request marshaller produces: a request object naming its service
    and holding an ordered parameter dictionary (the query protocol), headers,
    a resource path and a body, which a JSON-protocol marshaller fills through
    a streaming JSON writer. */
module QueryProtocol {
  import opened Wrappers
  import Decimal

  /** A query parameter: its name and its value. */
  type Parameter = (string, string)

  predicate HasParameter(ps: seq<Parameter>, name: string) {
    exists i :: 0 <= i < |ps| && ps[i].0 == name
  }

  predicate DistinctNames(ps: seq<Parameter>) {
    forall i, j :: 0 <= i < j < |ps| ==> ps[i].0 != ps[j].0
  }

  /** The dictionary lookup `Parameters[name]`: the value stored under `name`, if any. */
  function ValueOf(ps: seq<Parameter>, name: string): (r: Option<string>)
    ensures r.Some? <==> HasParameter(ps, name)
    ensures DistinctNames(ps) ==> forall i :: 0 <= i < |ps| && ps[i].0 == name ==> r == Some(ps[i].1)
  {
    if |ps| == 0 then None
    else if ps[0].0 == name then Some(ps[0].1)
    else
      var r := ValueOf(ps[1..], name);
      assert forall i :: 1 <= i < |ps| ==> ps[i] == ps[1..][i - 1];
      r
  }

  /** Looking a name up in two parameter lists put one after the other. */
  lemma {:induction false} ValueOfConcat(a: seq<Parameter>, b: seq<Parameter>, name: string)
    ensures ValueOf(a + b, name) == if HasParameter(a, name) then ValueOf(a, name) else ValueOf(b, name)
  {
    if |a| == 0 {
      assert a + b == b;
    } else {
      assert (a + b)[1..] == a[1..] + b;
      if a[0].0 != name {
        ValueOfConcat(a[1..], b, name);
        assert HasParameter(a, name) ==> HasParameter(a[1..], name) by {
          if HasParameter(a, name) {
            var i :| 0 <= i < |a| && a[i].0 == name;
            assert a[1..][i - 1] == a[i];
          }
        }
      }
    }
  }

  /** Looking up, in three lists put together, a name the middle one lacks. */
  lemma SkipList(h: seq<Parameter>, l: seq<Parameter>, t: seq<Parameter>, name: string)
    requires !HasParameter(l, name)
    ensures ValueOf(h + l + t, name) == if HasParameter(h, name) then ValueOf(h, name) else ValueOf(t, name)
  {
    ValueOfConcat(h + l, t, name);
    ValueOfConcat(h, l, name);
    HasParameterConcat(h, l, name);
  }

  /** A list put in front of another is its prefix. */
  lemma PrefixOfConcat(a: seq<Parameter>, b: seq<Parameter>)
    ensures (a + b)[..|a|] == a
  {
  }

  /** A name occurs in two lists put together iff it occurs in one of them. */
  lemma HasParameterConcat(a: seq<Parameter>, b: seq<Parameter>, name: string)
    ensures HasParameter(a + b, name) <==> HasParameter(a, name) || HasParameter(b, name)
  {
    if HasParameter(a + b, name) {
      var i :| 0 <= i < |a + b| && (a + b)[i].0 == name;
      if i >= |a| {
        assert b[i - |a|] == (a + b)[i];
      }
    }
    if HasParameter(b, name) {
      var j :| 0 <= j < |b| && b[j].0 == name;
      assert (a + b)[|a| + j] == b[j];
    }
    if HasParameter(a, name) {
      var i :| 0 <= i < |a| && a[i].0 == name;
      assert (a + b)[i] == a[i];
    }
  }

  /** Two lists with distinct names and no name in common give distinct names together. */
  lemma DistinctConcat(a: seq<Parameter>, b: seq<Parameter>)
    requires DistinctNames(a) && DistinctNames(b)
    requires forall j :: 0 <= j < |b| ==> !HasParameter(a, b[j].0)
    ensures DistinctNames(a + b)
  {
    forall i, j | 0 <= i < j < |a + b|
      ensures (a + b)[i].0 != (a + b)[j].0
    {
      if j < |a| {
      } else if i < |a| {
        assert (a + b)[j] == b[j - |a|];
        assert (a + b)[i] == a[i];
      } else {
        assert (a + b)[i] == b[i - |a|] && (a + b)[j] == b[j - |a|];
      }
    }
  }

  /** In a list of distinct names, no entry's name occurs before it. */
  lemma PrefixLacksNext(ps: seq<Parameter>, m: int)
    requires DistinctNames(ps) && 0 <= m < |ps|
    ensures !HasParameter(ps[..m], ps[m].0)
  {
    forall i | 0 <= i < m
      ensures ps[..m][i].0 != ps[m].0
    {
      assert ps[..m][i] == ps[i];
    }
  }

  /** A one-entry list for a set field, holding that field's formatted value. */
  lemma OptionalSpec(name: string, value: Option<string>, other: string)
    ensures DistinctNames(Optional(name, value))
    ensures HasParameter(Optional(name, value), other) <==> other == name && value.Some?
    ensures ValueOf(Optional(name, value), other) == if other == name then value else None
  {
    if value.Some? {
      assert Optional(name, value)[0] == (name, value.value);
    }
  }

  /** `StringUtils.FromString`: a string parameter is sent as it is. */
  function FromString(s: string): string {
    s
  }

  /** `StringUtils.FromInt`: the invariant-culture decimal text. */
  function FromInt(i: int): (s: string)
    ensures Decimal.ParseInt(s) == Some(i)
  {
    Decimal.ParseFromInt(i);
    Decimal.FromInt(i)
  }

  /** `StringUtils.FromBool`: lower-case `true` / `false`. */
  function FromBool(b: bool): (s: string)
    ensures s == "true" || s == "false"
    ensures (s == "true") == b
  {
    if b then "true" else "false"
  }

  /** A one-entry list when the field is set, else nothing. */
  function Optional(name: string, value: Option<string>): seq<Parameter> {
    if value.Some? then [(name, value.value)] else []
  }

  /** A field that is not a string, formatted by `format` when present. */
  function MapOption<T>(value: Option<T>, format: T -> string): Option<string> {
    if value.Some? then Some(format(value.value)) else None
  }

  /** A field that is sent iff it is set: its wire name and its formatted value, if any. */
  type Field = (string, Option<string>)

  /** The parameters of a run of fields, each sent iff set, in field order. */
  function Fields(fs: seq<Field>): seq<Parameter>
    decreases |fs|
  {
    if |fs| == 0 then [] else Optional(fs[0].0, fs[0].1) + Fields(fs[1..])
  }

  predicate DistinctFieldNames(fs: seq<Field>) {
    forall i, j :: 0 <= i < j < |fs| ==> fs[i].0 != fs[j].0
  }

  /** How many of the fields are set. */
  function SetCount(fs: seq<Field>): nat
    decreases |fs|
  {
    if |fs| == 0 then 0 else (if fs[0].1.Some? then 1 else 0) + SetCount(fs[1..])
  }

  /**
   * With distinct field names, the parameters hold each set field under its
   * name and nothing else: a name no field carries is absent, the names do
   * not repeat, and there is one parameter per set field.
   */
  lemma {:induction false} FieldsSpec(fs: seq<Field>, name: string)
    requires DistinctFieldNames(fs)
    ensures DistinctNames(Fields(fs))
    ensures |Fields(fs)| == SetCount(fs)
    ensures forall i :: 0 <= i < |fs| && fs[i].0 == name ==> ValueOf(Fields(fs), name) == fs[i].1
    ensures (forall i :: 0 <= i < |fs| ==> fs[i].0 != name) ==> !HasParameter(Fields(fs), name)
    decreases |fs|
  {
    if |fs| > 0 {
      var o, rest := Optional(fs[0].0, fs[0].1), Fields(fs[1..]);
      FieldsSpec(fs[1..], name);
      FieldsSpec(fs[1..], fs[0].0);
      assert forall i :: 1 <= i < |fs| ==> fs[i] == fs[1..][i - 1];
      OptionalSpec(fs[0].0, fs[0].1, name);
      forall j | 0 <= j < |rest|
        ensures !HasParameter(o, rest[j].0)
      {
        OptionalSpec(fs[0].0, fs[0].1, rest[j].0);
      }
      DistinctConcat(o, rest);
      ValueOfConcat(o, rest, name);
      HasParameterConcat(o, rest, name);
    }
  }

  /**
   * Adding the next field's parameter, when it is set, extends the list the
   * earlier fields made; its name is not among theirs.
   */
  lemma {:induction false} FieldsStep(fs: seq<Field>, j: nat)
    requires DistinctFieldNames(fs) && j < |fs|
    ensures Fields(fs[..j + 1]) == Fields(fs[..j]) + Optional(fs[j].0, fs[j].1)
    ensures !HasParameter(Fields(fs[..j]), fs[j].0)
    decreases j
  {
    FieldsSnoc(fs[..j], fs[j]);
    assert fs[..j] + [fs[j]] == fs[..j + 1];
    FieldsSpec(fs[..j], fs[j].0);
  }

  lemma {:induction false} FieldsSnoc(fs: seq<Field>, f: Field)
    ensures Fields(fs + [f]) == Fields(fs) + Optional(f.0, f.1)
    decreases |fs|
  {
    if |fs| == 0 {
      assert Fields([f]) == Optional(f.0, f.1) + Fields([]);
    } else {
      assert (fs + [f])[1..] == fs[1..] + [f];
      FieldsSnoc(fs[1..], f);
    }
  }

  /** The name of the i-th element of list parameter `prefix`: `prefix.i`. */
  function IndexedName(prefix: string, index: nat): string {
    prefix + "." + Decimal.FromNat(index)
  }

  /** `prefix.1`, `prefix.2`, ... for the elements of `values`, in list order. */
  function Indexed(prefix: string, values: seq<string>): seq<Parameter> {
    seq(|values|, i requires 0 <= i < |values| => (IndexedName(prefix, i + 1), FromString(values[i])))
  }

  /** Different indices give different names. */
  lemma IndexedNameInjective(prefix: string, i: nat, j: nat)
    ensures IndexedName(prefix, i) == IndexedName(prefix, j) ==> i == j
  {
    if IndexedName(prefix, i) == IndexedName(prefix, j) {
      var k := |prefix| + 1;
      assert IndexedName(prefix, i)[k..] == Decimal.FromNat(i);
      assert IndexedName(prefix, j)[k..] == Decimal.FromNat(j);
      Decimal.FromNatInjective(i, j);
    }
  }

  /**
   * A name shorter than every `prefix.i`, or starting with another letter,
   * is never an element name of `prefix`.
   */
  lemma NotIndexed(prefix: string, name: string, index: nat)
    requires |name| < |prefix| + 2 || (|prefix| > 0 && |name| > 0 && name[0] != prefix[0])
    ensures IndexedName(prefix, index) != name
  {
    var n := IndexedName(prefix, index);
    assert |n| >= |prefix| + 2;
    if |prefix| > 0 {
      assert n[0] == prefix[0];
    }
  }

  /**
   * A list parameter has exactly the names `prefix.1` to `prefix.N` for N
   * elements, each holding the element at that position: 1-based, in list
   * order, with no gap, no repeat and nothing past the end.
   */
  lemma IndexedSpec(prefix: string, values: seq<string>)
    ensures DistinctNames(Indexed(prefix, values))
    ensures |Indexed(prefix, values)| == |values|
    ensures forall k: nat :: ValueOf(Indexed(prefix, values), IndexedName(prefix, k))
                             == if 1 <= k <= |values| then Some(values[k - 1]) else None
    ensures forall i :: 0 <= i < |values| ==> exists k :: 1 <= k <= |values| && Indexed(prefix, values)[i].0 == IndexedName(prefix, k)
  {
    var ps := Indexed(prefix, values);
    forall i, j | 0 <= i < j < |ps|
      ensures ps[i].0 != ps[j].0
    {
      IndexedNameInjective(prefix, i + 1, j + 1);
    }
    forall k: nat
      ensures ValueOf(ps, IndexedName(prefix, k)) == if 1 <= k <= |values| then Some(values[k - 1]) else None
    {
      if 1 <= k <= |values| {
        assert ps[k - 1].0 == IndexedName(prefix, k);
      } else {
        forall i | 0 <= i < |ps|
          ensures ps[i].0 != IndexedName(prefix, k)
        {
          IndexedNameInjective(prefix, i + 1, k);
        }
      }
    }
    forall i | 0 <= i < |values|
      ensures exists k :: 1 <= k <= |values| && ps[i].0 == IndexedName(prefix, k)
    {
      assert ps[i].0 == IndexedName(prefix, i + 1);
    }
  }

  /** One more loop iteration appends the next element under the next index, a name not used yet. */
  lemma IndexedStep(prefix: string, values: seq<string>, k: nat)
    requires k < |values|
    ensures Indexed(prefix, values[..k + 1])
            == Indexed(prefix, values[..k]) + [(IndexedName(prefix, k + 1), FromString(values[k]))]
    ensures !HasParameter(Indexed(prefix, values[..k]), IndexedName(prefix, k + 1))
  {
    IndexedSpec(prefix, values[..k]);
  }

  /** No name that `NotIndexed` excludes occurs in a list parameter. */
  lemma IndexedLacks(prefix: string, values: seq<string>, name: string)
    requires |name| < |prefix| + 2 || (|prefix| > 0 && |name| > 0 && name[0] != prefix[0])
    ensures !HasParameter(Indexed(prefix, values), name)
  {
    var ps := Indexed(prefix, values);
    forall i | 0 <= i < |ps|
      ensures ps[i].0 != name
    {
      NotIndexed(prefix, name, i + 1);
    }
  }

  /** The request a marshaller builds: `DefaultRequest` with the fields marshallers set. */
  class WireRequest {
    const serviceName: string
    var parameters: seq<Parameter>
    var headers: map<string, string>
    var resourcePath: Option<string>
    var content: Option<string>

    constructor (serviceName: string)
      ensures this.serviceName == serviceName
      ensures parameters == [] && headers == map[] && resourcePath == None && content == None
    {
      this.serviceName := serviceName;
      parameters := [];
      headers := map[];
      resourcePath := None;
      content := None;
    }

    /** `Parameters.Add(name, value)`: a dictionary insertion, which throws on a name already present. */
    method AddParameter(name: string, value: string)
      requires !HasParameter(parameters, name)
      modifies this
      ensures parameters == old(parameters) + [(name, value)]
      ensures headers == old(headers) && resourcePath == old(resourcePath) && content == old(content)
    {
      parameters := parameters + [(name, value)];
    }

    /** `Headers[name] = value`: adds or overwrites one header. */
    method SetHeader(name: string, value: string)
      modifies this
      ensures headers == old(headers)[name := value]
      ensures parameters == old(parameters) && resourcePath == old(resourcePath) && content == old(content)
    {
      headers := headers[name := value];
    }

    method SetResourcePath(path: string)
      modifies this
      ensures resourcePath == Some(path)
      ensures parameters == old(parameters) && headers == old(headers) && content == old(content)
    {
      resourcePath := Some(path);
    }

    method SetContent(text: string)
      modifies this
      ensures content == Some(text)
      ensures parameters == old(parameters) && headers == old(headers) && resourcePath == old(resourcePath)
    {
      content := Some(text);
    }
  }

  /** The calls a marshaller makes on the JSON writer. */
  datatype JsonEvent = ObjectStart | PropertyName(name: string) | StringValue(text: string) | ObjectEnd

  /** A JSON string literal (escaping is not modelled). */
  function Quote(s: string): string {
    "\"" + s + "\""
  }

  /**
   * The text the writer emits for a sequence of calls; `afterStart` is
   * whether the previous call opened the object, so that a property name
   * gets no separating comma.
   */
  function Render(events: seq<JsonEvent>, afterStart: bool): string
    decreases |events|
  {
    if |events| == 0 then ""
    else
      match events[0]
      case ObjectStart => "{" + Render(events[1..], true)
      case PropertyName(n) => (if afterStart then "" else ",") + Quote(n) + ":" + Render(events[1..], false)
      case StringValue(s) => Quote(s) + Render(events[1..], false)
      case ObjectEnd => "}" + Render(events[1..], false)
  }

  /**
   * The members of a one-object call sequence (start, name/value pairs,
   * end), in the order written; `None` for any other sequence of calls.
   */
  function ObjectMembers(events: seq<JsonEvent>): Option<seq<(string, string)>> {
    if |events| >= 2 && events[0] == ObjectStart && events[|events| - 1] == ObjectEnd then
      PairsOf(events[1..|events| - 1])
    else None
  }

  function PairsOf(events: seq<JsonEvent>): Option<seq<(string, string)>>
    decreases |events|
  {
    if |events| == 0 then Some([])
    else if |events| >= 2 && events[0].PropertyName? && events[1].StringValue? then
      match PairsOf(events[2..])
      case Some(rest) => Some([(events[0].name, events[1].text)] + rest)
      case None => None
    else None
  }

  /** The call sequence that writes one object whose members are `members`, in order. */
  function ObjectEvents(members: seq<(string, string)>): seq<JsonEvent> {
    [ObjectStart] + PairEvents(members) + [ObjectEnd]
  }

  function PairEvents(members: seq<(string, string)>): seq<JsonEvent>
    decreases |members|
  {
    if |members| == 0 then []
    else [PropertyName(members[0].0), StringValue(members[0].1)] + PairEvents(members[1..])
  }

  /** Reading the members back from the calls that wrote them gives them back. */
  lemma {:induction false} ObjectMembersRoundTrip(members: seq<(string, string)>)
    ensures ObjectMembers(ObjectEvents(members)) == Some(members)
  {
    var es := ObjectEvents(members);
    assert es[1..|es| - 1] == PairEvents(members);
    PairsRoundTrip(members);
  }

  lemma {:induction false} PairsRoundTrip(members: seq<(string, string)>)
    ensures PairsOf(PairEvents(members)) == Some(members)
    decreases |members|
  {
    if |members| > 0 {
      var es := PairEvents(members);
      assert es[2..] == PairEvents(members[1..]);
      PairsRoundTrip(members[1..]);
      assert [members[0]] + members[1..] == members;
    }
  }

  /** Writing two runs of members one after the other writes their concatenation. */
  lemma {:induction false} PairEventsConcat(a: seq<(string, string)>, b: seq<(string, string)>)
    ensures PairEvents(a + b) == PairEvents(a) + PairEvents(b)
    decreases |a|
  {
    if |a| > 0 {
      assert (a + b)[1..] == a[1..] + b;
      PairEventsConcat(a[1..], b);
    } else {
      assert a + b == b;
    }
  }

  /** An optional member writes its name and value when present and nothing otherwise. */
  lemma PairEventsOptional(name: string, value: Option<string>)
    ensures PairEvents(Optional(name, value)) == if value.Some? then [PropertyName(name), StringValue(value.value)] else []
  {
    if value.Some? {
      assert Optional(name, value)[1..] == [];
    }
  }

  /** The object with no members is written as `{}`. */
  lemma EmptyObjectText()
    ensures Render(ObjectEvents([]), false) == "{}"
  {
    assert ObjectEvents([]) == [ObjectStart, ObjectEnd];
    assert Render([ObjectEnd], true) == "}" + Render([], false);
  }

  /** The streaming writer: it records the calls made on it. */
  class JsonWriter {
    var events: seq<JsonEvent>

    constructor ()
      ensures events == []
    {
      events := [];
    }

    /** The text written so far. */
    function Text(): string
      reads this
    {
      Render(events, false)
    }

    method WriteObjectStart()
      modifies this
      ensures events == old(events) + [ObjectStart]
    {
      events := events + [ObjectStart];
    }

    method WritePropertyName(name: string)
      modifies this
      ensures events == old(events) + [PropertyName(name)]
    {
      events := events + [PropertyName(name)];
    }

    method Write(text: string)
      modifies this
      ensures events == old(events) + [StringValue(text)]
    {
      events := events + [StringValue(text)];
    }

    method WriteObjectEnd()
      modifies this
      ensures events == old(events) + [ObjectEnd]
    {
      events := events + [ObjectEnd];
    }
  }
}
