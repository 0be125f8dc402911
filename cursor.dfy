// An explicit model of the unmarshaller context shared by the XML and JSON
// response unmarshallers: a finite sequence of tokens, each carrying its kind,
// its element or property name, the depth the context reports for it and its
// text, and a cursor position into that sequence.  Position -1 is the start of
// the document (nothing read yet), position |tokens| is the end of input.
module Cursor {
  import opened Wrappers
  import Decimal

  datatype TokenKind =
    | StartElement | EndElement | Attribute | TextNode          // XML reader
    | ObjectStart | ObjectEnd | ArrayStart | ArrayEnd           // JSON reader
    | PropertyName | ScalarValue | NullValue

  datatype Token = Token(kind: TokenKind, name: string, depth: int, text: Option<string>)

  /** Exceptions a decoding step can raise. */
  datatype UnmarshallError =
    | NotImplemented   // NotImplementedException of an unsupported context variant
    | NullText         // a number or flag was requested from a token without text
    | BadFormat        // the text is not a number or flag
    | OutOfRange       // the number does not fit the target type

  /** A decoded value together with the cursor position decoding ended at. */
  datatype Decoded<T> = Decoded(value: T, end: int)

  ghost predicate InCursorRange(ts: seq<Token>, p: int) {
    -1 <= p <= |ts|
  }

  function ValueOf<T>(r: Result<Decoded<T>, UnmarshallError>): Result<T, UnmarshallError> {
    match r
    case Success(d) => Success(d.value)
    case Failure(e) => Failure(e)
  }

  /** The position one Read moves to; reading at the end of input stays there. */
  function Next(ts: seq<Token>, p: int): int
    requires InCursorRange(ts, p)
  {
    if p < |ts| then p + 1 else |ts|
  }

  /** The depth the context reports; 0 before the first and after the last token. */
  function DepthAt(ts: seq<Token>, p: int): int {
    if 0 <= p < |ts| then ts[p].depth else 0
  }

  predicate KindIs(ts: seq<Token>, p: int, k: TokenKind) {
    0 <= p < |ts| && ts[p].kind == k
  }

  /** TestExpression for a plain name: the current token has that name and that depth. */
  predicate TestAt(ts: seq<Token>, p: int, name: string, d: int) {
    0 <= p < |ts| && ts[p].name == name && ts[p].depth == d
  }

  /** TestExpression, optionally restricted to start elements and attributes. */
  predicate Hit(ts: seq<Token>, p: int, name: string, d: int, elementsOnly: bool) {
    TestAt(ts, p, name, d) && (!elementsOnly || KindIs(ts, p, StartElement) || KindIs(ts, p, Attribute))
  }

  function TextAt(ts: seq<Token>, p: int): Option<string> {
    if 0 <= p < |ts| then ts[p].text else None
  }

  /** The last position strictly between lo and hi that Hit accepts. */
  function LastHit(ts: seq<Token>, lo: int, hi: int, name: string, d: int, elementsOnly: bool): (r: Option<int>)
    decreases hi - lo
    ensures r.Some? ==> lo < r.value < hi && Hit(ts, r.value, name, d, elementsOnly)
    ensures r.Some? ==> forall k :: r.value < k < hi ==> !Hit(ts, k, name, d, elementsOnly)
    ensures r.None? ==> forall k :: lo < k < hi ==> !Hit(ts, k, name, d, elementsOnly)
  {
    if hi <= lo + 1 then None
    else
      var rest := LastHit(ts, lo + 1, hi, name, d, elementsOnly);
      if rest.Some? then rest
      else if Hit(ts, lo + 1, name, d, elementsOnly) then Some(lo + 1)
      else None
  }

  /** Looking from one position earlier: a later hit still wins, else that position when it is a hit. */
  lemma LastHitFrom(ts: seq<Token>, lo: int, hi: int, name: string, d: int, elementsOnly: bool)
    requires lo < hi
    ensures LastHit(ts, lo - 1, hi, name, d, elementsOnly)
            == if LastHit(ts, lo, hi, name, d, elementsOnly).Some? then LastHit(ts, lo, hi, name, d, elementsOnly)
               else if Hit(ts, lo, name, d, elementsOnly) then Some(lo)
               else None
  {
  }

  /** Positions that Hit rejects can be skipped when looking for the last hit. */
  lemma {:induction false} LastHitSkip(ts: seq<Token>, lo: int, mid: int, hi: int, name: string, d: int, elementsOnly: bool)
    requires lo <= mid <= hi
    requires forall k :: lo < k <= mid ==> !Hit(ts, k, name, d, elementsOnly)
    ensures LastHit(ts, lo, hi, name, d, elementsOnly) == LastHit(ts, mid, hi, name, d, elementsOnly)
    decreases mid - lo
  {
    if lo < mid && lo + 1 < hi {
      LastHitSkip(ts, lo + 1, mid, hi, name, d, elementsOnly);
    }
  }

  /** Scanning from q on, the last position of the run of tokens deeper than d. */
  function SubtreeEndFrom(ts: seq<Token>, d: int, q: int): (e: int)
    requires 0 < q <= |ts|
    decreases |ts| - q
    ensures q - 1 <= e < |ts|
    ensures forall k :: q <= k <= e ==> ts[k].depth > d
    ensures e + 1 == |ts| || ts[e + 1].depth <= d
  {
    if q == |ts| || ts[q].depth <= d then q - 1 else SubtreeEndFrom(ts, d, q + 1)
  }

  /**
   * The last token of the subtree rooted at p: every token after p that is
   * deeper than p, up to the first one that is not.  A nested unmarshaller
   * (a list, an attribute set, response metadata) consumes exactly this range.
   */
  function SubtreeEnd(ts: seq<Token>, p: int): (e: int)
    requires 0 <= p < |ts|
    ensures p <= e < |ts|
    ensures forall k :: p < k <= e ==> ts[k].depth > ts[p].depth
    ensures e + 1 == |ts| || ts[e + 1].depth <= ts[p].depth
  {
    SubtreeEndFrom(ts, ts[p].depth, p + 1)
  }

  /** The value a nested unmarshaller produces: the tokens it consumed. */
  function Subtree(ts: seq<Token>, p: int): seq<Token>
    requires 0 <= p < |ts|
  {
    ts[p..SubtreeEnd(ts, p) + 1]
  }

  // Leaf unmarshallers decode the current token and do not move the cursor.

  /** StringUnmarshaller: the token's text, null when it has none. */
  function StringValue(ts: seq<Token>, p: int): Option<string> {
    TextAt(ts, p)
  }

  const MinInt32: int := -0x8000_0000
  const MaxInt32: int := 0x7FFF_FFFF
  const MinInt64: int := -0x8000_0000_0000_0000
  const MaxInt64: int := 0x7FFF_FFFF_FFFF_FFFF

  function IntegerValue(ts: seq<Token>, p: int, lo: int, hi: int): (r: Result<int, UnmarshallError>)
    ensures r.Success? ==> lo <= r.value <= hi
    ensures r.Success? <==> TextAt(ts, p).Some? && Decimal.ParseInt(TextAt(ts, p).value).Some?
                            && lo <= Decimal.ParseInt(TextAt(ts, p).value).value <= hi
  {
    match TextAt(ts, p)
    case None => Failure(NullText)
    case Some(s) =>
      match Decimal.ParseInt(s)
      case None => Failure(BadFormat)
      case Some(n) => if lo <= n <= hi then Success(n) else Failure(OutOfRange)
  }

  /** IntUnmarshaller: a decimal number within the 32-bit signed range. */
  function IntValue(ts: seq<Token>, p: int): Result<int, UnmarshallError> {
    IntegerValue(ts, p, MinInt32, MaxInt32)
  }

  /** LongUnmarshaller: a decimal number within the 64-bit signed range. */
  function LongValue(ts: seq<Token>, p: int): Result<int, UnmarshallError> {
    IntegerValue(ts, p, MinInt64, MaxInt64)
  }

  /** BoolUnmarshaller: the JSON literals and their .NET spellings.  This
      narrows `bool.Parse`, which also ignores case and surrounding white
      space: only these four spellings are accepted. */
  function BoolValue(ts: seq<Token>, p: int): (r: Result<bool, UnmarshallError>)
    ensures r.Success? ==> TextAt(ts, p) == Some(if r.value then "true" else "false")
                           || TextAt(ts, p) == Some(if r.value then "True" else "False")
    ensures TextAt(ts, p) == Some("true") || TextAt(ts, p) == Some("True") ==> r == Success(true)
    ensures TextAt(ts, p) == Some("false") || TextAt(ts, p) == Some("False") ==> r == Success(false)
    ensures TextAt(ts, p).None? ==> r == Failure(NullText)
  {
    match TextAt(ts, p)
    case None => Failure(NullText)
    case Some(s) =>
      if s == "true" || s == "True" then Success(true)
      else if s == "false" || s == "False" then Success(false)
      else Failure(BadFormat)
  }

  /** A number written in canonical decimal form decodes back to itself. */
  lemma IntegerValueRoundTrip(ts: seq<Token>, p: int, lo: int, hi: int, n: int)
    requires TextAt(ts, p) == Some(Decimal.FromInt(n)) && lo <= n <= hi
    ensures IntegerValue(ts, p, lo, hi) == Success(n)
  {
    Decimal.ParseFromInt(n);
  }

  /** A number beyond the target range is rejected, never truncated. */
  lemma IntegerValueNeverWraps(ts: seq<Token>, p: int, lo: int, hi: int, n: int)
    requires TextAt(ts, p) == Some(Decimal.FromInt(n)) && !(lo <= n <= hi)
    ensures IntegerValue(ts, p, lo, hi) == Failure(OutOfRange)
  {
    Decimal.ParseFromInt(n);
  }

  /**
   * The unmarshaller context: the token sequence and the cursor.  Every
   * unmarshaller shares one context and advances it.
   */
  class UnmarshallerContext {
    const tokens: seq<Token>
    var pos: int

    ghost predicate Valid()
      reads this
    {
      InCursorRange(tokens, pos)
    }

    constructor (ts: seq<Token>)
      ensures tokens == ts && pos == -1 && Valid()
    {
      tokens := ts;
      pos := -1;
    }

    function CurrentDepth(): int
      reads this
    {
      DepthAt(tokens, pos)
    }

    predicate IsStartOfDocument()
      reads this
    {
      pos == -1
    }

    predicate IsStartElement()
      reads this
    {
      KindIs(tokens, pos, StartElement)
    }

    predicate IsAttribute()
      reads this
    {
      KindIs(tokens, pos, Attribute)
    }

    predicate IsEndElement()
      reads this
    {
      KindIs(tokens, pos, EndElement)
    }

    predicate IsNullToken()
      reads this
    {
      KindIs(tokens, pos, NullValue)
    }

    predicate TestExpression(name: string, d: int)
      reads this
    {
      TestAt(tokens, pos, name, d)
    }

    /** Advances one token; false once the input is exhausted. */
    method Read() returns (more: bool)
      requires Valid()
      modifies this
      ensures Valid()
      ensures pos == Next(tokens, old(pos))
      ensures more <==> pos < |tokens|
    {
      if pos < |tokens| {
        pos := pos + 1;
      }
      more := pos < |tokens|;
    }

    /** Advances one token; true iff a token was read and it is at least d deep. */
    method ReadAtDepth(d: int) returns (more: bool)
      requires Valid()
      modifies this
      ensures Valid()
      ensures pos == Next(tokens, old(pos))
      ensures more <==> pos < |tokens| && tokens[pos].depth >= d
    {
      more := Read();
      more := more && CurrentDepth() >= d;
    }

    /** A nested unmarshaller positioned on p consumes the subtree rooted at p. */
    method ReadSubtree() returns (value: seq<Token>)
      requires Valid() && 0 <= pos < |tokens|
      modifies this
      ensures Valid()
      ensures pos == SubtreeEnd(tokens, old(pos))
      ensures value == Subtree(tokens, old(pos))
    {
      value := Subtree(tokens, pos);
      pos := SubtreeEnd(tokens, pos);
    }
  }
}
