/** The record key of a relationship: JSON, UTF-8 and base64url, each with a left inverse. The browser and the
    server make it with different JSON coders. */
module RelationshipKeys {
  import opened Results

  /** A JavaScript string is a sequence of UTF-16 code units, paired or not. */
  type CodeUnit = n: int | 0 <= n < 0x10000

  type Byte = n: int | 0 <= n < 0x100

  type Sextet = n: int | 0 <= n < 64

  type Units = seq<CodeUnit>

  const QUOTE: CodeUnit := 0x22
  const BACKSLASH: CodeUnit := 0x5C
  const COMMA: CodeUnit := 0x2C
  const OPEN: CodeUnit := 0x5B
  const CLOSE: CodeUnit := 0x5D
  const LETTER_U: CodeUnit := 0x75
  const REPLACEMENT: CodeUnit := 0xFFFD
  const MAXIMUM_PART_BYTES := 200

  /** `JSON.stringify` of the browser, or `json.Marshal` of the server. */
  datatype Coder = Browser | Server

  /** What the server escapes so that JSON can stand inside HTML and JavaScript: ampersand, angle brackets and the
      two separators of lines and paragraphs. */
  predicate IsMarkup(u: CodeUnit) {
    u == 0x26 || u == 0x3C || u == 0x3E || u == 0x2028 || u == 0x2029
  }

  predicate IsHigh(u: CodeUnit) {
    0xD800 <= u < 0xDC00
  }

  predicate IsLow(u: CodeUnit) {
    0xDC00 <= u < 0xE000
  }

  predicate StartsPair(s: Units) {
    |s| >= 2 && IsHigh(s[0]) && IsLow(s[1])
  }

  // ----- text and its code units -----

  /** A code point in one unit, or in two above the basic plane. */
  function Split(code: int): Units
    requires 0 <= code < 0x110000
  {
    if code < 0x10000 then [code] else [0xD800 + (code - 0x10000) / 0x400, 0xDC00 + (code - 0x10000) % 0x400]
  }

  function Joined(high: int, low: int): int {
    0x10000 + (high - 0xD800) * 0x400 + (low - 0xDC00)
  }

  function UnitsOf(text: string): Units {
    if text == "" then [] else Split(text[0] as int) + UnitsOf(text[1..])
  }

  /** Reads code units back; a lone surrogate reads as the replacement character. */
  function TextOf(s: Units): string {
    if s == [] then ""
    else if StartsPair(s) then [Joined(s[0], s[1]) as char] + TextOf(s[2..])
    else if IsHigh(s[0]) || IsLow(s[0]) then [REPLACEMENT as char] + TextOf(s[1..])
    else [s[0] as char] + TextOf(s[1..])
  }

  lemma {:induction false} TextOfUnits(text: string)
    ensures TextOf(UnitsOf(text)) == text
  {
    if text != "" {
      TextOfUnits(text[1..]);
      var piece, rest := Split(text[0] as int), UnitsOf(text[1..]);
      assert (piece + rest)[|piece|..] == rest;
    }
  }

  // ----- JSON strings: section 7 of RFC 8259 -----

  function Hex(digit: int): CodeUnit
    requires 0 <= digit < 16
  {
    if digit < 10 then 0x30 + digit else 0x61 + (digit - 10)
  }

  function HexDigit(u: CodeUnit): Option<int> {
    if 0x30 <= u <= 0x39 then Some(u - 0x30) else if 0x61 <= u <= 0x66 then Some(u - 0x61 + 10) else None
  }

  /** One code unit of a string; a surrogate outside a pair is escaped. */
  function Escape(coder: Coder, u: CodeUnit): Units {
    if u == QUOTE || u == BACKSLASH then [BACKSLASH, u]
    else if u == 0x08 then [BACKSLASH, 0x62]
    else if u == 0x0C then [BACKSLASH, 0x66]
    else if u == 0x0A then [BACKSLASH, 0x6E]
    else if u == 0x0D then [BACKSLASH, 0x72]
    else if u == 0x09 then [BACKSLASH, 0x74]
    else if u < 0x20 || IsHigh(u) || IsLow(u) || (coder.Server? && IsMarkup(u))
    then [BACKSLASH, LETTER_U, Hex(u / 0x1000), Hex(u / 0x100 % 16), Hex(u / 0x10 % 16), Hex(u % 16)]
    else [u]
  }

  function Body(coder: Coder, s: Units): Units {
    if s == [] then []
    else if StartsPair(s) then [s[0], s[1]] + Body(coder, s[2..])
    else Escape(coder, s[0]) + Body(coder, s[1..])
  }

  function Quoted(coder: Coder, s: Units): Units {
    [QUOTE] + (Body(coder, s) + [QUOTE])
  }

  /** The array of three strings. */
  function Stringify(coder: Coder, a: Units, b: Units, c: Units): Units {
    [OPEN] + Quoted(coder, a) + ([COMMA] + Quoted(coder, b) + ([COMMA] + Quoted(coder, c) + [CLOSE]))
  }

  /** Reads one code unit of a string's body: what it is and how many units it takes. */
  function ReadUnit(t: Units): (r: Option<(CodeUnit, nat)>)
    ensures r.Some? ==> 0 < r.value.1 <= |t|
  {
    if t == [] then None
    else if t[0] != BACKSLASH then Some((t[0], 1))
    else if |t| < 2 then None
    else if t[1] == QUOTE || t[1] == BACKSLASH then Some((t[1], 2))
    else if t[1] == 0x62 then Some((0x08, 2))
    else if t[1] == 0x66 then Some((0x0C, 2))
    else if t[1] == 0x6E then Some((0x0A, 2))
    else if t[1] == 0x72 then Some((0x0D, 2))
    else if t[1] == 0x74 then Some((0x09, 2))
    else if t[1] == LETTER_U && |t| >= 6 then
      match (HexDigit(t[2]), HexDigit(t[3]), HexDigit(t[4]), HexDigit(t[5]))
      case (Some(a), Some(b), Some(c), Some(d)) => Some((a * 0x1000 + b * 0x100 + c * 0x10 + d, 6))
      case _ => None
    else None
  }

  /** Reads up to the closing quote and returns what follows it. */
  function ReadBody(t: Units): Option<(Units, Units)>
    decreases |t|
  {
    if t == [] then None
    else if t[0] == QUOTE then Some(([], t[1..]))
    else
      match ReadUnit(t)
      case None => None
      case Some((u, length)) =>
        match ReadBody(t[length..])
        case None => None
        case Some((s, rest)) => Some(([u] + s, rest))
  }

  lemma EscapeStarts(coder: Coder, u: CodeUnit)
    ensures 1 <= |Escape(coder, u)| <= 6 && Escape(coder, u)[0] != QUOTE
  {
  }

  lemma ReadEscaped(coder: Coder, u: CodeUnit, rest: Units)
    ensures Escape(coder, u) != [] && Escape(coder, u)[0] != QUOTE
    ensures ReadUnit(Escape(coder, u) + rest) == Some((u, |Escape(coder, u)|))
  {
    hide Escape, ReadUnit;
    EscapeStarts(coder, u);
    if |Escape(coder, u)| == 6 {
      ReadLong(coder, u, rest);
    } else {
      ReadShort(coder, u, rest);
    }
  }

  lemma FourDigits(u: CodeUnit)
    ensures u == u / 0x1000 * 0x1000 + u / 0x100 % 16 * 0x100 + u / 0x10 % 16 * 0x10 + u % 16
    ensures 0 <= u / 0x1000 < 16
  {
    DivideBySteps(u);
    var a, b, c := u / 0x10, u / 0x100, u / 0x1000;
    assert u == a * 0x10 + u % 16;
    assert a == b * 0x10 + a % 16;
    assert b == c * 0x10 + b % 16;
  }

  lemma DivideBySteps(u: CodeUnit)
    ensures u / 0x100 == u / 0x10 / 0x10 && u / 0x1000 == u / 0x100 / 0x10
  {
  }

  lemma ReadLong(coder: Coder, u: CodeUnit, rest: Units)
    requires |Escape(coder, u)| == 6
    ensures ReadUnit(Escape(coder, u) + rest) == Some((u, 6))
  {
    hide Hex, HexDigit, ReadUnit;
    FourDigits(u);
    HexIsRead(u / 0x1000);
    HexIsRead(u / 0x100 % 16);
    HexIsRead(u / 0x10 % 16);
    HexIsRead(u % 16);
    ReadHex(u, Hex(u / 0x1000), Hex(u / 0x100 % 16), Hex(u / 0x10 % 16), Hex(u % 16), rest);
  }

  lemma HexIsRead(digit: int)
    requires 0 <= digit < 16
    ensures HexDigit(Hex(digit)) == Some(digit)
  {
  }

  lemma ReadHex(u: CodeUnit, a: CodeUnit, b: CodeUnit, c: CodeUnit, d: CodeUnit, rest: Units)
    requires HexDigit(a).Some? && HexDigit(b).Some? && HexDigit(c).Some? && HexDigit(d).Some?
    requires u == HexDigit(a).value * 0x1000 + HexDigit(b).value * 0x100 + HexDigit(c).value * 0x10 + HexDigit(d).value
    ensures ReadUnit([BACKSLASH, LETTER_U, a, b, c, d] + rest) == Some((u, 6))
  {
    hide HexDigit;
    var t := [BACKSLASH, LETTER_U, a, b, c, d] + rest;
    assert t[1] == LETTER_U && t[2] == a && t[3] == b && t[4] == c && t[5] == d;
  }

  lemma ReadShort(coder: Coder, u: CodeUnit, rest: Units)
    requires |Escape(coder, u)| < 6
    ensures ReadUnit(Escape(coder, u) + rest) == Some((u, |Escape(coder, u)|))
  {
    hide HexDigit, Hex;
    var t := Escape(coder, u) + rest;
    assert t[0] == Escape(coder, u)[0] && (|Escape(coder, u)| == 2 ==> t[1] == Escape(coder, u)[1]);
  }

  lemma ReadPiece(piece: Units, u: CodeUnit, tail: Units)
    requires piece != [] && piece[0] != QUOTE && ReadUnit(piece + tail) == Some((u, |piece|))
    requires ReadBody(tail).Some?
    ensures ReadBody(piece + tail) == Some(([u] + ReadBody(tail).value.0, ReadBody(tail).value.1))
  {
    assert (piece + tail)[|piece|..] == tail;
  }

  lemma ReadPair(a: CodeUnit, b: CodeUnit, tail: Units)
    requires IsHigh(a) && IsLow(b) && ReadBody(tail).Some?
    ensures ReadBody([a, b] + tail) == Some(([a, b] + ReadBody(tail).value.0, ReadBody(tail).value.1))
  {
    ReadPiece([b], b, tail);
    ReadPiece([a], a, [b] + tail);
    assert [a, b] + tail == [a] + ([b] + tail);
    assert [a] + ([b] + ReadBody(tail).value.0) == [a, b] + ReadBody(tail).value.0;
  }

  lemma ReadOne(coder: Coder, u: CodeUnit, tail: Units)
    requires ReadBody(tail).Some?
    ensures ReadBody(Escape(coder, u) + tail) == Some(([u] + ReadBody(tail).value.0, ReadBody(tail).value.1))
  {
    ReadEscaped(coder, u, tail);
    ReadPiece(Escape(coder, u), u, tail);
  }

  lemma Reassociate(a: Units, b: Units, c: Units)
    ensures (a + b) + c == a + (b + c)
  {
  }

  /** A body reads back as the string it was written from, whatever follows it. */
  lemma {:induction false} ReadBack(coder: Coder, s: Units, rest: Units)
    ensures ReadBody(Body(coder, s) + ([QUOTE] + rest)) == Some((s, rest))
    decreases |s|
  {
    var end := [QUOTE] + rest;
    if s == [] {
      assert Body(coder, s) + end == end && end[1..] == rest;
    } else if StartsPair(s) {
      ReadBack(coder, s[2..], rest);
      ReadPair(s[0], s[1], Body(coder, s[2..]) + end);
      Reassociate([s[0], s[1]], Body(coder, s[2..]), end);
      assert s == [s[0], s[1]] + s[2..];
    } else {
      ReadBack(coder, s[1..], rest);
      ReadOne(coder, s[0], Body(coder, s[1..]) + end);
      Reassociate(Escape(coder, s[0]), Body(coder, s[1..]), end);
      assert s == [s[0]] + s[1..];
    }
  }

  /** Reads one string after the two units before its body. */
  function ReadNext(t: Units): Option<(Units, Units)> {
    if |t| < 2 then None else ReadBody(t[2..])
  }

  function Parse(t: Units): Option<(Units, Units, Units)> {
    match ReadNext(t)
    case None => None
    case Some((a, afterA)) =>
      match ReadNext(afterA)
      case None => None
      case Some((b, afterB)) =>
        match ReadNext(afterB)
        case None => None
        case Some((c, _)) => Some((a, b, c))
  }

  lemma ReadsNext(coder: Coder, before: CodeUnit, s: Units, rest: Units)
    ensures ReadNext([before] + Quoted(coder, s) + rest) == Some((s, rest))
  {
    hide Body, ReadBody;
    ReadBack(coder, s, rest);
    assert ([before] + Quoted(coder, s) + rest)[2..] == Body(coder, s) + ([QUOTE] + rest);
  }

  /** What either coder writes for three strings reads back as them. */
  lemma ParseStringified(coder: Coder, a: Units, b: Units, c: Units)
    ensures Parse(Stringify(coder, a, b, c)) == Some((a, b, c))
  {
    var afterB := [COMMA] + Quoted(coder, c) + [CLOSE];
    var afterA := [COMMA] + Quoted(coder, b) + afterB;
    ReadsNext(coder, COMMA, c, [CLOSE]);
    ReadsNext(coder, COMMA, b, afterB);
    ReadsNext(coder, OPEN, a, afterA);
  }

  // ----- UTF-8: section 3 of RFC 3629 -----

  /** Every surrogate is part of a pair. */
  predicate WellFormed(s: Units) {
    if s == [] then true
    else if StartsPair(s) then WellFormed(s[2..])
    else !IsHigh(s[0]) && !IsLow(s[0]) && WellFormed(s[1..])
  }

  function EncodePoint(code: int): seq<Byte>
    requires 0 <= code < 0x110000
  {
    var a, b, c := code / 0x40, code / 0x40 / 0x40, code / 0x40 / 0x40 / 0x40;
    if code < 0x80 then [code]
    else if code < 0x800 then [0xC0 + a, 0x80 + code % 0x40]
    else if code < 0x10000 then [0xE0 + b, 0x80 + a % 0x40, 0x80 + code % 0x40]
    else [0xF0 + c, 0x80 + b % 0x40, 0x80 + a % 0x40, 0x80 + code % 0x40]
  }

  /** `TextEncoder`: a lone surrogate is encoded as the replacement character. */
  function Utf8(s: Units): seq<Byte> {
    if s == [] then []
    else if StartsPair(s) then EncodePoint(Joined(s[0], s[1])) + Utf8(s[2..])
    else EncodePoint(if IsHigh(s[0]) || IsLow(s[0]) then REPLACEMENT else s[0]) + Utf8(s[1..])
  }

  function Utf8Length(s: Units): nat {
    if s == [] then 0
    else if StartsPair(s) then 4 + Utf8Length(s[2..])
    else (if s[0] < 0x80 then 1 else if s[0] < 0x800 then 2 else 3) + Utf8Length(s[1..])
  }

  lemma {:induction false} Utf8LengthIs(s: Units)
    ensures Utf8Length(s) == |Utf8(s)|
    decreases |s|
  {
    if s != [] {
      if StartsPair(s) {
        Utf8LengthIs(s[2..]);
      } else {
        Utf8LengthIs(s[1..]);
      }
    }
  }

  /** The code point at the front of encoded text and its length in bytes. */
  function DecodePoint(t: seq<int>): (r: (int, nat))
    requires t != []
    ensures r.1 > 0
  {
    if |t| >= 4 && t[0] >= 0xF0 then ((((t[0] - 0xF0) * 0x40 + (t[1] - 0x80)) * 0x40 + (t[2] - 0x80)) * 0x40 + (t[3] - 0x80), 4)
    else if |t| >= 3 && 0xE0 <= t[0] < 0xF0 then (((t[0] - 0xE0) * 0x40 + (t[1] - 0x80)) * 0x40 + (t[2] - 0x80), 3)
    else if |t| >= 2 && 0xC0 <= t[0] < 0xE0 then ((t[0] - 0xC0) * 0x40 + (t[1] - 0x80), 2)
    else (t[0], 1)
  }

  function FromUtf8(t: seq<int>): Units
    decreases |t|
  {
    if t == [] then []
    else
      var (code, length) := DecodePoint(t);
      if length > |t| || !(0 <= code < 0x110000) then [] else Split(code) + FromUtf8(t[length..])
  }

  lemma DecodeEncoded(code: int, rest: seq<int>)
    requires 0 <= code < 0x110000
    ensures DecodePoint(EncodePoint(code) + rest) == (code, |EncodePoint(code)|)
  {
    var piece: seq<int> := EncodePoint(code);
    var t := piece + rest;
    assert forall i | 0 <= i < |piece| :: t[i] == piece[i];
  }

  lemma DecodeNext(code: int, rest: seq<int>)
    requires 0 <= code < 0x110000
    ensures FromUtf8(EncodePoint(code) + rest) == Split(code) + FromUtf8(rest)
  {
    DecodeEncoded(code, rest);
    assert (EncodePoint(code) + rest)[|EncodePoint(code)|..] == rest;
  }

  lemma SplitJoined(high: CodeUnit, low: CodeUnit)
    requires IsHigh(high) && IsLow(low)
    ensures 0 <= Joined(high, low) < 0x110000 && Split(Joined(high, low)) == [high, low]
  {
  }

  /** Well-formed text reads back from its encoding. */
  lemma {:induction false} DecodeUtf8(s: Units)
    requires WellFormed(s)
    ensures FromUtf8(Utf8(s)) == s
    decreases |s|
  {
    if s != [] {
      if StartsPair(s) {
        DecodeUtf8(s[2..]);
        SplitJoined(s[0], s[1]);
        DecodeNext(Joined(s[0], s[1]), Utf8(s[2..]));
        assert s == [s[0], s[1]] + s[2..];
      } else {
        DecodeUtf8(s[1..]);
        DecodeNext(s[0], Utf8(s[1..]));
        assert s == [s[0]] + s[1..];
      }
    }
  }

  lemma {:induction false} WellFormedJoin(a: Units, b: Units)
    requires WellFormed(a) && WellFormed(b)
    ensures WellFormed(a + b)
    decreases |a|
  {
    if a == [] {
      assert a + b == b;
    } else if StartsPair(a) {
      assert (a + b)[2..] == a[2..] + b;
      WellFormedJoin(a[2..], b);
    } else {
      assert (a + b)[1..] == a[1..] + b;
      WellFormedJoin(a[1..], b);
    }
  }

  predicate NoSurrogates(s: Units) {
    forall u <- s :: !IsHigh(u) && !IsLow(u)
  }

  lemma {:induction false} NoSurrogatesIsWellFormed(s: Units)
    requires NoSurrogates(s)
    ensures WellFormed(s)
  {
    if s != [] {
      assert s[0] in s;
      NoSurrogatesIsWellFormed(s[1..]);
    }
  }

  /** JSON text is well formed whatever the string was. */
  lemma {:induction false} BodyIsWellFormed(coder: Coder, s: Units)
    ensures WellFormed(Body(coder, s))
    decreases |s|
  {
    if s != [] {
      if StartsPair(s) {
        BodyIsWellFormed(coder, s[2..]);
        assert ([s[0], s[1]] + Body(coder, s[2..]))[2..] == Body(coder, s[2..]);
      } else {
        BodyIsWellFormed(coder, s[1..]);
        NoSurrogatesIsWellFormed(Escape(coder, s[0]));
        WellFormedJoin(Escape(coder, s[0]), Body(coder, s[1..]));
      }
    }
  }

  lemma QuotedIsWellFormed(coder: Coder, s: Units)
    ensures WellFormed(Quoted(coder, s))
  {
    BodyIsWellFormed(coder, s);
    NoSurrogatesIsWellFormed([QUOTE]);
    WellFormedJoin(Body(coder, s), [QUOTE]);
    WellFormedJoin([QUOTE], Body(coder, s) + [QUOTE]);
  }

  lemma StringifyIsWellFormed(coder: Coder, a: Units, b: Units, c: Units)
    ensures WellFormed(Stringify(coder, a, b, c))
  {
    var third, second := [COMMA] + Quoted(coder, c) + [CLOSE], [COMMA] + Quoted(coder, b) + ([COMMA] + Quoted(coder, c) + [CLOSE]);
    NoSurrogatesIsWellFormed([CLOSE]);
    NextIsWellFormed(coder, COMMA, c, [CLOSE]);
    NextIsWellFormed(coder, COMMA, b, third);
    NextIsWellFormed(coder, OPEN, a, second);
  }

  lemma NextIsWellFormed(coder: Coder, before: CodeUnit, s: Units, rest: Units)
    requires !IsHigh(before) && !IsLow(before) && WellFormed(rest)
    ensures WellFormed([before] + Quoted(coder, s) + rest)
  {
    NoSurrogatesIsWellFormed([before]);
    QuotedIsWellFormed(coder, s);
    WellFormedJoin([before], Quoted(coder, s));
    WellFormedJoin([before] + Quoted(coder, s), rest);
  }

  // ----- base64: sections 4 and 5 of RFC 4648 -----

  /** Three bytes make four digits; one or two bytes at the end make two or three. */
  function Digits(t: seq<Byte>): seq<Sextet> {
    if t == [] then []
    else if |t| == 1 then [t[0] / 4, t[0] % 4 * 16]
    else if |t| == 2 then [t[0] / 4, t[0] % 4 * 16 + t[1] / 16, t[1] % 16 * 4]
    else [t[0] / 4, t[0] % 4 * 16 + t[1] / 16, t[1] % 16 * 4 + t[2] / 64, t[2] % 64] + Digits(t[3..])
  }

  function Bytes(digits: seq<int>): seq<int> {
    if |digits| < 2 then []
    else
      var a, b := digits[0], digits[1];
      if |digits| == 2 then [a * 4 + b / 16]
      else
        var c := digits[2];
        if |digits| == 3 then [a * 4 + b / 16, b % 16 * 16 + c / 4]
        else [a * 4 + b / 16, b % 16 * 16 + c / 4, c % 4 * 64 + digits[3]] + Bytes(digits[4..])
  }

  lemma {:induction false} BytesOfDigits(t: seq<Byte>)
    ensures Bytes(Digits(t)) == t
    decreases |t|
  {
    if |t| >= 3 {
      BytesOfDigits(t[3..]);
      assert Digits(t)[4..] == Digits(t[3..]);
      assert t == [t[0], t[1], t[2]] + t[3..];
    }
  }

  function Letter(v: Sextet): char {
    if v < 26 then (0x41 + v) as char
    else if v < 52 then (0x61 + (v - 26)) as char
    else if v < 62 then (0x30 + (v - 52)) as char
    else if v == 62 then '+'
    else '/'
  }

  function Letters(digits: seq<Sextet>): string {
    if digits == [] then "" else [Letter(digits[0])] + Letters(digits[1..])
  }

  function Padding(length: nat): string {
    if length % 3 == 1 then "==" else if length % 3 == 2 then "=" else ""
  }

  /** Padded base64, as `btoa` writes it. */
  function Btoa(t: seq<Byte>): string {
    Letters(Digits(t)) + Padding(|t|)
  }

  function ReplaceAll(text: string, from: char, to: char): string {
    if text == "" then "" else [if text[0] == from then to else text[0]] + ReplaceAll(text[1..], from, to)
  }

  function TrimPadding(text: string): string {
    if text != "" && text[|text| - 1] == '=' then TrimPadding(text[..|text| - 1]) else text
  }

  function ReplaceLetters(text: string): string {
    ReplaceAll(ReplaceAll(text, '+', '-'), '/', '_')
  }

  function Base64Url(t: seq<Byte>): string {
    TrimPadding(ReplaceLetters(Btoa(t)))
  }

  /** The value of a letter of the URL alphabet. */
  function Value(letter: char): int {
    if 'A' <= letter <= 'Z' then letter as int - 0x41
    else if 'a' <= letter <= 'z' then letter as int - 0x61 + 26
    else if '0' <= letter <= '9' then letter as int - 0x30 + 52
    else if letter == '-' then 62
    else 63
  }

  function Values(text: string): (r: seq<int>)
    ensures |r| == |text| && forall i | 0 <= i < |text| :: r[i] == Value(text[i])
  {
    if text == "" then [] else [Value(text[0])] + Values(text[1..])
  }

  lemma {:induction false} LettersAre(digits: seq<Sextet>)
    ensures |Letters(digits)| == |digits| && forall i | 0 <= i < |digits| :: Letters(digits)[i] == Letter(digits[i])
  {
    if digits != [] {
      LettersAre(digits[1..]);
    }
  }

  lemma {:induction false} ReplacedAre(text: string, from: char, to: char)
    ensures |ReplaceAll(text, from, to)| == |text|
    ensures forall i | 0 <= i < |text| :: ReplaceAll(text, from, to)[i] == if text[i] == from then to else text[i]
  {
    if text != "" {
      ReplacedAre(text[1..], from, to);
    }
  }

  lemma ReplacedLetters(text: string)
    ensures |ReplaceLetters(text)| == |text|
    ensures forall i | 0 <= i < |text| ::
      ReplaceLetters(text)[i] == if text[i] == '+' then '-' else if text[i] == '/' then '_' else text[i]
  {
    ReplacedAre(text, '+', '-');
    ReplacedAre(ReplaceAll(text, '+', '-'), '/', '_');
  }

  lemma ReplacedEnds(text: string, padding: string)
    requires forall i | 0 <= i < |padding| :: padding[i] == '='
    ensures ReplaceLetters(text + padding) == ReplaceLetters(text) + padding
  {
    hide ReplaceLetters;
    ReplacedLetters(text);
    ReplacedLetters(text + padding);
  }

  lemma LettersRead(digits: seq<Sextet>)
    ensures
      var replaced := ReplaceLetters(Letters(digits));
      |replaced| == |digits| && forall i | 0 <= i < |digits| :: replaced[i] != '=' && Value(replaced[i]) == digits[i]
  {
    hide ReplaceLetters, Letters;
    LettersAre(digits);
    ReplacedLetters(Letters(digits));
  }

  lemma TrimOne(text: string)
    ensures TrimPadding(text + "=") == TrimPadding(text)
  {
    assert (text + "=")[..|text|] == text;
  }

  lemma TrimPadded(text: string, length: nat)
    requires text == "" || text[|text| - 1] != '='
    ensures TrimPadding(text + Padding(length)) == text
  {
    if length % 3 == 1 {
      assert text + "==" == (text + "=") + "=";
      TrimOne(text + "=");
      TrimOne(text);
    } else if length % 3 == 2 {
      TrimOne(text);
    } else {
      assert text + "" == text;
    }
  }

  /** The three calls leave one letter of the URL alphabet for each digit, and no padding. */
  lemma TrimmedLetters(t: seq<Byte>)
    ensures |Base64Url(t)| == |Digits(t)| && Values(Base64Url(t)) == Digits(t)
  {
    hide ReplaceLetters, Letters, Digits, Padding, TrimPadding, Value, Values;
    LettersRead(Digits(t));
    PaddingIsEqualSigns(|t|);
    ReplacedEnds(Letters(Digits(t)), Padding(|t|));
    TrimPadded(ReplaceLetters(Letters(Digits(t))), |t|);
  }

  lemma PaddingIsEqualSigns(length: nat)
    ensures forall i | 0 <= i < |Padding(length)| :: Padding(length)[i] == '='
  {
  }

  /** Unpadded base64url reads back as the bytes. */
  lemma DecodeBase64Url(t: seq<Byte>)
    ensures Bytes(Values(Base64Url(t))) == t
  {
    TrimmedLetters(t);
    BytesOfDigits(t);
  }

  // ----- the key -----

  const PREFIX := "relationship:"

  /** `base64.RawURLEncoding`. */
  function UrlLetter(v: Sextet): char {
    if v == 62 then '-' else if v == 63 then '_' else Letter(v)
  }

  function UrlLetters(digits: seq<Sextet>): string {
    if digits == [] then "" else [UrlLetter(digits[0])] + UrlLetters(digits[1..])
  }

  lemma {:induction false} UrlLettersAre(digits: seq<Sextet>)
    ensures |UrlLetters(digits)| == |digits| && forall i | 0 <= i < |digits| :: UrlLetters(digits)[i] == UrlLetter(digits[i])
  {
    if digits != [] {
      UrlLettersAre(digits[1..]);
    }
  }

  /** The three calls of the browser write what the server writes. */
  lemma RawUrlIsBase64Url(t: seq<Byte>)
    ensures UrlLetters(Digits(t)) == Base64Url(t)
  {
    hide Digits;
    var digits := Digits(t);
    Base64UrlIsReplaced(t);
    UrlLettersAre(digits);
    LettersAre(digits);
    ReplacedLetters(Letters(digits));
  }

  lemma Base64UrlIsReplaced(t: seq<Byte>)
    ensures Base64Url(t) == ReplaceLetters(Letters(Digits(t)))
  {
    hide ReplaceLetters, Letters, Digits, Padding, TrimPadding;
    LettersRead(Digits(t));
    PaddingIsEqualSigns(|t|);
    ReplacedEnds(Letters(Digits(t)), Padding(|t|));
    TrimPadded(ReplaceLetters(Letters(Digits(t))), |t|);
  }

  function RecordKeyOf(coder: Coder, source: Units, target: Units, kind: Units): string {
    var bytes := Utf8(Stringify(coder, source, target, kind));
    PREFIX + if coder.Browser? then Base64Url(bytes) else UrlLetters(Digits(bytes))
  }

  function Triple(key: string): Option<(Units, Units, Units)> {
    if |key| < |PREFIX| then None else Parse(FromUtf8(Bytes(Values(key[|PREFIX|..]))))
  }

  /** A key determines the three strings it was made of, so different triples have different keys. */
  lemma KeyDeterminesTriple(coder: Coder, source: Units, target: Units, kind: Units)
    ensures Triple(RecordKeyOf(coder, source, target, kind)) == Some((source, target, kind))
  {
    hide Stringify, Base64Url, Utf8, Parse, FromUtf8, Bytes;
    var text := Stringify(coder, source, target, kind);
    ParseStringified(coder, source, target, kind);
    StringifyIsWellFormed(coder, source, target, kind);
    DecodeUtf8(text);
    RawUrlIsBase64Url(Utf8(text));
    DecodeBase64Url(Utf8(text));
    assert (PREFIX + Base64Url(Utf8(text)))[|PREFIX|..] == Base64Url(Utf8(text));
  }

  // ----- when browser and server agree -----

  /** The part holds nothing that only the server escapes. */
  predicate Plain(s: Units) {
    forall u <- s :: !IsMarkup(u)
  }

  lemma {:induction false} PlainBody(s: Units)
    requires Plain(s)
    ensures Body(Server, s) == Body(Browser, s)
    decreases |s|
  {
    if s != [] {
      assert s[0] in s;
      if StartsPair(s) {
        PlainBody(s[2..]);
      } else {
        PlainBody(s[1..]);
      }
    }
  }

  lemma {:induction false} MarkupIsLonger(s: Units)
    ensures |Body(Server, s)| >= |Body(Browser, s)|
    ensures !Plain(s) ==> |Body(Server, s)| > |Body(Browser, s)|
    decreases |s|
  {
    if s != [] {
      if StartsPair(s) {
        MarkupIsLonger(s[2..]);
        assert s == [s[0], s[1]] + s[2..];
      } else {
        MarkupIsLonger(s[1..]);
        MarkupEscape(s[0]);
        assert s == [s[0]] + s[1..];
      }
    }
  }

  lemma MarkupEscape(u: CodeUnit)
    ensures |Escape(Server, u)| >= |Escape(Browser, u)|
    ensures IsMarkup(u) ==> |Escape(Server, u)| > |Escape(Browser, u)|
  {
  }

  lemma SameKeySameText(a: Units, b: Units, c: Units)
    requires RecordKeyOf(Server, a, b, c) == RecordKeyOf(Browser, a, b, c)
    ensures Stringify(Server, a, b, c) == Stringify(Browser, a, b, c)
  {
    hide Stringify, Base64Url, Utf8, FromUtf8, Bytes;
    var there, here := Stringify(Server, a, b, c), Stringify(Browser, a, b, c);
    RawUrlIsBase64Url(Utf8(there));
    assert (PREFIX + Base64Url(Utf8(there)))[|PREFIX|..] == Base64Url(Utf8(there));
    assert (PREFIX + Base64Url(Utf8(here)))[|PREFIX|..] == Base64Url(Utf8(here));
    DecodeBase64Url(Utf8(there));
    DecodeBase64Url(Utf8(here));
    StringifyIsWellFormed(Server, a, b, c);
    StringifyIsWellFormed(Browser, a, b, c);
    DecodeUtf8(there);
    DecodeUtf8(here);
  }

  lemma TextLength(coder: Coder, a: Units, b: Units, c: Units)
    ensures |Stringify(coder, a, b, c)| == |Body(coder, a)| + |Body(coder, b)| + |Body(coder, c)| + 10
  {
    hide Body;
  }

  /** The browser and the server give a relationship the same key exactly when no part of it holds markup. */
  lemma KeysAgree(a: Units, b: Units, c: Units)
    ensures RecordKeyOf(Server, a, b, c) == RecordKeyOf(Browser, a, b, c) <==> Plain(a) && Plain(b) && Plain(c)
  {
    hide Body, Stringify, Base64Url, Utf8, Plain, Digits;
    if Plain(a) && Plain(b) && Plain(c) {
      PlainBody(a);
      PlainBody(b);
      PlainBody(c);
      PlainText(a, b, c);
      RawUrlIsBase64Url(Utf8(Stringify(Browser, a, b, c)));
    } else if RecordKeyOf(Server, a, b, c) == RecordKeyOf(Browser, a, b, c) {
      SameKeySameText(a, b, c);
      TextLength(Server, a, b, c);
      TextLength(Browser, a, b, c);
      MarkupIsLonger(a);
      MarkupIsLonger(b);
      MarkupIsLonger(c);
    }
  }

  lemma PlainText(a: Units, b: Units, c: Units)
    requires Body(Server, a) == Body(Browser, a) && Body(Server, b) == Body(Browser, b) && Body(Server, c) == Body(Browser, c)
    ensures Stringify(Server, a, b, c) == Stringify(Browser, a, b, c)
  {
    hide Body;
  }

  // ----- keys are valid but for their length -----

  predicate Printable(text: string) {
    forall c <- text :: 0x20 <= c as int < 0x7F
  }

  lemma {:induction false} PrintableIsValid(text: string)
    requires Printable(text)
    ensures |UnitsOf(text)| == |text| && Utf8Length(UnitsOf(text)) == |text| && !HasControl(UnitsOf(text))
    ensures NoSurrogates(UnitsOf(text))
  {
    if text != "" {
      assert text[0] in text;
      assert forall c <- text[1..] :: c in text;
      PrintableIsValid(text[1..]);
      assert UnitsOf(text) == [text[0] as int] + UnitsOf(text[1..]);
      assert UnitsOf(text)[1..] == UnitsOf(text[1..]);
    }
  }

  lemma KeyIsPrintable(coder: Coder, a: Units, b: Units, c: Units)
    ensures Printable(RecordKeyOf(coder, a, b, c))
  {
    hide Stringify, Utf8, Base64Url, Digits;
    var digits := Digits(Utf8(Stringify(coder, a, b, c)));
    RawUrlIsBase64Url(Utf8(Stringify(coder, a, b, c)));
    UrlLettersAre(digits);
    forall v: Sextet
      ensures 0x20 <= UrlLetter(v) as int < 0x7F
    {
    }
    assert Printable(UrlLetters(digits));
    assert Printable(PREFIX);
  }

  lemma {:induction false} Utf8IsShort(s: Units)
    ensures |Utf8(s)| <= 3 * |s|
    decreases |s|
  {
    if s != [] {
      if StartsPair(s) {
        Utf8IsShort(s[2..]);
      } else {
        Utf8IsShort(s[1..]);
      }
    }
  }

  lemma {:induction false} BodyIsShort(coder: Coder, s: Units)
    ensures |Body(coder, s)| <= 6 * |s|
    decreases |s|
  {
    if s != [] {
      if StartsPair(s) {
        BodyIsShort(coder, s[2..]);
      } else {
        BodyIsShort(coder, s[1..]);
      }
    }
  }

  lemma {:induction false} DigitsAreFew(t: seq<Byte>)
    ensures |Digits(t)| <= 2 * |t|
    decreases |t|
  {
    if |t| >= 3 {
      DigitsAreFew(t[3..]);
    }
  }

  lemma KeyIsShort(coder: Coder, a: Units, b: Units, c: Units)
    ensures |RecordKeyOf(coder, a, b, c)| <= |PREFIX| + 6 * (6 * (|a| + |b| + |c|) + 10)
  {
    hide Body, Stringify, Utf8, Digits, Base64Url;
    var text := Stringify(coder, a, b, c);
    BodyIsShort(coder, a);
    BodyIsShort(coder, b);
    BodyIsShort(coder, c);
    TextLength(coder, a, b, c);
    Utf8IsShort(text);
    DigitsAreFew(Utf8(text));
    RawUrlIsBase64Url(Utf8(text));
    UrlLettersAre(Digits(Utf8(text)));
  }

  /** A relationship's key is valid text as long as it is not too long. */
  lemma KeyIsValidText(coder: Coder, a: Units, b: Units, c: Units, maximum: nat)
    ensures ValidText(RecordKeyOf(coder, a, b, c), maximum) <==> |RecordKeyOf(coder, a, b, c)| <= maximum
  {
    KeyIsPrintable(coder, a, b, c);
    hide RecordKeyOf;
    PrintableIsValid(RecordKeyOf(coder, a, b, c));
    assert |RecordKeyOf(coder, a, b, c)| > 0 by { KeyIsNotEmpty(coder, a, b, c); }
  }

  lemma KeyIsNotEmpty(coder: Coder, a: Units, b: Units, c: Units)
    ensures |RecordKeyOf(coder, a, b, c)| > 0
  {
    hide Stringify, Utf8, Base64Url, Digits;
  }

  predicate IsControl(u: CodeUnit) {
    u < 0x20 || 0x7F <= u < 0xA0
  }

  predicate HasControl(s: Units) {
    s != [] && (IsControl(s[0]) || HasControl(s[1..]))
  }

  /** Text of at most so many bytes, without control characters and not empty. */
  predicate ValidText(text: string, maximum: nat) {
    var units := UnitsOf(text);
    units != [] && Utf8Length(units) <= maximum && !HasControl(units)
  }

  predicate ValidIdentityPart(part: string) {
    ValidText(part, MAXIMUM_PART_BYTES)
  }

  /** `createRelationshipRecordKey` of the browser and `ListRecordKey` of the server. */
  function KeyOf(coder: Coder, source: string, target: string, kind: string): Option<string> {
    if ValidIdentityPart(source) && ValidIdentityPart(target) && ValidIdentityPart(kind)
    then Some(RecordKeyOf(coder, UnitsOf(source), UnitsOf(target), UnitsOf(kind)))
    else None
  }

  function CreateRelationshipRecordKey(source: string, target: string, kind: string): Option<string> {
    KeyOf(Browser, source, target, kind)
  }

  /** Two relationships share a key only when they have the same source, target and type, whoever made the keys. */
  lemma KeysAreInjective(coder: Coder, source: string, target: string, kind: string,
                         coder': Coder, source': string, target': string, kind': string)
    requires KeyOf(coder, source, target, kind).Some?
    requires KeyOf(coder, source, target, kind) == KeyOf(coder', source', target', kind')
    ensures source == source' && target == target' && kind == kind'
  {
    hide RecordKeyOf, ValidIdentityPart;
    KeyDeterminesTriple(coder, UnitsOf(source), UnitsOf(target), UnitsOf(kind));
    KeyDeterminesTriple(coder', UnitsOf(source'), UnitsOf(target'), UnitsOf(kind'));
    TextOfUnits(source);
    TextOfUnits(source');
    TextOfUnits(target);
    TextOfUnits(target');
    TextOfUnits(kind);
    TextOfUnits(kind');
  }
}
