/** A small JSON layer for the symlinks document: values, a compact printer and a parser that
    follows the rules of Go's encoding/json that the document relies on (whitespace between
    tokens, string escapes, UTF-8 with U+FFFD for invalid bytes, numbers as written). */
module Json {
  import opened Utf8
  import opened Errors
  import Text

  datatype Json =
    | JNull
    | JBool(b: bool)
    | JInt(n: int)
    | JDecimal(negative: bool, whole: nat, tail: Tail)
    | JString(s: string)
    | JArray(items: seq<Json>)
    | JObject(members: seq<Member>)

  datatype Member = Member(key: string, value: Json)

  /** A decimal digit. */
  type Digit = d: int | 0 <= d <= 9

  /** A non-empty run of digits, kept as written (leading zeros included). */
  datatype Digits = Digits(first: Digit, more: seq<Digit>)

  datatype ExponentSign = Unsigned | Plus | Minus

  /** An exponent: its letter (`E` when `upper`, otherwise `e`), an optional sign, and digits. */
  datatype Exponent = Exponent(upper: bool, sign: ExponentSign, digits: Digits)

  /** What follows the integer digits of a number that is not an integer: a fraction, an
      exponent, or both. */
  datatype Tail = Point(fraction: Digits) | Scale(exponent: Exponent) | PointScale(fraction: Digits, exponent: Exponent)

  const QUOTE: byte := 0x22
  const BACKSLASH: byte := 0x5C
  const SLASH: byte := 0x2F
  const LBRACE: byte := 0x7B
  const RBRACE: byte := 0x7D
  const LBRACKET: byte := 0x5B
  const RBRACKET: byte := 0x5D
  const COLON: byte := 0x3A
  const COMMA: byte := 0x2C
  const MINUS: byte := 0x2D
  const PLUS: byte := 0x2B
  const POINT: byte := 0x2E
  const EXP_LOWER: byte := 0x65
  const EXP_UPPER: byte := 0x45
  const ZERO: byte := 0x30
  const NINE: byte := 0x39

  /** The byte of an ASCII character. */
  function Byte(c: char): byte
    requires c as int < 128
  {
    c as int as byte
  }

  /** The bytes of an ASCII string. */
  function Ascii(s: string): (r: Bytes)
    requires forall i :: 0 <= i < |s| ==> s[i] as int < 128
    ensures |r| == |s|
    ensures forall i :: 0 <= i < |s| ==> r[i] as int == s[i] as int
  {
    if s == [] then [] else [Byte(s[0])] + Ascii(s[1..])
  }

  predicate IsWhitespace(b: byte)
  {
    b == 0x20 || b == 0x09 || b == 0x0A || b == 0x0D
  }

  predicate IsDigit(b: byte)
  {
    ZERO <= b <= NINE
  }

  /** The bytes a fraction or an exponent starts with. */
  predicate StartsTail(s: Bytes)
  {
    s != [] && (s[0] == POINT || s[0] == EXP_LOWER || s[0] == EXP_UPPER)
  }

  /** The characters of ASCII bytes. */
  function Chars(s: Bytes): (r: string)
    ensures |r| == |s|
    ensures forall i :: 0 <= i < |s| ==> r[i] as int == s[i] as int
  {
    if s == [] then [] else [s[0] as int as char] + Chars(s[1..])
  }

  const UnexpectedEnd := Message("unexpected end of JSON input")
  const InvalidCharacter := Message("invalid character")

  // ---------------------------------------------------------------------------
  // Printer

  const HexDigits: string := "0123456789abcdef"

  /** The escaped form of one character inside a string literal. */
  function EscapeChar(c: char): (r: Bytes)
    ensures |r| >= 1
  {
    if c == '"' then [BACKSLASH, QUOTE]
    else if c == '\\' then [BACKSLASH, BACKSLASH]
    else if c == '\n' then [BACKSLASH, Byte('n')]
    else if c == '\r' then [BACKSLASH, Byte('r')]
    else if c == '\t' then [BACKSLASH, Byte('t')]
    else if (c as int) < 0x20 then
      [BACKSLASH, Byte('u'), ZERO, ZERO, Byte(HexDigits[c as int / 16]), Byte(HexDigits[c as int % 16])]
    else EncodeRune(c)
  }

  function EscapeChars(s: string): Bytes
  {
    if s == [] then [] else EscapeChar(s[0]) + EscapeChars(s[1..])
  }

  function PrintString(s: string): Bytes
  {
    [QUOTE] + EscapeChars(s) + [QUOTE]
  }

  /** Decimal rendering of an integer, with '-' for negative values. */
  function PrintInt(n: int): Bytes
  {
    if n < 0 then [MINUS] + Ascii(Text.NatToString(-n)) else Ascii(Text.NatToString(n))
  }

  function DigitByte(d: Digit): byte
  {
    (ZERO as int + d) as byte
  }

  function DigitBytes(ds: seq<Digit>): (r: Bytes)
    ensures |r| == |ds|
    ensures forall i :: 0 <= i < |ds| ==> r[i] == DigitByte(ds[i])
  {
    if ds == [] then [] else [DigitByte(ds[0])] + DigitBytes(ds[1..])
  }

  function PrintDigits(d: Digits): (r: Bytes)
    ensures |r| >= 1 && IsDigit(r[0])
  {
    [DigitByte(d.first)] + DigitBytes(d.more)
  }

  function PrintSign(sign: ExponentSign): Bytes
  {
    match sign
    case Unsigned => []
    case Plus => [PLUS]
    case Minus => [MINUS]
  }

  function PrintExponent(e: Exponent): (r: Bytes)
    ensures |r| >= 2 && (r[0] == EXP_LOWER || r[0] == EXP_UPPER)
  {
    [if e.upper then EXP_UPPER else EXP_LOWER] + PrintSign(e.sign) + PrintDigits(e.digits)
  }

  function PrintTail(t: Tail): (r: Bytes)
    ensures StartsTail(r)
  {
    match t
    case Point(d) => [POINT] + PrintDigits(d)
    case Scale(e) => PrintExponent(e)
    case PointScale(d, e) => [POINT] + PrintDigits(d) + PrintExponent(e)
  }

  /** A number with a fraction or an exponent, as it was written. */
  function PrintDecimal(negative: bool, whole: nat, tail: Tail): Bytes
  {
    (if negative then [MINUS] else []) + Ascii(Text.NatToString(whole)) + PrintTail(tail)
  }

  /** The bytes a value can start with. */
  predicate StartsValue(b: byte)
  {
    b == LBRACE || b == LBRACKET || b == QUOTE || b == Byte('n') || b == Byte('t') || b == Byte('f')
    || b == MINUS || IsDigit(b)
  }

  /** Compact rendering of a value (no whitespace). */
  function Print(j: Json): (r: Bytes)
    ensures |r| >= 1 && StartsValue(r[0])
    decreases j
  {
    match j
    case JNull => Ascii("null")
    case JBool(b) => if b then Ascii("true") else Ascii("false")
    case JInt(n) => PrintInt(n)
    case JDecimal(negative, whole, tail) => PrintDecimal(negative, whole, tail)
    case JString(s) => PrintString(s)
    case JArray(items) => [LBRACKET] + PrintItems(items) + [RBRACKET]
    case JObject(ms) => [LBRACE] + PrintMembers(ms) + [RBRACE]
  }

  /** A number as written in JSON text (Go's decoder quotes this text when it refuses one). */
  function Literal(j: Json): string
    requires j.JInt? || j.JDecimal?
  {
    Chars(Print(j))
  }

  function PrintItems(items: seq<Json>): Bytes
    decreases items
  {
    if items == [] then []
    else if |items| == 1 then Print(items[0])
    else Print(items[0]) + [COMMA] + PrintItems(items[1..])
  }

  function PrintMember(m: Member): Bytes
    decreases m
  {
    PrintString(m.key) + [COLON] + Print(m.value)
  }

  function PrintMembers(ms: seq<Member>): Bytes
    decreases ms
  {
    if ms == [] then []
    else if |ms| == 1 then PrintMember(ms[0])
    else PrintMember(ms[0]) + [COMMA] + PrintMembers(ms[1..])
  }

  // ---------------------------------------------------------------------------
  // Parser. Every parser takes the remaining input and returns what it read together with the
  // input that follows it.

  function SkipWhitespace(s: Bytes): (r: Bytes)
    ensures |r| <= |s|
  {
    if s != [] && IsWhitespace(s[0]) then SkipWhitespace(s[1..]) else s
  }

  /** The value of one hexadecimal digit, or -1. */
  function HexValue(b: byte): int
  {
    if ZERO <= b <= NINE then b as int - 0x30
    else if Byte('a') <= b <= Byte('f') then b as int - 0x61 + 10
    else if Byte('A') <= b <= Byte('F') then b as int - 0x41 + 10
    else -1
  }

  /** getu4: the value of the four hex digits at the head of `s`, or -1. */
  function Hex4(s: Bytes): (r: int)
    ensures r < 0x10000
  {
    if |s| < 4 || HexValue(s[0]) < 0 || HexValue(s[1]) < 0 || HexValue(s[2]) < 0 || HexValue(s[3]) < 0 then -1
    else ((HexValue(s[0]) * 16 + HexValue(s[1])) * 16 + HexValue(s[2])) * 16 + HexValue(s[3])
  }

  predicate IsSurrogate(v: int)
  {
    0xD800 <= v < 0xE000
  }

  /** The character written by the escape that follows a backslash, and how many bytes of
      `s` the escape took. */
  function ParseEscape(s: Bytes): (r: Result<(char, nat)>)
    ensures r.Ok? ==> 1 <= r.value.1 <= |s|
  {
    if s == [] then Err(UnexpectedEnd)
    else if s[0] == QUOTE then Ok(('"', 1))
    else if s[0] == BACKSLASH then Ok(('\\', 1))
    else if s[0] == SLASH then Ok(('/', 1))
    else if s[0] == Byte('b') then Ok((8 as char, 1))
    else if s[0] == Byte('f') then Ok((12 as char, 1))
    else if s[0] == Byte('n') then Ok(('\n', 1))
    else if s[0] == Byte('r') then Ok(('\r', 1))
    else if s[0] == Byte('t') then Ok(('\t', 1))
    else if s[0] == Byte('u') then
      var v := Hex4(s[1..]);
      if v < 0 then Err(InvalidCharacter)
      else if !IsSurrogate(v) then Ok((v as char, 5))
      else
        // a surrogate pair written as two escapes; a lone surrogate becomes U+FFFD
        var w := if |s| >= 7 && s[5] == BACKSLASH && s[6] == Byte('u') then Hex4(s[7..]) else -1;
        if v < 0xDC00 && 0xDC00 <= w < 0xE000 then
          Ok((((v - 0xD800) * 1024 + (w - 0xDC00) + 0x10000) as char, 11))
        else
          Ok((ReplacementChar, 5))
    else Err(InvalidCharacter)
  }

  /** The characters of a string literal whose opening quote has been read, up to and
      including the closing quote. */
  function ParseChars(s: Bytes): (r: Result<(string, Bytes)>)
    ensures r.Ok? ==> |r.value.1| < |s|
    decreases |s|
  {
    if s == [] then Err(UnexpectedEnd)
    else if s[0] == QUOTE then Ok(([], s[1..]))
    else if s[0] == BACKSLASH then
      var (c, n) :- ParseEscape(s[1..]);
      var (tail, rest) :- ParseChars(s[1 + n..]);
      Ok(([c] + tail, rest))
    else if s[0] < 0x20 then Err(InvalidCharacter)
    else
      var (c, n) := DecodeRune(s);
      var (tail, rest) :- ParseChars(s[n..]);
      Ok(([c] + tail, rest))
  }

  /** Number of leading decimal digits. */
  function DigitRun(s: Bytes): (n: nat)
    ensures n <= |s|
    ensures forall i :: 0 <= i < n ==> IsDigit(s[i])
    ensures n < |s| ==> !IsDigit(s[n])
  {
    if s != [] && IsDigit(s[0]) then 1 + DigitRun(s[1..]) else 0
  }

  /** The integer digits of a number without its sign, refusing a superfluous leading zero. */
  function ParseUnsigned(u: Bytes): (r: Result<(nat, Bytes)>)
    ensures r.Ok? ==> |r.value.1| < |u|
  {
    var n := DigitRun(u);
    if n == 0 then Err(InvalidCharacter)
    else if u[0] == ZERO && n > 1 then Err(InvalidCharacter)
    else Ok((Text.DigitsValue(Chars(u[..n])), u[n..]))
  }

  function DigitValue(b: byte): Digit
    requires IsDigit(b)
  {
    b as int - ZERO as int
  }

  function DigitValues(s: Bytes): (r: seq<Digit>)
    requires forall i :: 0 <= i < |s| ==> IsDigit(s[i])
  {
    if s == [] then [] else [DigitValue(s[0])] + DigitValues(s[1..])
  }

  /** A non-empty run of digits, as written. */
  function ParseDigits(s: Bytes): (r: Result<(Digits, Bytes)>)
    ensures r.Ok? ==> |r.value.1| < |s|
  {
    var n := DigitRun(s);
    if n == 0 then Err(InvalidCharacter)
    else Ok((Digits(DigitValue(s[0]), DigitValues(s[1..n])), s[n..]))
  }

  /** The optional sign of an exponent. */
  function ParseSign(t: Bytes): (r: (ExponentSign, Bytes))
    ensures |r.1| <= |t|
  {
    if t != [] && t[0] == PLUS then (Plus, t[1..])
    else if t != [] && t[0] == MINUS then (Minus, t[1..])
    else (Unsigned, t)
  }

  /** An exponent, from its letter on. */
  function ParseExponent(s: Bytes): (r: Result<(Exponent, Bytes)>)
    requires s != [] && (s[0] == EXP_LOWER || s[0] == EXP_UPPER)
    ensures r.Ok? ==> |r.value.1| < |s|
  {
    var (sign, u) := ParseSign(s[1..]);
    var (d, rest) :- ParseDigits(u);
    Ok((Exponent(s[0] == EXP_UPPER, sign, d), rest))
  }

  /** A fraction, an exponent, or a fraction and an exponent. */
  function ParseTail(s: Bytes): (r: Result<(Tail, Bytes)>)
    requires StartsTail(s)
    ensures r.Ok? ==> |r.value.1| < |s|
  {
    if s[0] == POINT then
      var (d, rest) :- ParseDigits(s[1..]);
      if rest != [] && (rest[0] == EXP_LOWER || rest[0] == EXP_UPPER) then
        var (e, rest') :- ParseExponent(rest);
        Ok((PointScale(d, e), rest'))
      else
        Ok((Point(d), rest))
    else
      var (e, rest) :- ParseExponent(s);
      Ok((Scale(e), rest))
  }

  /** A number once its integer digits `v` are read: a fraction or an exponent makes it a
      decimal, anything else ends it as an integer. */
  function NumberAfter(negative: bool, v: nat, rest: Bytes): (r: Result<(Json, Bytes)>)
    ensures r.Ok? ==> |r.value.1| <= |rest|
  {
    if StartsTail(rest) then
      var (tail, rest') :- ParseTail(rest);
      Ok((JDecimal(negative, v, tail), rest'))
    else
      Ok((JInt(if negative then 0 - v else v), rest))
  }

  /** A number starting at the head of `s` (a '-' or a digit). */
  function ParseNumber(s: Bytes): (r: Result<(Json, Bytes)>)
    requires s != []
    ensures r.Ok? ==> |r.value.1| < |s|
  {
    if s[0] == MINUS then
      var (v, rest) :- ParseUnsigned(s[1..]);
      NumberAfter(true, v, rest)
    else
      var (v, rest) :- ParseUnsigned(s);
      NumberAfter(false, v, rest)
  }

  /** A literal word such as `null`. */
  function ParseLiteral(s: Bytes, word: string, j: Json): (r: Result<(Json, Bytes)>)
    requires |word| > 0 && forall i :: 0 <= i < |word| ==> word[i] as int < 128
    ensures r.Ok? ==> |r.value.1| < |s|
  {
    if |s| >= |word| && s[..|word|] == Ascii(word) then Ok((j, s[|word|..])) else Err(InvalidCharacter)
  }

  /** One value, after optional whitespace. */
  function ParseValue(s: Bytes): (r: Result<(Json, Bytes)>)
    ensures r.Ok? ==> |r.value.1| < |s|
    decreases |s|, 1
  {
    var t := SkipWhitespace(s);
    if t == [] then Err(UnexpectedEnd)
    else if t[0] == LBRACE then ParseObject(t[1..])
    else if t[0] == LBRACKET then ParseArray(t[1..])
    else if t[0] == QUOTE then ParseString(t[1..])
    else if t[0] == Byte('n') then ParseLiteral(t, "null", JNull)
    else if t[0] == Byte('t') then ParseLiteral(t, "true", JBool(true))
    else if t[0] == Byte('f') then ParseLiteral(t, "false", JBool(false))
    else if t[0] == MINUS || IsDigit(t[0]) then ParseNumber(t)
    else Err(InvalidCharacter)
  }

  /** A string value whose opening quote has been read. */
  function ParseString(s: Bytes): (r: Result<(Json, Bytes)>)
    ensures r.Ok? ==> |r.value.1| < |s|
  {
    var (str, rest) :- ParseChars(s);
    Ok((JString(str), rest))
  }

  /** An array whose opening bracket has been read, up to and including the closing bracket. */
  function ParseArray(s: Bytes): (r: Result<(Json, Bytes)>)
    ensures r.Ok? ==> |r.value.1| < |s|
    decreases |s|, 3
  {
    var t := SkipWhitespace(s);
    if t != [] && t[0] == RBRACKET then Ok((JArray([]), t[1..]))
    else
      var (items, rest) :- ParseElements(t);
      Ok((JArray(items), rest))
  }

  /** One or more comma-separated values and the closing bracket. */
  function ParseElements(s: Bytes): (r: Result<(seq<Json>, Bytes)>)
    ensures r.Ok? ==> |r.value.1| < |s|
    decreases |s|, 2
  {
    var (item, rest) :- ParseValue(s);
    var t := SkipWhitespace(rest);
    if t == [] then Err(UnexpectedEnd)
    else if t[0] == RBRACKET then Ok(([item], t[1..]))
    else if t[0] == COMMA then
      var (more, rest') :- ParseElements(t[1..]);
      Ok(([item] + more, rest'))
    else Err(InvalidCharacter)
  }

  /** An object whose opening brace has been read, up to and including the closing brace. */
  function ParseObject(s: Bytes): (r: Result<(Json, Bytes)>)
    ensures r.Ok? ==> |r.value.1| < |s|
    decreases |s|, 3
  {
    var t := SkipWhitespace(s);
    if t != [] && t[0] == RBRACE then Ok((JObject([]), t[1..]))
    else
      var (ms, rest) :- ParseMembers(t);
      Ok((JObject(ms), rest))
  }

  /** One or more comma-separated `"key": value` members and the closing brace. */
  function ParseMembers(s: Bytes): (r: Result<(seq<Member>, Bytes)>)
    ensures r.Ok? ==> |r.value.1| < |s|
    decreases |s|, 2
  {
    var t := SkipWhitespace(s);
    if t == [] then Err(UnexpectedEnd)
    else if t[0] != QUOTE then Err(InvalidCharacter)
    else
      var (key, afterKey) :- ParseChars(t[1..]);
      var u := SkipWhitespace(afterKey);
      if u == [] then Err(UnexpectedEnd)
      else if u[0] != COLON then Err(InvalidCharacter)
      else
        var (value, rest) :- ParseValue(u[1..]);
        var w := SkipWhitespace(rest);
        if w == [] then Err(UnexpectedEnd)
        else if w[0] == RBRACE then Ok(([Member(key, value)], w[1..]))
        else if w[0] == COMMA then
          var (more, rest') :- ParseMembers(w[1..]);
          Ok(([Member(key, value)] + more, rest'))
        else Err(InvalidCharacter)
  }

  /** A whole document: one value and nothing but whitespace after it. */
  function Parse(s: Bytes): Result<Json>
  {
    var (j, rest) :- ParseValue(s);
    if SkipWhitespace(rest) == [] then Ok(j) else Err(Message("invalid character after top-level value"))
  }

  // ---------------------------------------------------------------------------
  // Round trip: the parser reads back what the printer writes.

  /** Parsing the escape of one character yields that character, then parsing goes on with
      whatever follows the escape. */
  lemma ParseEscapedChar(c: char, t: Bytes)
    ensures ParseChars(EscapeChar(c) + t) ==
      match ParseChars(t)
      case Ok((tail, rest)) => Ok(([c] + tail, rest))
      case Err(e) => Err(e)
  {
    if c == '"' || c == '\\' || c == '\n' || c == '\r' || c == '\t' {
      ParseShortEscape(c, t);
    } else if (c as int) < 0x20 {
      ParseUnicodeEscape(c, t);
    } else {
      ParseUnescaped(c, t);
    }
  }

  lemma ParseShortEscape(c: char, t: Bytes)
    requires c == '"' || c == '\\' || c == '\n' || c == '\r' || c == '\t'
    ensures ParseChars(EscapeChar(c) + t) ==
      match ParseChars(t)
      case Ok((tail, rest)) => Ok(([c] + tail, rest))
      case Err(e) => Err(e)
  {
    var s := EscapeChar(c) + t;
    assert s[1..][..1] == EscapeChar(c)[1..];
    assert s[2..] == t;
  }

  lemma ParseUnicodeEscape(c: char, t: Bytes)
    requires c != '"' && c != '\\' && c != '\n' && c != '\r' && c != '\t' && (c as int) < 0x20
    ensures ParseChars(EscapeChar(c) + t) ==
      match ParseChars(t)
      case Ok((tail, rest)) => Ok(([c] + tail, rest))
      case Err(e) => Err(e)
  {
    var s := EscapeChar(c) + t;
    var hi, lo := c as int / 16, c as int % 16;
    HexDigitValue(hi);
    HexDigitValue(lo);
    var u := [BACKSLASH, Byte('u'), ZERO, ZERO, Byte(HexDigits[hi]), Byte(HexDigits[lo])];
    assert EscapeChar(c) == u;
    assert s[2..6] == u[2..6];
    assert s[1..][1..][..4] == [ZERO, ZERO, Byte(HexDigits[hi]), Byte(HexDigits[lo])];
    assert Hex4(s[1..][1..]) == c as int;
    assert ParseEscape(s[1..]) == Ok((c, 5));
    assert s[6..] == t;
  }

  lemma ParseUnescaped(c: char, t: Bytes)
    requires c != '"' && c != '\\' && (c as int) >= 0x20
    ensures ParseChars(EscapeChar(c) + t) ==
      match ParseChars(t)
      case Ok((tail, rest)) => Ok(([c] + tail, rest))
      case Err(e) => Err(e)
  {
    var e := EncodeRune(c);
    var s := e + t;
    if c as int >= 0x80 {
      EncodeRuneHigh(c);
    }
    DecodeEncodeRune(c, t);
    assert s[|e|..] == t;
  }

  lemma HexDigitValue(d: nat)
    requires d < 16
    ensures HexValue(Byte(HexDigits[d])) == d
  {
    if d < 8 {
      if d < 4 { assert d == 0 || d == 1 || d == 2 || d == 3; }
      else { assert d == 4 || d == 5 || d == 6 || d == 7; }
    } else {
      if d < 12 { assert d == 8 || d == 9 || d == 10 || d == 11; }
      else { assert d == 12 || d == 13 || d == 14 || d == 15; }
    }
  }

  /** The body of a printed string literal parses back to the string. */
  lemma {:induction false} ParseEscapedChars(s: string, rest: Bytes)
    ensures ParseChars(EscapeChars(s) + [QUOTE] + rest) == Ok((s, rest))
  {
    if s == [] {
      assert EscapeChars(s) + [QUOTE] + rest == [QUOTE] + rest;
    } else {
      var t := EscapeChars(s[1..]) + [QUOTE] + rest;
      assert EscapeChars(s) + [QUOTE] + rest == EscapeChar(s[0]) + t;
      ParseEscapedChars(s[1..], rest);
      ParseEscapedChar(s[0], t);
      assert [s[0]] + s[1..] == s;
    }
  }

  /** The digits of a printed natural number are read back as that number, whatever
      non-digit follows. */
  lemma ParseDigitsOfNat(m: nat, rest: Bytes)
    requires rest == [] || !IsDigit(rest[0])
    ensures var d := Ascii(Text.NatToString(m));
      && DigitRun(d + rest) == |d|
      && (forall i :: 0 <= i < |d| ==> IsDigit(d[i]))
      && Chars(d) == Text.NatToString(m)
      && Text.DigitsValue(Chars(d)) == m
      && (d[0] == ZERO ==> |d| == 1)
  {
    var str := Text.NatToString(m);
    var d := Ascii(str);
    assert forall i | 0 <= i < |d| :: IsDigit(d[i]);
    DigitRunOfDigits(d, rest);
    assert Chars(d) == str;
    Text.NatToStringValue(m);
    if m >= 10 {
      LeadingDigitNotZero(m);
    }
  }

  lemma {:induction false} LeadingDigitNotZero(m: nat)
    requires m >= 10
    ensures Text.NatToString(m)[0] != '0'
  {
    if m / 10 >= 10 {
      LeadingDigitNotZero(m / 10);
    } else {
      assert Text.NatToString(m / 10) == [Text.DigitChar(m / 10)];
      var k := m / 10;
      assert 1 <= k < 10;
      if k < 5 { assert k == 1 || k == 2 || k == 3 || k == 4; }
      else { assert k == 5 || k == 6 || k == 7 || k == 8 || k == 9; }
    }
  }

  lemma {:induction false} DigitRunOfDigits(d: Bytes, rest: Bytes)
    requires forall i :: 0 <= i < |d| ==> IsDigit(d[i])
    requires rest == [] || !IsDigit(rest[0])
    ensures DigitRun(d + rest) == |d|
  {
    if d != [] {
      assert (d + rest)[1..] == d[1..] + rest;
      DigitRunOfDigits(d[1..], rest);
    } else {
      assert d + rest == rest;
    }
  }

  /** What may follow a printed value: the end, whitespace, or a closing or separating byte. */
  predicate Delimited(rest: Bytes)
  {
    rest == [] || IsWhitespace(rest[0]) || rest[0] == COMMA || rest[0] == RBRACKET || rest[0] == RBRACE
  }

  /** The printed digits of a natural number, followed by a delimiter, read back as it. */
  lemma ParsePrintedNat(m: nat, rest: Bytes)
    requires rest == [] || !IsDigit(rest[0])
    ensures ParseUnsigned(Ascii(Text.NatToString(m)) + rest) == Ok((m, rest))
  {
    var d := Ascii(Text.NatToString(m));
    ParseDigitsOfNat(m, rest);
    var u := d + rest;
    assert DigitRun(u) == |d|;
    assert u[..|d|] == d;
    assert u[|d|..] == rest;
    assert !(u[0] == ZERO && |d| > 1);
    assert Text.DigitsValue(Chars(u[..|d|])) == m;
  }

  lemma Assoc(a: Bytes, b: Bytes, c: Bytes)
    ensures (a + b) + c == a + (b + c)
  {
  }

  /** A minus sign before the digits negates them. */
  lemma NegativeNumber(u: Bytes, v: nat, rest: Bytes)
    requires ParseUnsigned(u) == Ok((v, rest)) && !StartsTail(rest)
    ensures ParseNumber([MINUS] + u) == Ok((JInt(0 - v), rest))
  {
    assert ([MINUS] + u)[1..] == u;
  }

  /** Digits without a sign are read as they are. */
  lemma NonNegativeNumber(u: Bytes, v: nat, rest: Bytes)
    requires ParseUnsigned(u) == Ok((v, rest)) && !StartsTail(rest)
    ensures ParseNumber(u) == Ok((JInt(v), rest))
  {
    assert DigitRun(u) > 0;
  }

  lemma ParsePrintedInt(n: int, rest: Bytes)
    requires Delimited(rest)
    ensures ParseNumber(PrintInt(n) + rest) == Ok((JInt(n), rest))
  {
    var m: nat := if n < 0 then -n else n;
    var d := Ascii(Text.NatToString(m));
    assert ParseUnsigned(d + rest) == Ok((m, rest)) by {
      ParsePrintedNat(m, rest);
    }
    if n < 0 {
      assert PrintInt(n) + rest == [MINUS] + (d + rest) by {
        Assoc([MINUS], d, rest);
      }
      NegativeNumber(d + rest, m, rest);
    } else {
      NonNegativeNumber(d + rest, m, rest);
    }
  }

  lemma {:induction false} DigitValuesOfBytes(ds: seq<Digit>)
    ensures DigitValues(DigitBytes(ds)) == ds
  {
    if ds != [] {
      assert DigitBytes(ds)[1..] == DigitBytes(ds[1..]);
      DigitValuesOfBytes(ds[1..]);
    }
  }

  /** Printed digits are read back as written, whatever non-digit follows them. */
  lemma ParsePrintedDigits(d: Digits, rest: Bytes)
    requires rest == [] || !IsDigit(rest[0])
    ensures ParseDigits(PrintDigits(d) + rest) == Ok((d, rest))
  {
    var p := PrintDigits(d);
    var s := p + rest;
    DigitRunOfDigits(p, rest);
    assert s[..|p|] == p;
    assert s[|p|..] == rest;
    assert s[1..|p|] == DigitBytes(d.more);
    DigitValuesOfBytes(d.more);
  }

  lemma ParsePrintedSign(sign: ExponentSign, x: Bytes)
    requires x != [] && IsDigit(x[0])
    ensures ParseSign(PrintSign(sign) + x) == (sign, x)
  {
    if sign != Unsigned {
      assert (PrintSign(sign) + x)[1..] == x;
    } else {
      assert PrintSign(sign) + x == x;
    }
  }

  lemma ParsePrintedExponent(e: Exponent, rest: Bytes)
    requires rest == [] || !IsDigit(rest[0])
    ensures ParseExponent(PrintExponent(e) + rest) == Ok((e, rest))
  {
    var letter: byte := if e.upper then EXP_UPPER else EXP_LOWER;
    var x := PrintDigits(e.digits) + rest;
    var s := PrintExponent(e) + rest;
    assert s == [letter] + (PrintSign(e.sign) + x);
    assert s[1..] == PrintSign(e.sign) + x;
    ParsePrintedSign(e.sign, x);
    ParsePrintedDigits(e.digits, rest);
  }

  lemma ParsePrintedTail(t: Tail, rest: Bytes)
    requires Delimited(rest)
    ensures ParseTail(PrintTail(t) + rest) == Ok((t, rest))
  {
    match t
    case Point(d) => ParsePrintedFraction(d, rest);
    case Scale(e) =>
      ParsePrintedExponent(e, rest);
      TailOfExponent(PrintExponent(e) + rest, e, rest);
    case PointScale(d, e) => ParsePrintedFractionAndExponent(d, e, rest);
  }

  lemma ParsePrintedFraction(d: Digits, rest: Bytes)
    requires Delimited(rest)
    ensures ParseTail(PrintTail(Point(d)) + rest) == Ok((Point(d), rest))
  {
    var s := [POINT] + (PrintDigits(d) + rest);
    assert PrintTail(Point(d)) + rest == s;
    assert s[1..] == PrintDigits(d) + rest;
    ParsePrintedDigits(d, rest);
    TailOfFraction(s, d, rest);
  }

  lemma ParsePrintedFractionAndExponent(d: Digits, e: Exponent, rest: Bytes)
    requires Delimited(rest)
    ensures ParseTail(PrintTail(PointScale(d, e)) + rest) == Ok((PointScale(d, e), rest))
  {
    var x := PrintExponent(e) + rest;
    var s := [POINT] + (PrintDigits(d) + x);
    assert PrintTail(PointScale(d, e)) + rest == s;
    assert s[1..] == PrintDigits(d) + x;
    ParsePrintedDigits(d, x);
    ParsePrintedExponent(e, rest);
    TailOfFractionAndExponent(s, d, e, x, rest);
  }

  lemma TailOfFraction(s: Bytes, d: Digits, rest: Bytes)
    requires s != [] && s[0] == POINT && ParseDigits(s[1..]) == Ok((d, rest))
    requires rest == [] || (rest[0] != EXP_LOWER && rest[0] != EXP_UPPER)
    ensures ParseTail(s) == Ok((Point(d), rest))
  {
  }

  lemma TailOfExponent(s: Bytes, e: Exponent, rest: Bytes)
    requires s != [] && (s[0] == EXP_LOWER || s[0] == EXP_UPPER) && ParseExponent(s) == Ok((e, rest))
    ensures ParseTail(s) == Ok((Scale(e), rest))
  {
  }

  lemma TailOfFractionAndExponent(s: Bytes, d: Digits, e: Exponent, x: Bytes, rest: Bytes)
    requires s != [] && s[0] == POINT && ParseDigits(s[1..]) == Ok((d, x))
    requires x != [] && (x[0] == EXP_LOWER || x[0] == EXP_UPPER) && ParseExponent(x) == Ok((e, rest))
    ensures ParseTail(s) == Ok((PointScale(d, e), rest))
  {
  }

  /** A number with a fraction or an exponent is read back as it was written. */
  lemma ParsePrintedDecimal(negative: bool, whole: nat, tail: Tail, rest: Bytes)
    requires Delimited(rest)
    ensures ParseNumber(PrintDecimal(negative, whole, tail) + rest) == Ok((JDecimal(negative, whole, tail), rest))
  {
    var sign: Bytes := if negative then [MINUS] else [];
    var d := Ascii(Text.NatToString(whole));
    var p := PrintTail(tail);
    var after := p + rest;
    ParsePrintedNat(whole, after);
    ParsePrintedTail(tail, rest);
    assert PrintDecimal(negative, whole, tail) == sign + d + p;
    Assoc(sign + d, p, rest);
    Assoc(sign, d, after);
    DecimalNumber(negative, d + after, whole, after, tail, rest);
  }

  /** Integer digits followed by a fraction or an exponent make a decimal. */
  lemma DecimalNumber(negative: bool, u: Bytes, v: nat, after: Bytes, tail: Tail, rest: Bytes)
    requires ParseUnsigned(u) == Ok((v, after)) && StartsTail(after)
    requires ParseTail(after) == Ok((tail, rest))
    ensures ParseNumber((if negative then [MINUS] else []) + u) == Ok((JDecimal(negative, v, tail), rest))
  {
    if negative {
      assert ([MINUS] + u)[1..] == u;
    } else {
      assert [] + u == u;
      assert DigitRun(u) > 0;
    }
  }

  /** A value starting with a bracket is an array or an object. */
  lemma ParseValueOpening(s: Bytes)
    requires s != [] && (s[0] == LBRACKET || s[0] == LBRACE)
    ensures s[0] == LBRACKET ==> ParseValue(s) == ParseArray(s[1..])
    ensures s[0] == LBRACE ==> ParseValue(s) == ParseObject(s[1..])
  {
    assert SkipWhitespace(s) == s;
  }

  /** A value starting with a minus sign or a digit is a number. */
  lemma ParseValueNumber(s: Bytes)
    requires s != [] && (s[0] == MINUS || IsDigit(s[0]))
    ensures ParseValue(s) == ParseNumber(s)
  {
    assert !IsWhitespace(s[0]);
    ParseValueAt(s);
  }

  /** How ParseValue dispatches on the first byte when there is no leading whitespace. */
  lemma ParseValueAt(s: Bytes)
    requires s != [] && !IsWhitespace(s[0])
    ensures s[0] == LBRACE ==> ParseValue(s) == ParseObject(s[1..])
    ensures s[0] == LBRACKET ==> ParseValue(s) == ParseArray(s[1..])
    ensures s[0] == QUOTE ==> ParseValue(s) == ParseString(s[1..])
    ensures s[0] == MINUS || IsDigit(s[0]) ==> ParseValue(s) == ParseNumber(s)
    ensures s[0] == Byte('n') ==> ParseValue(s) == ParseLiteral(s, "null", JNull)
    ensures s[0] == Byte('t') ==> ParseValue(s) == ParseLiteral(s, "true", JBool(true))
    ensures s[0] == Byte('f') ==> ParseValue(s) == ParseLiteral(s, "false", JBool(false))
  {
    assert SkipWhitespace(s) == s;
  }

  /** A printed value parses back to itself and leaves what follows it. */
  lemma {:induction false} ParsePrinted(j: Json, rest: Bytes)
    requires Delimited(rest)
    ensures ParseValue(Print(j) + rest) == Ok((j, rest))
    decreases j, 2
  {
    match j
    case JNull => ParsePrintedWord("null", j, rest);
    case JBool(b) => if b { ParsePrintedWord("true", j, rest); } else { ParsePrintedWord("false", j, rest); }
    case JInt(n) => ParsePrintedNumber(n, rest);
    case JDecimal(negative, whole, tail) => ParsePrintedDecimalValue(negative, whole, tail, rest);
    case JString(str) => ParsePrintedString(str, rest);
    case JArray(items) => ParsePrintedArrayValue(items, rest);
    case JObject(ms) => ParsePrintedObjectValue(ms, rest);
  }

  lemma ParsePrintedWord(word: string, j: Json, rest: Bytes)
    requires j == JNull || j.JBool?
    requires word == (if j == JNull then "null" else if j == JBool(true) then "true" else "false")
    ensures ParseValue(Print(j) + rest) == Ok((j, rest))
  {
    var s := Ascii(word) + rest;
    assert Print(j) == Ascii(word);
    assert ParseLiteral(s, word, j) == Ok((j, rest)) by {
      assert s[..|word|] == Ascii(word);
      assert s[|word|..] == rest;
    }
    assert s[0] == Byte(word[0]);
    ParseValueAt(s);
  }

  lemma ParsePrintedNumber(n: int, rest: Bytes)
    requires Delimited(rest)
    ensures ParseValue(Print(JInt(n)) + rest) == Ok((JInt(n), rest))
  {
    var s := PrintInt(n) + rest;
    assert ParseNumber(s) == Ok((JInt(n), rest)) by {
      ParsePrintedInt(n, rest);
    }
    ParseValueNumber(s);
  }

  lemma ParsePrintedDecimalValue(negative: bool, whole: nat, tail: Tail, rest: Bytes)
    requires Delimited(rest)
    ensures ParseValue(Print(JDecimal(negative, whole, tail)) + rest) == Ok((JDecimal(negative, whole, tail), rest))
  {
    var s := PrintDecimal(negative, whole, tail) + rest;
    assert ParseNumber(s) == Ok((JDecimal(negative, whole, tail), rest)) by {
      ParsePrintedDecimal(negative, whole, tail, rest);
    }
    ParseValueNumber(s);
  }

  lemma ParsePrintedString(str: string, rest: Bytes)
    ensures ParseValue(Print(JString(str)) + rest) == Ok((JString(str), rest))
  {
    var s := PrintString(str) + rest;
    assert s == [QUOTE] + (EscapeChars(str) + [QUOTE] + rest);
    assert ParseChars(s[1..]) == Ok((str, rest)) by {
      ParseEscapedChars(str, rest);
    }
    ParseValueAt(s);
  }

  lemma {:induction false} ParsePrintedArrayValue(items: seq<Json>, rest: Bytes)
    ensures ParseValue(Print(JArray(items)) + rest) == Ok((JArray(items), rest))
    decreases items, 3
  {
    var s := [LBRACKET] + PrintItems(items) + [RBRACKET] + rest;
    assert Print(JArray(items)) + rest == s;
    assert s[1..] == PrintItems(items) + [RBRACKET] + rest;
    ParsePrintedArray(items, rest);
    ParseValueOpening(s);
  }

  lemma {:induction false} ParsePrintedObjectValue(ms: seq<Member>, rest: Bytes)
    ensures ParseValue(Print(JObject(ms)) + rest) == Ok((JObject(ms), rest))
    decreases ms, 3
  {
    var s := [LBRACE] + PrintMembers(ms) + [RBRACE] + rest;
    assert Print(JObject(ms)) + rest == s;
    assert s[1..] == PrintMembers(ms) + [RBRACE] + rest;
    ParsePrintedObject(ms, rest);
    ParseValueOpening(s);
  }

  lemma {:induction false} ParsePrintedArray(items: seq<Json>, rest: Bytes)
    ensures ParseArray(PrintItems(items) + [RBRACKET] + rest) == Ok((JArray(items), rest))
    decreases items, 2
  {
    var body := PrintItems(items) + [RBRACKET] + rest;
    if items == [] {
      assert body == [RBRACKET] + rest;
    } else {
      ParsePrintedItems(items, rest);
      assert SkipWhitespace(body) == body;
    }
  }

  lemma {:induction false} ParsePrintedObject(ms: seq<Member>, rest: Bytes)
    ensures ParseObject(PrintMembers(ms) + [RBRACE] + rest) == Ok((JObject(ms), rest))
    decreases ms, 2
  {
    var body := PrintMembers(ms) + [RBRACE] + rest;
    if ms == [] {
      assert body == [RBRACE] + rest;
    } else {
      ParsePrintedMembers(ms, rest);
      assert SkipWhitespace(body) == body;
    }
  }

  /** A value followed by the closing bracket ends the elements. */
  lemma ParseElementsLast(s: Bytes, item: Json, after: Bytes)
    requires ParseValue(s) == Ok((item, after))
    requires after != [] && after[0] == RBRACKET
    ensures ParseElements(s) == Ok(([item], after[1..]))
  {
    assert SkipWhitespace(after) == after;
  }

  /** A value followed by a comma is the first of the elements. */
  lemma ParseElementsNext(s: Bytes, item: Json, after: Bytes, more: seq<Json>, rest: Bytes)
    requires ParseValue(s) == Ok((item, after))
    requires after != [] && after[0] == COMMA
    requires ParseElements(after[1..]) == Ok((more, rest))
    ensures ParseElements(s) == Ok(([item] + more, rest))
  {
    assert SkipWhitespace(after) == after;
  }

  lemma {:induction false} ParsePrintedItems(items: seq<Json>, rest: Bytes)
    requires items != []
    ensures PrintItems(items)[0] == Print(items[0])[0]
    ensures ParseElements(PrintItems(items) + [RBRACKET] + rest) == Ok((items, rest))
    decreases items, 1
  {
    var head := Print(items[0]);
    if |items| == 1 {
      var after := [RBRACKET] + rest;
      assert ParseElements(head + after) == Ok(([items[0]], rest)) by {
        ParsePrinted(items[0], after);
        ParseElementsLast(head + after, items[0], after);
        assert after[1..] == rest;
      }
      assert PrintItems(items) == head;
      Assoc(head, [RBRACKET], rest);
      assert items == [items[0]];
    } else {
      var tail := PrintItems(items[1..]) + [RBRACKET] + rest;
      var after := [COMMA] + tail;
      assert ParseElements(tail) == Ok((items[1..], rest)) by {
        ParsePrintedItems(items[1..], rest);
      }
      assert ParseElements(head + after) == Ok(([items[0]] + items[1..], rest)) by {
        ParsePrinted(items[0], after);
        assert after[1..] == tail;
        ParseElementsNext(head + after, items[0], after, items[1..], rest);
      }
      assert PrintItems(items) == head + [COMMA] + PrintItems(items[1..]);
      Regroup(head, [COMMA], PrintItems(items[1..]), [RBRACKET], rest);
      assert [items[0]] + items[1..] == items;
    }
  }

  lemma Regroup(a: Bytes, b: Bytes, c: Bytes, d: Bytes, e: Bytes)
    ensures a + b + c + d + e == a + (b + (c + d + e))
  {
  }

  /** A key, a colon and a value, with what follows the value. */
  predicate MemberThen(s: Bytes, m: Member, after: Bytes)
  {
    && s != [] && s[0] == QUOTE
    && ParseChars(s[1..]).Ok?
    && var (key, afterKey) := ParseChars(s[1..]).value;
    && key == m.key && afterKey != [] && afterKey[0] == COLON
    && ParseValue(afterKey[1..]) == Ok((m.value, after))
  }

  /** A member followed by the closing brace ends the members. */
  lemma ParseMembersLast(s: Bytes, m: Member, after: Bytes)
    requires MemberThen(s, m, after)
    requires after != [] && after[0] == RBRACE
    ensures ParseMembers(s) == Ok(([m], after[1..]))
  {
    var afterKey := ParseChars(s[1..]).value.1;
    assert SkipWhitespace(s) == s;
    assert SkipWhitespace(afterKey) == afterKey;
    assert SkipWhitespace(after) == after;
  }

  /** A member followed by a comma is the first of the members. */
  lemma ParseMembersNext(s: Bytes, m: Member, after: Bytes, more: seq<Member>, rest: Bytes)
    requires MemberThen(s, m, after)
    requires after != [] && after[0] == COMMA
    requires ParseMembers(after[1..]) == Ok((more, rest))
    ensures ParseMembers(s) == Ok(([m] + more, rest))
  {
    var afterKey := ParseChars(s[1..]).value.1;
    assert SkipWhitespace(s) == s;
    assert SkipWhitespace(afterKey) == afterKey;
    assert SkipWhitespace(after) == after;
  }

  /** A printed member is read back as a key, a colon and a value. */
  lemma PrintedMemberThen(m: Member, after: Bytes)
    requires ParseValue(Print(m.value) + after) == Ok((m.value, after))
    ensures MemberThen(PrintMember(m) + after, m, after)
  {
    var v := Print(m.value) + after;
    var e := EscapeChars(m.key);
    var s := PrintMember(m) + after;
    assert s == [QUOTE] + (e + [QUOTE] + ([COLON] + v)) by {
      assert PrintMember(m) == [QUOTE] + e + [QUOTE] + [COLON] + Print(m.value);
      Regroup6([QUOTE], e, [QUOTE], [COLON], Print(m.value), after);
    }
    assert ParseChars(s[1..]) == Ok((m.key, [COLON] + v)) by {
      assert s[1..] == e + [QUOTE] + ([COLON] + v);
      ParseEscapedChars(m.key, [COLON] + v);
    }
    assert ([COLON] + v)[1..] == v;
  }

  lemma Regroup6(a: Bytes, b: Bytes, c: Bytes, d: Bytes, e: Bytes, f: Bytes)
    ensures a + b + c + d + e + f == a + (b + c + (d + (e + f)))
  {
  }

  lemma {:induction false} ParsePrintedMembers(ms: seq<Member>, rest: Bytes)
    requires ms != []
    ensures ParseMembers(PrintMembers(ms) + [RBRACE] + rest) == Ok((ms, rest))
    decreases ms, 1
  {
    var m := ms[0];
    var after := if |ms| == 1 then [RBRACE] + rest else [COMMA] + (PrintMembers(ms[1..]) + [RBRACE] + rest);
    MembersSplit(ms, rest);
    assert m in ms;
    ParsePrinted(m.value, after);
    PrintedMemberThen(m, after);
    if |ms| == 1 {
      assert after[1..] == rest;
      ParseMembersLast(PrintMember(m) + after, m, after);
      assert [m] == ms;
    } else {
      ParsePrintedMembers(ms[1..], rest);
      assert after[1..] == PrintMembers(ms[1..]) + [RBRACE] + rest;
      ParseMembersNext(PrintMember(m) + after, m, after, ms[1..], rest);
      assert [m] + ms[1..] == ms;
    }
  }

  /** The printed members, closed, are the first member followed by the brace or by a comma
      and the others. */
  lemma MembersSplit(ms: seq<Member>, rest: Bytes)
    requires ms != []
    ensures |ms| == 1 ==> PrintMembers(ms) + [RBRACE] + rest == PrintMember(ms[0]) + ([RBRACE] + rest)
    ensures |ms| > 1 ==> PrintMembers(ms) + [RBRACE] + rest == PrintMember(ms[0]) + ([COMMA] + (PrintMembers(ms[1..]) + [RBRACE] + rest))
  {
    var p := PrintMember(ms[0]);
    if |ms| == 1 {
      assert PrintMembers(ms) == p;
      Assoc(p, [RBRACE], rest);
    } else {
      var q := PrintMembers(ms[1..]);
      assert PrintMembers(ms) == p + [COMMA] + q;
      Assoc(p + [COMMA] + q, [RBRACE], rest);
      Assoc(p + [COMMA], q, [RBRACE] + rest);
      Assoc(p, [COMMA], q + ([RBRACE] + rest));
      Assoc(q, [RBRACE], rest);
    }
  }

  /** Round trip of a whole document. */
  lemma ParsePrint(j: Json)
    ensures Parse(Print(j)) == Ok(j)
  {
    ParsePrinted(j, []);
    assert Print(j) + [] == Print(j);
  }
}
