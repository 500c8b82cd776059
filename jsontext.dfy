/**
 * JSON text as Python's `json.dumps` writes it and `json.loads` reads it, for
 * the value shapes the profile columns use (null, booleans, numbers, strings
 * and lists). `ascii` is `json.dumps`'s `ensure_ascii` flag: when set, every
 * character outside the printable ASCII range is written as a `\uXXXX`
 * escape, and one beyond U+FFFF as a surrogate pair of them.
 */
module JsonText {
  import opened Wrappers
  import opened Text
  import opened Values

  // ---------------------------------------------------------------------
  // Encoding

  function HexDigit(n: nat): (c: char)
    requires n < 16
    ensures '0' <= c <= '9' || 'a' <= c <= 'f'
  {
    if n < 10 then ('0' as int + n) as char else ('a' as int + n - 10) as char
  }

  /** The four lower-case hex digits of `n`. */
  function Hex4Text(n: nat): (r: string)
    requires n < 0x10000
    ensures |r| == 4
  {
    [HexDigit(n / 16 / 16 / 16), HexDigit(n / 16 / 16 % 16), HexDigit(n / 16 % 16), HexDigit(n % 16)]
  }

  /** The escape `json.dumps` writes for one character of a string. */
  function EscapeChar(c: char, ascii: bool): (r: string)
    ensures |r| > 0
    ensures ascii ==> forall i :: 0 <= i < |r| ==> ' ' <= r[i] <= '~'
  {
    if c == '"' then "\\\""
    else if c == '\\' then "\\\\"
    else if c == '\n' then "\\n"
    else if c == '\r' then "\\r"
    else if c == '\t' then "\\t"
    else if c as int == 8 then "\\b"
    else if c as int == 12 then "\\f"
    else if (c as int) < 32 || (ascii && 0x7F <= c as int < 0x10000) then "\\u" + Hex4Text(c as int)
    else if ascii && c as int >= 0x10000 then
        var n := c as int - 0x10000;
        "\\u" + Hex4Text(0xD800 + n / 0x400) + "\\u" + Hex4Text(0xDC00 + n % 0x400)
    else [c]
  }

  function EscapeString(s: string, ascii: bool): string {
    if s == [] then "" else EscapeChar(s[0], ascii) + EscapeString(s[1..], ascii)
  }

  /** `json.dumps(v, ensure_ascii=ascii)` with the default `", "` item separator. */
  function Encode(v: Value, ascii: bool): (r: string)
    ensures |r| > 0
    decreases v
  {
    match v
    case VNone => "null"
    case VBool(b) => if b then "true" else "false"
    case VInt(i) => IntToString(i)
    case VFloat(d) => FloatRepr(d)
    case VStr(s) => "\"" + EscapeString(s, ascii) + "\""
    case VList(items) => if items == [] then "[]" else "[" + EncodeItems(items, ascii) + "]"
  }

  function EncodeItems(items: seq<Value>, ascii: bool): string
    requires items != []
    decreases items
  {
    if |items| == 1 then Encode(items[0], ascii) else Encode(items[0], ascii) + ", " + EncodeItems(items[1..], ascii)
  }

  // ---------------------------------------------------------------------
  // Decoding

  predicate IsJsonSpace(c: char) {
    c == ' ' || c == '\t' || c == '\n' || c == '\r'
  }

  function SkipWs(s: string): (r: string)
    ensures |r| <= |s| && (r == [] || !IsJsonSpace(r[0]))
  {
    if |s| > 0 && IsJsonSpace(s[0]) then SkipWs(s[1..]) else s
  }

  function HexValue(c: char): (r: Option<nat>)
    ensures r.Some? ==> r.value < 16
  {
    if '0' <= c <= '9' then Some(c as int - '0' as int)
    else if 'a' <= c <= 'f' then Some(c as int - 'a' as int + 10)
    else if 'A' <= c <= 'F' then Some(c as int - 'A' as int + 10)
    else None
  }

  /** Four hex digits of a `\uXXXX` escape. */
  function Hex4(s: string): (r: Option<nat>)
    requires |s| == 4
    ensures r.Some? ==> r.value < 0x10000
  {
    var a, b, c, d := HexValue(s[0]), HexValue(s[1]), HexValue(s[2]), HexValue(s[3]);
    if a.Some? && b.Some? && c.Some? && d.Some? then
      Some(((a.value * 16 + b.value) * 16 + c.value) * 16 + d.value)
    else None
  }

  function SimpleEscape(e: char): Option<char> {
    if e == '"' then Some('"')
    else if e == '\\' then Some('\\')
    else if e == '/' then Some('/')
    else if e == 'b' then Some(8 as char)
    else if e == 'f' then Some(12 as char)
    else if e == 'n' then Some('\n')
    else if e == 'r' then Some('\r')
    else if e == 't' then Some('\t')
    else None
  }

  /** The character a surrogate pair stands for. */
  function Paired(hi: nat, lo: nat): (c: char)
    requires 0xD800 <= hi < 0xDC00 && 0xDC00 <= lo < 0xE000
    ensures 0x10000 <= c as int
  {
    (0x10000 + (hi - 0xD800) * 0x400 + (lo - 0xDC00)) as char
  }

  function Prepend(c: char, r: Option<(string, string)>): Option<(string, string)> {
    match r
    case Some((t, rest)) => Some(([c] + t, rest))
    case None => None
  }

  /**
   * The characters of a string literal after its opening quote, up to and
   * excluding the closing quote; also the text after the closing quote.
   * A raw control character is refused (strict mode). A high surrogate
   * escape followed by a low surrogate escape is one character; a lone
   * surrogate half is not modelled and refused.
   */
  function ParseStringBody(s: string): (r: Option<(string, string)>)
    ensures r.Some? ==> |r.value.1| < |s|
    decreases |s|
  {
    if s == [] then None
    else if s[0] == '"' then Some(([], s[1..]))
    else if s[0] == '\\' then
      if |s| < 2 then None
      else if SimpleEscape(s[1]).Some? then Prepend(SimpleEscape(s[1]).value, ParseStringBody(s[2..]))
      else if s[1] == 'u' && |s| >= 6 && Hex4(s[2..6]).Some? && !(0xD800 <= Hex4(s[2..6]).value < 0xE000) then
        Prepend(Hex4(s[2..6]).value as char, ParseStringBody(s[6..]))
      else if s[1] == 'u' && |s| >= 12 && Hex4(s[2..6]).Some? && 0xD800 <= Hex4(s[2..6]).value < 0xDC00
        && s[6] == '\\' && s[7] == 'u' && Hex4(s[8..12]).Some? && 0xDC00 <= Hex4(s[8..12]).value < 0xE000 then
        Prepend(Paired(Hex4(s[2..6]).value, Hex4(s[8..12]).value), ParseStringBody(s[12..]))
      else None
    else if (s[0] as int) < 32 then None
    else Prepend(s[0], ParseStringBody(s[1..]))
  }

  predicate NumberChar(c: char) {
    IsDigit(c) || c == '-' || c == '+' || c == '.' || c == 'e' || c == 'E'
  }

  /** The longest prefix of number characters. */
  function NumberToken(s: string): (k: nat)
    ensures k <= |s| && (k < |s| ==> !NumberChar(s[k]))
    ensures forall i :: 0 <= i < k ==> NumberChar(s[i])
  {
    if s == [] || !NumberChar(s[0]) then 0 else 1 + NumberToken(s[1..])
  }

  /**
   * A number token, `-?(0|[1-9][0-9]*)(\.[0-9]+)?([eE][-+]?[0-9]+)?`: an int
   * when it has neither fraction nor exponent, otherwise `float(token)`.
   */
  function ParseNumberToken(tok: string): Option<Value> {
    var neg := |tok| > 0 && tok[0] == '-';
    ParseNumberBody(tok, neg, if neg then tok[1..] else tok)
  }

  /** A magnitude with its sign applied. */
  function Signed(neg: bool, m: nat): int {
    if neg then -(m as int) else m
  }

  /** The number token `tok` once its minus sign, if any, is taken off as `body`. */
  function ParseNumberBody(tok: string, neg: bool, body: string): Option<Value> {
    var e1 := IndexOf(body, 'e');
    var e2 := IndexOf(body, 'E');
    var k := if e1 < e2 then e1 else e2;
    var mant := body[..k];
    var j := IndexOf(mant, '.');
    var whole := mant[..j];
    var validWhole := AllDigits(whole) && (whole[0] != '0' || |whole| == 1);
    var validFrac := j == |mant| || AllDigits(mant[j + 1..]);
    var validExp := k == |body| || ParseExponent(body[k + 1..]).Some?;
    if !(validWhole && validFrac && validExp) then None
    else if j == |mant| && k == |body| then Some(VInt(Signed(neg, DigitsValue(whole))))
    else
      match ParseFloat(tok)
      case Some(d) => Some(VFloat(d))
      case None => None
  }

  /** One JSON value at the start of `s`, and the text after it. */
  function ParseValue(s: string): (r: Option<(Value, string)>)
    ensures r.Some? ==> |r.value.1| < |s|
    decreases |s|, 0
  {
    if s == [] then None
    else if StartsWith(s, "null") then Some((VNone, s[4..]))
    else if StartsWith(s, "true") then Some((VBool(true), s[4..]))
    else if StartsWith(s, "false") then Some((VBool(false), s[5..]))
    else if s[0] == '"' then ParseStringValue(s[1..])
    else if s[0] == '[' then ParseListRest(SkipWs(s[1..]))
    else if s[0] == '-' || IsDigit(s[0]) then ParseNumber(s)
    else None
  }

  function ParseStringValue(s: string): (r: Option<(Value, string)>)
    ensures r.Some? ==> |r.value.1| < |s|
  {
    match ParseStringBody(s)
    case Some((str, rest)) => Some((VStr(str), rest))
    case None => None
  }

  function ParseNumber(s: string): (r: Option<(Value, string)>)
    ensures r.Some? ==> |r.value.1| < |s|
  {
    var k := NumberToken(s);
    match ParseNumberToken(s[..k])
    case Some(v) => if k > 0 then Some((v, s[k..])) else None
    case None => None
  }

  /** A list after its opening bracket and the whitespace that follows it. */
  function ParseListRest(t: string): (r: Option<(Value, string)>)
    ensures r.Some? ==> |r.value.1| < |t|
    decreases |t|, 2
  {
    if |t| > 0 && t[0] == ']' then Some((VList([]), t[1..]))
    else
      match ParseElems(t)
      case Some((items, rest)) => Some((VList(items), rest))
      case None => None
  }

  /** The elements of a non-empty list and the text after its closing bracket. */
  function ParseElems(s: string): (r: Option<(seq<Value>, string)>)
    ensures r.Some? ==> |r.value.1| < |s|
    decreases |s|, 1
  {
    match ParseValue(s)
    case None => None
    case Some((v, rest)) =>
      var t := SkipWs(rest);
      if |t| > 0 && t[0] == ']' then Some(([v], t[1..]))
      else if |t| > 0 && t[0] == ',' then
        match ParseElems(SkipWs(t[1..]))
        case Some((more, after)) => Some(([v] + more, after))
        case None => None
      else None
  }

  /** `json.loads(text)`; JSON objects, `NaN`/`Infinity` and lone surrogate halves give None. */
  function Decode(text: string): Option<Value> {
    match ParseValue(SkipWs(text))
    case Some((v, rest)) => if SkipWs(rest) == [] then Some(v) else None
    case None => None
  }

  // ---------------------------------------------------------------------
  // Round trip

  /** Every float inside is in canonical form (as every float `float()` produces). */
  predicate CanonicalValue(v: Value)
    decreases v
  {
    match v
    case VFloat(d) => Canonical(d)
    case VList(items) => forall i :: 0 <= i < |items| ==> CanonicalValue(items[i])
    case _ => true
  }

  lemma SkipWsNone(s: string)
    requires s == [] || !IsJsonSpace(s[0])
    ensures SkipWs(s) == s
  {
  }

  lemma HexDigitValue(n: nat)
    requires n < 16
    ensures HexValue(HexDigit(n)) == Some(n)
  {
  }

  /** Four hex digits read back as the number they were written for. */
  lemma Hex4TextValue(n: nat)
    requires n < 0x10000
    ensures Hex4(Hex4Text(n)) == Some(n)
  {
    var n1 := n / 16;
    var n2 := n1 / 16;
    var n3 := n2 / 16;
    HexDigitValue(n3);
    HexDigitValue(n2 % 16);
    HexDigitValue(n1 % 16);
    HexDigitValue(n % 16);
    assert n2 == n3 * 16 + n2 % 16;
    assert n1 == n2 * 16 + n1 % 16;
    assert n == n1 * 16 + n % 16;
  }

  /** A `\uXXXX` escape of a code point that is not a surrogate half is read as that character. */
  lemma UnitEscapeRoundTrip(x: nat, t: string)
    requires x < 0xD800 || 0xE000 <= x < 0x10000
    ensures ParseStringBody("\\u" + Hex4Text(x) + t) == Prepend(x as char, ParseStringBody(t))
  {
    var s := "\\u" + Hex4Text(x) + t;
    Hex4TextValue(x);
    assert s[2..6] == Hex4Text(x);
    assert s[6..] == t;
  }

  /** Two escapes forming a surrogate pair are read as the one character they stand for. */
  lemma PairEscapeRoundTrip(hi: nat, lo: nat, t: string)
    requires 0xD800 <= hi < 0xDC00 && 0xDC00 <= lo < 0xE000
    ensures ParseStringBody("\\u" + Hex4Text(hi) + "\\u" + Hex4Text(lo) + t) == Prepend(Paired(hi, lo), ParseStringBody(t))
  {
    var s := "\\u" + Hex4Text(hi) + "\\u" + Hex4Text(lo) + t;
    Hex4TextValue(hi);
    Hex4TextValue(lo);
    assert s[2..6] == Hex4Text(hi) && s[6] == '\\' && s[7] == 'u';
    assert s[8..12] == Hex4Text(lo) && s[12..] == t;
  }

  /** A character beyond U+FFFF is the one its surrogate pair stands for. */
  lemma PairedSplit(c: char)
    requires c as int >= 0x10000
    ensures var n := c as int - 0x10000; Paired(0xD800 + n / 0x400, 0xDC00 + n % 0x400) == c
  {
  }

  lemma {:induction false} EscapeCharRoundTrip(c: char, t: string, ascii: bool)
    ensures ParseStringBody(EscapeChar(c, ascii) + t) == Prepend(c, ParseStringBody(t))
  {
    if c == '"' || c == '\\' || c == '\n' || c == '\r' || c == '\t' || c as int == 8 || c as int == 12 {
      var e := if c == '"' then '"' else if c == '\\' then '\\' else if c == '\n' then 'n'
        else if c == '\r' then 'r' else if c == '\t' then 't' else if c as int == 8 then 'b' else 'f';
      assert EscapeChar(c, ascii) == ['\\', e];
      SimpleEscapeRoundTrip(e, c, t);
    } else if (c as int) < 32 || (ascii && 0x7F <= c as int < 0x10000) {
      UnitEscapeRoundTrip(c as int, t);
    } else if ascii && c as int >= 0x10000 {
      var n := c as int - 0x10000;
      PairEscapeRoundTrip(0xD800 + n / 0x400, 0xDC00 + n % 0x400, t);
      PairedSplit(c);
    } else {
      PlainRoundTrip(c, t);
    }
  }

  /** A two-character escape is read as the character it names. */
  lemma SimpleEscapeRoundTrip(e: char, c: char, t: string)
    requires SimpleEscape(e) == Some(c)
    ensures ParseStringBody(['\\', e] + t) == Prepend(c, ParseStringBody(t))
  {
    assert (['\\', e] + t)[2..] == t;
  }

  /** A character written as itself is read as itself. */
  lemma PlainRoundTrip(c: char, t: string)
    requires c != '"' && c != '\\' && c as int >= 32
    ensures ParseStringBody([c] + t) == Prepend(c, ParseStringBody(t))
  {
    assert ([c] + t)[1..] == t;
  }

  lemma {:induction false} EscapeStringRoundTrip(str: string, rest: string, ascii: bool)
    ensures ParseStringBody(EscapeString(str, ascii) + "\"" + rest) == Some((str, rest))
  {
    if str == [] {
      ClosingQuote(rest);
    } else {
      var t := EscapeString(str[1..], ascii) + "\"" + rest;
      EscapedText(str, rest, ascii);
      EscapeCharRoundTrip(str[0], t, ascii);
      EscapeStringRoundTrip(str[1..], rest, ascii);
      assert [str[0]] + str[1..] == str;
    }
  }

  /** The closing quote ends a string literal. */
  lemma ClosingQuote(rest: string)
    ensures ParseStringBody("\"" + rest) == Some(([], rest))
  {
    assert ("\"" + rest)[1..] == rest;
  }

  /** The escaped text of a non-empty string: its first character's escape, then the rest. */
  lemma EscapedText(str: string, rest: string, ascii: bool)
    requires str != []
    ensures EscapeString(str, ascii) + "\"" + rest == EscapeChar(str[0], ascii) + (EscapeString(str[1..], ascii) + "\"" + rest)
  {
  }

  lemma NoNumberChars(s: string, t: string)
    requires forall i :: 0 <= i < |s| ==> NumberChar(s[i])
    requires t == [] || !NumberChar(t[0])
    ensures NumberToken(s + t) == |s|
  {
    if s != [] {
      assert (s + t)[1..] == s[1..] + t;
      NoNumberChars(s[1..], t);
    } else {
      assert s + t == t;
    }
  }

  /** A signed run of digits with no leading zero is read as an int. */
  /** The minus sign of a token is split off the rest. */
  lemma SignedToken(neg: bool, body: string)
    requires body == [] || body[0] != '-'
    ensures var tok := (if neg then "-" else "") + body;
      ParseNumberToken(tok) == ParseNumberBody(tok, neg, body)
  {
    var tok := (if neg then "-" else "") + body;
    assert (|tok| > 0 && tok[0] == '-') == neg;
    assert (if neg then tok[1..] else tok) == body;
  }

  /** A signed run of digits with no leading zero is read as an int. */
  lemma IntTokenShape(neg: bool, body: string)
    requires AllDigits(body) && (body[0] != '0' || |body| == 1)
    ensures ParseNumberToken((if neg then "-" else "") + body)
      == Some(VInt(Signed(neg, DigitsValue(body))))
  {
    SignedToken(neg, body);
    IntBody((if neg then "-" else "") + body, neg, body);
  }

  lemma IntBody(tok: string, neg: bool, body: string)
    requires AllDigits(body) && (body[0] != '0' || |body| == 1)
    ensures ParseNumberBody(tok, neg, body) == Some(VInt(Signed(neg, DigitsValue(body))))
  {
    DigitsHaveNo(body, 'e'); DigitsHaveNo(body, 'E'); DigitsHaveNo(body, '.');
    assert IndexOf(body, 'e') == |body| && IndexOf(body, 'E') == |body|;
    assert body[..|body|] == body;
    assert IndexOf(body, '.') == |body|;
  }

  lemma IntTokenRoundTrip(i: int)
    ensures ParseNumberToken(IntToString(i)) == Some(VInt(i))
  {
    var n: nat := if i < 0 then -i else i;
    var body := NatToString(n);
    assert IntToString(i) == (if i < 0 then "-" else "") + body;
    IntTokenShape(i < 0, body);
    NatToStringValue(n);
  }

  /** Where the markers sit in unsigned `whole.frac` text made of digits. */
  lemma FractionBody(whole: string, frac: string)
    requires AllDigits(whole) && AllDigits(frac)
    ensures var body := whole + "." + frac;
      IndexOf(body, 'e') == |body| && IndexOf(body, 'E') == |body| && IndexOf(body, '.') == |whole|
      && body[..|whole|] == whole && body[|whole| + 1..] == frac
  {
    var body := whole + "." + frac;
    assert forall i :: 0 <= i < |body| ==> body[i] != 'e' && body[i] != 'E' by {
      DigitsHaveNo(whole, 'e'); DigitsHaveNo(whole, 'E');
      DigitsHaveNo(frac, 'e'); DigitsHaveNo(frac, 'E');
    }
    assert body == whole + ("." + frac);
    DigitsHaveNo(whole, '.');
    IndexOfPrefix(whole, "." + frac, '.');
  }

  /** A signed `whole.frac` token with a well-formed whole part is read with `float`. */
  lemma FractionTokenIsFloat(neg: bool, whole: string, frac: string)
    requires AllDigits(whole) && (whole[0] != '0' || |whole| == 1) && AllDigits(frac)
    ensures var tok := (if neg then "-" else "") + whole + "." + frac;
      ParseNumberToken(tok) == (match ParseFloat(tok) case Some(d) => Some(VFloat(d)) case None => None)
  {
    var body := whole + "." + frac;
    assert (if neg then "-" else "") + whole + "." + frac == (if neg then "-" else "") + body;
    SignedToken(neg, body);
    FloatBody((if neg then "-" else "") + body, neg, whole, frac);
  }

  lemma FloatBody(tok: string, neg: bool, whole: string, frac: string)
    requires AllDigits(whole) && (whole[0] != '0' || |whole| == 1) && AllDigits(frac)
    ensures ParseNumberBody(tok, neg, whole + "." + frac)
      == (match ParseFloat(tok) case Some(d) => Some(VFloat(d)) case None => None)
  {
    var body := whole + "." + frac;
    FractionBody(whole, frac);
    assert body[..|body|] == body;
  }

  lemma FloatTokenRoundTrip(d: Decimal)
    requires Canonical(d)
    ensures ParseNumberToken(FloatRepr(d)) == Some(VFloat(d))
  {
    NormalizeCanonical(d);
    var whole := NatToString(WholePart(d));
    var frac := FracText(d);
    assert FloatRepr(d) == (if d.mantissa < 0 then "-" else "") + whole + "." + frac;
    FractionTokenIsFloat(d.mantissa < 0, whole, frac);
    ParseFloatRepr(d);
  }

  /** Text starting with a sign or a digit is read as a number. */
  lemma ParseValueNumber(s: string)
    requires |s| > 0 && (s[0] == '-' || IsDigit(s[0]))
    ensures ParseValue(s) == ParseNumber(s)
  {
    assert !StartsWith(s, "null") && !StartsWith(s, "true") && !StartsWith(s, "false");
  }

  lemma NumberPrefix(tok: string, v: Value, rest: string)
    requires |tok| > 0 && forall i :: 0 <= i < |tok| ==> NumberChar(tok[i])
    requires ParseNumberToken(tok) == Some(v)
    requires rest == [] || !NumberChar(rest[0])
    ensures ParseNumber(tok + rest) == Some((v, rest))
  {
    var s := tok + rest;
    NoNumberChars(tok, rest);
    assert s[..|tok|] == tok && s[|tok|..] == rest;
  }

  lemma NumberRoundTrip(tok: string, v: Value, rest: string)
    requires |tok| > 0 && (tok[0] == '-' || IsDigit(tok[0]))
    requires forall i :: 0 <= i < |tok| ==> NumberChar(tok[i])
    requires ParseNumberToken(tok) == Some(v)
    requires rest == [] || !NumberChar(rest[0])
    ensures ParseValue(tok + rest) == Some((v, rest))
  {
    NumberPrefix(tok, v, rest);
    assert (tok + rest)[0] == tok[0];
    ParseValueNumber(tok + rest);
  }

  lemma IntChars(i: int)
    ensures var t := IntToString(i);
      |t| > 0 && (t[0] == '-' || IsDigit(t[0])) && forall k :: 0 <= k < |t| ==> NumberChar(t[k])
  {
  }

  lemma FloatChars(d: Decimal)
    ensures var t := FloatRepr(d);
      |t| > 0 && (t[0] == '-' || IsDigit(t[0])) && forall k :: 0 <= k < |t| ==> NumberChar(t[k])
  {
    var n := Normalize(d);
    var whole := NatToString(WholePart(n));
    var frac := FracText(n);
    assert FloatRepr(d) == (if n.mantissa < 0 then "-" else "") + whole + "." + frac;
  }

  /** A value's text never starts with JSON whitespace, a comma or a bracket that closes. */
  lemma EncodeFirst(v: Value, ascii: bool)
    ensures var t := Encode(v, ascii); !IsJsonSpace(t[0]) && t[0] != ']' && t[0] != ','
  {
    match v
    case VInt(i) => IntChars(i);
    case VFloat(d) => FloatChars(d);
    case _ =>
  }

  lemma {:induction false} ValueRoundTrip(v: Value, rest: string, ascii: bool)
    requires CanonicalValue(v)
    requires rest == [] || !NumberChar(rest[0])
    ensures ParseValue(Encode(v, ascii) + rest) == Some((v, rest))
    decreases v, 2
  {
    match v
    case VNone => LiteralRoundTrip(v, rest, ascii);
    case VBool(_) => LiteralRoundTrip(v, rest, ascii);
    case VInt(i) =>
      IntChars(i);
      IntTokenRoundTrip(i);
      NumberRoundTrip(Encode(v, ascii), v, rest);
    case VFloat(d) =>
      FloatChars(d);
      FloatTokenRoundTrip(d);
      NumberRoundTrip(Encode(v, ascii), v, rest);
    case VStr(str) => StringRoundTrip(str, rest, ascii);
    case VList(items) => ListRoundTrip(items, rest, ascii);
  }

  lemma LiteralRoundTrip(v: Value, rest: string, ascii: bool)
    requires v.VNone? || v.VBool?
    ensures ParseValue(Encode(v, ascii) + rest) == Some((v, rest))
  {
    var s := Encode(v, ascii) + rest;
    if v.VNone? {
      assert s[..4] == "null" && s[4..] == rest;
    } else if v.b {
      assert s[0] == 't';
      assert s[..4] == "true" && s[4..] == rest;
    } else {
      assert s[0] == 'f';
      assert s[..5] == "false" && s[5..] == rest;
    }
  }

  lemma StringRoundTrip(str: string, rest: string, ascii: bool)
    ensures ParseValue(Encode(VStr(str), ascii) + rest) == Some((VStr(str), rest))
  {
    var body := EscapeString(str, ascii) + "\"" + rest;
    EscapeStringRoundTrip(str, rest, ascii);
    QuotedString(str, rest, ascii);
    QuotedValue(body);
  }

  /** A string's text followed by `rest` is a quote, the escaped string, a quote and `rest`. */
  lemma QuotedString(str: string, rest: string, ascii: bool)
    ensures Encode(VStr(str), ascii) + rest == "\"" + (EscapeString(str, ascii) + "\"" + rest)
  {
  }

  /** Text opening with a quote is read as a string literal. */
  lemma QuotedValue(body: string)
    ensures ParseValue("\"" + body) == ParseStringValue(body)
  {
    var s := "\"" + body;
    assert s[0] == '"' && s[1..] == body;
    assert !StartsWith(s, "null") && !StartsWith(s, "true") && !StartsWith(s, "false");
  }

  /** Text opening with a bracket is read as a list. */
  lemma BracketValue(body: string)
    ensures ParseValue("[" + body) == ParseListRest(SkipWs(body))
  {
    var s := "[" + body;
    assert s[0] == '[' && s[1..] == body;
    assert !StartsWith(s, "null") && !StartsWith(s, "true") && !StartsWith(s, "false");
  }

  lemma {:induction false} ListRoundTrip(items: seq<Value>, rest: string, ascii: bool)
    requires forall i :: 0 <= i < |items| ==> CanonicalValue(items[i])
    ensures ParseValue(Encode(VList(items), ascii) + rest) == Some((VList(items), rest))
    decreases items, 1
  {
    if items == [] {
      assert Encode(VList(items), ascii) + rest == "[" + ("]" + rest);
      BracketValue("]" + rest);
      SkipWsNone("]" + rest);
      assert ("]" + rest)[1..] == rest;
    } else {
      var body := EncodeItems(items, ascii) + "]" + rest;
      assert Encode(VList(items), ascii) + rest == "[" + body;
      BracketValue(body);
      EncodeFirst(items[0], ascii);
      TailStart(items, rest, ascii);
      SkipWsNone(body);
      ElemsRoundTrip(items, rest, ascii);
    }
  }

  lemma {:induction false} ElemsRoundTrip(items: seq<Value>, rest: string, ascii: bool)
    requires items != []
    requires forall i :: 0 <= i < |items| ==> CanonicalValue(items[i])
    ensures ParseElems(EncodeItems(items, ascii) + "]" + rest) == Some((items, rest))
    decreases items, 0
  {
    if |items| == 1 {
      ValueRoundTrip(items[0], "]" + rest, ascii);
      ElemsSingle(items, rest, ascii);
    } else {
      var tail := EncodeItems(items[1..], ascii) + "]" + rest;
      ValueRoundTrip(items[0], ", " + tail, ascii);
      ElemsRoundTrip(items[1..], rest, ascii);
      ItemsText(items, rest, ascii);
      ElemsNext(EncodeItems(items, ascii) + "]" + rest, items[0], tail, items[1..], rest);
      assert [items[0]] + items[1..] == items;
    }
  }

  /** The text of a one-element list's element, once the element reads back. */
  lemma ElemsSingle(items: seq<Value>, rest: string, ascii: bool)
    requires |items| == 1
    requires ParseValue(Encode(items[0], ascii) + ("]" + rest)) == Some((items[0], "]" + rest))
    ensures ParseElems(EncodeItems(items, ascii) + "]" + rest) == Some((items, rest))
  {
    var s := EncodeItems(items, ascii) + "]" + rest;
    assert s == Encode(items[0], ascii) + ("]" + rest);
    ElemsLast(s, items[0], rest);
    assert [items[0]] == items;
  }

  /** The text of several elements: the first, a `", "` and the others, which start with no space. */
  lemma ItemsText(items: seq<Value>, rest: string, ascii: bool)
    requires |items| > 1
    ensures var tail := EncodeItems(items[1..], ascii) + "]" + rest;
      EncodeItems(items, ascii) + "]" + rest == Encode(items[0], ascii) + (", " + tail)
      && tail != [] && !IsJsonSpace(tail[0])
  {
    var first, others := Encode(items[0], ascii), EncodeItems(items[1..], ascii);
    assert EncodeItems(items, ascii) == first + ", " + others;
    SeparatedText(first, others, rest);
    EncodeFirst(items[1], ascii);
    TailStart(items[1..], rest, ascii);
  }

  lemma SeparatedText(first: string, others: string, rest: string)
    ensures first + ", " + others + "]" + rest == first + (", " + (others + "]" + rest))
  {
  }

  lemma TailStart(items: seq<Value>, rest: string, ascii: bool)
    requires items != []
    ensures (EncodeItems(items, ascii) + "]" + rest)[0] == Encode(items[0], ascii)[0]
  {
  }

  /** A value followed by the closing bracket ends the elements. */
  lemma ElemsLast(s: string, v: Value, rest: string)
    requires ParseValue(s) == Some((v, "]" + rest))
    ensures ParseElems(s) == Some(([v], rest))
  {
    SkipWsNone("]" + rest);
    assert ("]" + rest)[1..] == rest;
  }

  /** A value followed by `", "` and further elements. */
  lemma ElemsNext(s: string, v: Value, tail: string, more: seq<Value>, rest: string)
    requires ParseValue(s) == Some((v, ", " + tail))
    requires tail != [] && !IsJsonSpace(tail[0])
    requires ParseElems(tail) == Some((more, rest))
    ensures ParseElems(s) == Some(([v] + more, rest))
  {
    Separator(tail);
  }

  /** The `", "` between two elements, as the element parser skips it. */
  lemma Separator(tail: string)
    requires tail != [] && !IsJsonSpace(tail[0])
    ensures var after := ", " + tail;
      SkipWs(after) == after && after[0] == ',' && SkipWs(after[1..]) == tail
  {
    var after := ", " + tail;
    SkipWsNone(after);
    assert after[1..] == " " + tail;
    assert (" " + tail)[1..] == tail;
    SkipWsNone(tail);
  }

  /** `json.loads(json.dumps(v)) == v` for every value whose floats are canonical. */
  lemma DecodeEncode(v: Value, ascii: bool)
    requires CanonicalValue(v)
    ensures Decode(Encode(v, ascii)) == Some(v)
  {
    EncodeFirst(v, ascii);
    SkipWsNone(Encode(v, ascii));
    ValueRoundTrip(v, [], ascii);
    assert Encode(v, ascii) + [] == Encode(v, ascii);
  }
}
