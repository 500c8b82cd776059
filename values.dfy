/**
 * The dynamically typed values that flow through the import/export code:
 * Python's None, bool, int, float, str and list, with `str(...)`, and the
 * float text conversions `float(s)` and `str(x)`.
 *
 * A float is modelled as an exact decimal `mantissa / 10^exponent` kept in
 * canonical form (no trailing zero in the mantissa while the exponent is positive).
 */
module Values {
  import opened Wrappers
  import opened Text

  function Pow10(n: nat): (r: nat)
    ensures r >= 1
  {
    if n == 0 then 1 else 10 * Pow10(n - 1)
  }

  datatype Decimal = Decimal(mantissa: int, exponent: nat)

  predicate Canonical(d: Decimal) {
    d.exponent == 0 || d.mantissa % 10 != 0
  }

  function ToReal(d: Decimal): real {
    d.mantissa as real / Pow10(d.exponent) as real
  }

  /** Drops trailing zeros of the mantissa while the exponent allows it. */
  function Normalize(d: Decimal): (r: Decimal)
    ensures Canonical(r) && r.exponent <= d.exponent
    decreases d.exponent
  {
    if d.exponent > 0 && d.mantissa % 10 == 0 then Normalize(Decimal(d.mantissa / 10, d.exponent - 1)) else d
  }

  /** Normalizing keeps the number a decimal denotes. */
  lemma {:induction false} NormalizeKeepsValue(d: Decimal)
    ensures ToReal(Normalize(d)) == ToReal(d)
    decreases d.exponent
  {
    if d.exponent > 0 && d.mantissa % 10 == 0 {
      var e := Decimal(d.mantissa / 10, d.exponent - 1);
      NormalizeKeepsValue(e);
      assert d.mantissa == e.mantissa * 10;
      assert Pow10(d.exponent) == 10 * Pow10(e.exponent);
      assert ToReal(d) == (e.mantissa * 10) as real / (10 * Pow10(e.exponent)) as real;
    }
  }

  lemma NormalizeCanonical(d: Decimal)
    requires Canonical(d)
    ensures Normalize(d) == d
  {
  }

  /** `int(x)` for a float: truncation toward zero. */
  function Truncate(d: Decimal): int {
    var p := Pow10(d.exponent);
    if d.mantissa >= 0 then d.mantissa / p else -((-d.mantissa) / p)
  }

  // ---------------------------------------------------------------------
  // float text: parsing ("float(s)") and rendering ("str(x)")

  /** Possibly empty run of ASCII digits. */
  predicate Digits(s: string) {
    forall i :: 0 <= i < |s| ==> IsDigit(s[i])
  }

  /** Index of the first occurrence of `c`, or `|s|`. */
  function IndexOf(s: string, c: char): (k: nat)
    ensures k <= |s| && (k < |s| ==> s[k] == c)
    ensures forall i :: 0 <= i < k ==> s[i] != c
  {
    if s == [] then 0 else if s[0] == c then 0 else 1 + IndexOf(s[1..], c)
  }

  /** The exponent suffix of `1e5`, `2.5E-3`: an optional sign, then digits. */
  function ParseExponent(s: string): Option<int> {
    if AllDigits(s) then Some(DigitsValue(s))
    else if |s| > 1 && s[0] == '+' && AllDigits(s[1..]) then Some(DigitsValue(s[1..]))
    else if |s| > 1 && s[0] == '-' && AllDigits(s[1..]) then Some(0 - DigitsValue(s[1..]) as int)
    else None
  }

  /** Unsigned positional text `digits[.digits]` with at least one digit, as a decimal. */
  function ParsePositional(s: string): Option<Decimal> {
    var k := IndexOf(s, '.');
    var whole := s[..k];
    var frac := if k < |s| then s[k + 1..] else "";
    if Digits(whole) && Digits(frac) && |whole| + |frac| > 0 then Some(Positional(whole, frac)) else None
  }

  /** The number `whole.frac` denotes. */
  function Positional(whole: string, frac: string): Decimal
    requires Digits(whole) && Digits(frac)
  {
    Decimal(DigitsValue(whole) * Pow10(|frac|) + DigitsValue(frac), |frac|)
  }

  /** Scales a decimal by `10^e` for any integer `e`. */
  function Scale(d: Decimal, e: int): Decimal {
    if e >= 0 then Decimal(d.mantissa * Pow10(e), d.exponent)
    else Decimal(d.mantissa, d.exponent + (-e))
  }

  /**
   * `float(s)` on stripped text: `[sign] positional [(e|E) [sign] digits]`.
   * The words `inf`/`nan` and `_` digit separators are not modelled and give None.
   */
  function ParseFloat(s: string): (r: Option<Decimal>)
    ensures r.Some? ==> Canonical(r.value)
  {
    var neg := |s| > 0 && s[0] == '-';
    var body := if |s| > 0 && (s[0] == '-' || s[0] == '+') then s[1..] else s;
    var e1 := IndexOf(body, 'e');
    var e2 := IndexOf(body, 'E');
    var k := if e1 < e2 then e1 else e2;
    var mant := ParsePositional(body[..k]);
    var exp := if k < |body| then ParseExponent(body[k + 1..]) else Some(0);
    if mant.Some? && exp.Some? then
      var d := Scale(mant.value, exp.value);
      Some(Normalize(if neg then Decimal(-d.mantissa, d.exponent) else d))
    else None
  }

  function Zeros(n: nat): (r: string)
    ensures |r| == n && Digits(r) && DigitsValue(r) == 0
  {
    if n == 0 then "" else Zeros(n - 1) + "0"
  }

  /** The fractional digits of a canonical decimal with positive exponent. */
  function FracDigits(f: nat, e: nat): (r: string)
    requires 0 < e && f < Pow10(e)
    ensures |r| == e && Digits(r) && DigitsValue(r) == f
  {
    var t := NatToString(f);
    NatToStringLength(f, e);
    NatToStringValue(f);
    DigitsAppend(Zeros(e - |t|), t);
    Zeros(e - |t|) + t
  }

  /**
   * `str(x)` / `repr(x)` for a float: the positional rendering with at least
   * one fractional digit (`3.0`, `-0.05`, `12.5`).
   */
  function FloatRepr(x: Decimal): (r: string)
    ensures |r| > 0
  {
    var d := Normalize(x);
    (if d.mantissa < 0 then "-" else "") + NatToString(WholePart(d)) + "." + FracText(d)
  }

  function Magnitude(d: Decimal): nat {
    if d.mantissa < 0 then -d.mantissa else d.mantissa
  }

  function WholePart(d: Decimal): nat {
    DivMod(Magnitude(d), Pow10(d.exponent)).0
  }

  function FracText(d: Decimal): string {
    if d.exponent == 0 then "0" else FracDigits(DivMod(Magnitude(d), Pow10(d.exponent)).1, d.exponent)
  }

  /** Quotient and remainder of a natural number by a positive divisor. */
  function DivMod(m: nat, p: nat): (qr: (nat, nat))
    requires p >= 1
    ensures qr.1 < p && m == qr.0 * p + qr.1
  {
    (m / p, m % p)
  }

  lemma {:induction false} DigitsAppend(a: string, b: string)
    requires Digits(a) && Digits(b)
    ensures Digits(a + b) && DigitsValue(a + b) == DigitsValue(a) * Pow10(|b|) + DigitsValue(b)
  {
    assert Digits(a + b) by {
      forall i | 0 <= i < |a + b| ensures IsDigit((a + b)[i]) {
        if i < |a| { assert (a + b)[i] == a[i]; } else { assert (a + b)[i] == b[i - |a|]; }
      }
    }
    if b == [] {
      assert a + b == a;
    } else {
      var ab := a + b;
      var b' := b[..|b| - 1];
      assert ab[..|ab| - 1] == a + b';
      assert ab[|ab| - 1] == b[|b| - 1];
      DigitsAppend(a, b');
      var x, y, q, d := DigitsValue(a), DigitsValue(b'), Pow10(|b'|), DigitValue(b[|b| - 1]);
      assert DigitsValue(ab) == DigitsValue(a + b') * 10 + d;
      assert DigitsValue(b) == y * 10 + d;
      assert Pow10(|b|) == q * 10;
      ScaleSum(x, q, y);
    }
  }

  /** `(x * q + y) * 10 == x * (q * 10) + y * 10`, kept apart from the digit reasoning. */
  lemma ScaleSum(x: nat, q: nat, y: nat)
    ensures (x * q + y) * 10 == x * (q * 10) + y * 10
  {
  }

  lemma {:induction false} NatToStringLength(n: nat, k: nat)
    requires k >= 1 && n < Pow10(k)
    ensures |NatToString(n)| <= k
  {
    if n >= 10 {
      NatToStringLength(n / 10, k - 1);
    }
  }

  lemma IndexOfPrefix(a: string, b: string, c: char)
    requires forall i :: 0 <= i < |a| ==> a[i] != c
    ensures IndexOf(a + b, c) == |a| + IndexOf(b, c)
  {
    if a != [] {
      assert (a + b)[1..] == a[1..] + b;
      IndexOfPrefix(a[1..], b, c);
    } else {
      assert a + b == b;
    }
  }

  lemma DigitsHaveNo(s: string, c: char)
    requires Digits(s) && !IsDigit(c)
    ensures forall i :: 0 <= i < |s| ==> s[i] != c
  {
  }

  /** Positional text `whole.frac` parses to its digits read as one number. */
  lemma ParsePositionalOf(whole: string, frac: string)
    requires AllDigits(whole) && Digits(frac)
    ensures ParsePositional(whole + "." + frac) == Some(Positional(whole, frac))
  {
    var body := whole + "." + frac;
    assert body == whole + ("." + frac);
    DigitsHaveNo(whole, '.');
    IndexOfPrefix(whole, "." + frac, '.');
    assert body[..|whole|] == whole;
    assert body[|whole| + 1..] == frac;
  }

  /** Text without an exponent marker parses as its positional part with its sign. */
  lemma ParseFloatNoExponent(neg: bool, body: string, dd: Decimal)
    requires |body| > 0 && body[0] != '-' && body[0] != '+'
    requires forall i :: 0 <= i < |body| ==> body[i] != 'e' && body[i] != 'E'
    requires ParsePositional(body) == Some(dd)
    ensures ParseFloat((if neg then "-" else "") + body)
      == Some(Normalize(if neg then Decimal(-dd.mantissa, dd.exponent) else dd))
  {
    var s := (if neg then "-" else "") + body;
    SignSplit(neg, body);
    assert IndexOf(body, 'e') == |body| && IndexOf(body, 'E') == |body|;
    assert body[..|body|] == body;
    ScaleZero(dd);
  }

  lemma SignSplit(neg: bool, body: string)
    requires |body| > 0 && body[0] != '-' && body[0] != '+'
    ensures var s := (if neg then "-" else "") + body;
      (|s| > 0 && s[0] == '-') == neg
      && (if |s| > 0 && (s[0] == '-' || s[0] == '+') then s[1..] else s) == body
  {
    var s := (if neg then "-" else "") + body;
    if neg {
      assert s[0] == '-' && s[1..] == body;
    } else {
      assert s == body;
    }
  }

  lemma ScaleZero(d: Decimal)
    ensures Scale(d, 0) == d
  {
    MulOne(d.mantissa, Pow10(0));
  }

  lemma MulOne(a: int, b: int)
    requires b == 1
    ensures a * b == a
  {
  }

  lemma TimesTen(a: int)
    ensures (a * 10) % 10 == 0 && (a * 10) / 10 == a
  {
  }

  /** The positional reading of a rendered float gives back its digits. */
  lemma PositionalOfRepr(d: Decimal, dd: Decimal)
    requires Canonical(d)
    requires dd == Positional(NatToString(WholePart(d)), FracText(d))
    ensures Normalize(if d.mantissa < 0 then Decimal(-dd.mantissa, dd.exponent) else dd) == d
  {
    var m := Magnitude(d);
    var p := Pow10(d.exponent);
    var (q, f) := DivMod(m, p);
    var frac := FracText(d);
    var whole := NatToString(q);
    NatToStringValue(q);
    if d.exponent == 0 {
      assert p == 1 && f == 0;
      MulOne(q, p);
      assert DigitsValue(frac) == 0 && Pow10(|frac|) == 10;
      assert dd == Decimal(m * 10, 1);
      TimesTen(d.mantissa);
      var signed := if d.mantissa < 0 then Decimal(-dd.mantissa, dd.exponent) else dd;
      assert signed == Decimal(d.mantissa * 10, 1);
    } else {
      assert |frac| == d.exponent && DigitsValue(frac) == f;
      assert dd == Decimal(q * p + f, d.exponent);
    }
  }

  /** `float(str(x)) == x`: the rendered text parses back to the same float. */
  lemma ParseFloatRepr(x: Decimal)
    ensures ParseFloat(FloatRepr(x)) == Some(Normalize(x))
  {
    var d := Normalize(x);
    var frac := FracText(d);
    var whole := NatToString(WholePart(d));
    var body := whole + "." + frac;
    assert FloatRepr(x) == (if d.mantissa < 0 then "-" else "") + body;
    assert forall i :: 0 <= i < |body| ==> body[i] != 'e' && body[i] != 'E' by {
      DigitsHaveNo(whole, 'e'); DigitsHaveNo(whole, 'E');
      DigitsHaveNo(frac, 'e'); DigitsHaveNo(frac, 'E');
    }
    ParsePositionalOf(whole, frac);
    var dd := Positional(whole, frac);
    ParseFloatNoExponent(d.mantissa < 0, body, dd);
    PositionalOfRepr(d, dd);
    var signed := if d.mantissa < 0 then Decimal(-dd.mantissa, dd.exponent) else dd;
    calc {
      ParseFloat(FloatRepr(x));
      ParseFloat((if d.mantissa < 0 then "-" else "") + body);
      Some(Normalize(signed));
      Some(d);
    }
  }

  // ---------------------------------------------------------------------
  // Dynamic values

  datatype Value =
    | VNone
    | VBool(b: bool)
    | VInt(i: int)
    | VFloat(d: Decimal)
    | VStr(s: string)
    | VList(items: seq<Value>)

  /** Python truthiness, used by the `x or default` idiom. */
  predicate Truthy(v: Value) {
    match v
    case VNone => false
    case VBool(b) => b
    case VInt(i) => i != 0
    case VFloat(d) => d.mantissa != 0
    case VStr(s) => s != ""
    case VList(items) => items != []
  }

  /** `str(v)` */
  function Str(v: Value): string {
    match v
    case VNone => "None"
    case VBool(b) => if b then "True" else "False"
    case VInt(i) => IntToString(i)
    case VFloat(d) => FloatRepr(d)
    case VStr(s) => s
    case VList(items) => "[" + ReprItems(items) + "]"
  }

  /** The items of a list as `str(list)` shows them: `repr` of each, joined by ", ". */
  function ReprItems(items: seq<Value>): string
    decreases items
  {
    if items == [] then ""
    else
      var first := match items[0]
        case VStr(s) => "'" + s + "'"
        case _ => Str(items[0]);
      if |items| == 1 then first else first + ", " + ReprItems(items[1..])
  }

  // ---------------------------------------------------------------------
  // Records: Python dicts keyed by strings, in insertion order

  type Record = seq<(string, Value)>

  function Keys(r: Record): (ks: seq<string>)
    ensures |ks| == |r| && forall i :: 0 <= i < |r| ==> ks[i] == r[i].0
  {
    if r == [] then [] else [r[0].0] + Keys(r[1..])
  }

  /** `d.get(k)` */
  function Get(r: Record, k: string): (v: Option<Value>)
    ensures v.Some? <==> k in Keys(r)
  {
    if r == [] then None else if r[0].0 == k then Some(r[0].1) else Get(r[1..], k)
  }

  /** `d[k] = v`: replaces in place when the key exists, appends otherwise. */
  function Set(r: Record, k: string, v: Value): (r': Record)
    ensures k in Keys(r) ==> Keys(r') == Keys(r)
    ensures k !in Keys(r) ==> Keys(r') == Keys(r) + [k]
  {
    if r == [] then [(k, v)]
    else if r[0].0 == k then [(k, v)] + r[1..]
    else [r[0]] + Set(r[1..], k, v)
  }

  /** A written key reads back as the written value; other keys are untouched. */
  lemma {:induction false} GetSet(r: Record, k: string, v: Value, j: string)
    ensures Get(Set(r, k, v), j) == if j == k then Some(v) else Get(r, j)
  {
    if r != [] && r[0].0 != k {
      GetSet(r[1..], k, v, j);
    }
  }

  /** Setting a key the record lacks appends the pair at the end. */
  lemma {:induction false} SetNew(r: Record, k: string, v: Value)
    requires k !in Keys(r)
    ensures Set(r, k, v) == r + [(k, v)]
  {
    if r != [] {
      assert Keys(r) == [r[0].0] + Keys(r[1..]);
      SetNew(r[1..], k, v);
    }
  }

  predicate Distinct<T(==)>(xs: seq<T>) {
    forall i, j :: 0 <= i < j < |xs| ==> xs[i] != xs[j]
  }

  lemma DistinctLast<T>(xs: seq<T>)
    requires Distinct(xs) && |xs| > 0
    ensures Distinct(xs[..|xs| - 1]) && xs[|xs| - 1] !in xs[..|xs| - 1]
  {
    var n := |xs| - 1;
    forall i | 0 <= i < n ensures xs[..n][i] != xs[n] {
    }
  }

  /** `{k: v for k, v in zip(keys, vals)}`: later duplicates overwrite earlier ones in place. */
  function DictOf(keys: seq<string>, vals: seq<Value>): Record
    requires |keys| == |vals|
  {
    if keys == [] then []
    else
      var n := |keys| - 1;
      Set(DictOf(keys[..n], vals[..n]), keys[n], vals[n])
  }

  /** With distinct keys the dict is the pairs in order. */
  lemma {:induction false} DictOfDistinct(keys: seq<string>, vals: seq<Value>)
    requires |keys| == |vals| && Distinct(keys)
    ensures var d := DictOf(keys, vals);
      |d| == |keys| && forall i :: 0 <= i < |keys| ==> d[i] == (keys[i], vals[i])
  {
    if keys != [] {
      var n := |keys| - 1;
      DictOfDistinct(keys[..n], vals[..n]);
      var d := DictOf(keys[..n], vals[..n]);
      assert Keys(d) == keys[..n];
      SetNew(d, keys[n], vals[n]);
    }
  }
}
