/** The PHP values and ordered arrays the converters pass around, with the
    conversions (`(int)`, `(string)`, `is_numeric`, `empty`, `isset`, `??`) they
    rely on. */
module Php {
  import opened Bytes
  import opened Text

  /** A PHP scalar. `Real(scaled)` is the float `scaled / 10000` that the currency
      decoder produces when the division is not exact. */
  datatype Value = Null | Str(s: string) | Int(i: int) | Bool(b: bool) | Real(scaled: int)

  /** One key/value pair of a PHP array with string keys. */
  datatype Entry = Entry(key: string, val: Value)

  /** A PHP array with string keys: pairs in insertion order, which is the order
      `foreach`, `array_keys` and `array_values` see. */
  type Row = seq<Entry>

  predicate Distinct<T(==)>(s: seq<T>)
  {
    forall i, j :: 0 <= i < j < |s| ==> s[i] != s[j]
  }

  function Keys(r: Row): seq<string>
  {
    seq(|r|, k requires 0 <= k < |r| => r[k].key)
  }

  function Values(r: Row): seq<Value>
  {
    seq(|r|, k requires 0 <= k < |r| => r[k].val)
  }

  /** Position of the first entry with key `key`, or |r| when there is none. */
  function Find(r: Row, key: string): nat
  {
    if r == [] then 0 else if r[0].key == key then 0 else 1 + Find(r[1..], key)
  }

  lemma {:induction false} FindSpec(r: Row, key: string)
    ensures Find(r, key) <= |r|
    ensures Find(r, key) < |r| ==> r[Find(r, key)].key == key
    ensures forall k :: 0 <= k < Find(r, key) ==> r[k].key != key
  {
    if r != [] && r[0].key != key {
      FindSpec(r[1..], key);
      forall k | 0 < k < Find(r, key) ensures r[k].key != key {
        assert r[k] == r[1..][k - 1];
      }
    }
  }

  /** The first matching position is the one Find gives. */
  lemma {:induction false} FindIsFirst(r: Row, key: string, i: nat)
    requires i <= |r| && (i < |r| ==> r[i].key == key)
    requires forall k :: 0 <= k < i ==> r[k].key != key
    ensures Find(r, key) == i
  {
    if r != [] && i > 0 {
      FindIsFirst(r[1..], key, i - 1);
    }
  }

  lemma FindIsIndexOfKeys(r: Row, key: string)
    ensures Find(r, key) < |r| <==> key in Keys(r)
  {
    FindSpec(r, key);
    var i := Find(r, key);
    if key in Keys(r) {
      var k :| 0 <= k < |r| && Keys(r)[k] == key;
      assert i <= k;
    }
    if i < |r| {
      assert Keys(r)[i] == key;
    }
  }

  /** The entry stored under `key`, if any. */
  function Get(r: Row, key: string): Option<Value>
  {
    var i := Find(r, key);
    if i < |r| then Some(r[i].val) else None
  }

  /** A key is found exactly when it is one of the array's keys. */
  lemma GetSome(r: Row, key: string)
    ensures Get(r, key).Some? <==> key in Keys(r)
  {
    FindIsIndexOfKeys(r, key);
  }

  /** `$r[$key] ?? null`. */
  function Lookup(r: Row, key: string): Value
  {
    Get(r, key).GetOr(Null)
  }

  /** `$r[$key] ?? $default`: the default when the key is absent or holds null. */
  function Coalesce(r: Row, key: string, default: Value): Value
  {
    var v := Lookup(r, key);
    if v == Null then default else v
  }

  /** `isset($r[$key])`: present and not null. */
  predicate IsSet(r: Row, key: string)
  {
    Lookup(r, key) != Null
  }

  /** `$r[$key] = $v`: an existing key keeps its place and takes the new value,
      a new key is appended. */
  function Set(r: Row, key: string, v: Value): Row
  {
    var i := Find(r, key);
    if i < |r| then r[i := Entry(key, v)] else r + [Entry(key, v)]
  }

  /** After the assignment the key holds the new value and no other key changes. */
  lemma SetGet(r: Row, key: string, v: Value, k: string)
    ensures Get(Set(r, key, v), k) == if k == key then Some(v) else Get(r, k)
  {
    var i := Find(r, key);
    FindSpec(r, key);
    var r' := Set(r, key, v);
    if k == key {
      FindIsFirst(r', key, i);
    } else {
      var j := Find(r, k);
      FindSpec(r, k);
      if j < |r| { FindIsFirst(r', k, j); } else { FindIsFirst(r', k, |r'|); }
    }
  }

  /** An existing key keeps its place; a new key goes last. */
  lemma SetKeys(r: Row, key: string, v: Value)
    ensures Keys(Set(r, key, v)) == if key in Keys(r) then Keys(r) else Keys(r) + [key]
  {
    FindIsIndexOfKeys(r, key);
    FindSpec(r, key);
  }

  /** Assigning a new key appends it at the end. */
  lemma SetNew(r: Row, key: string, v: Value)
    requires key !in Keys(r)
    ensures Set(r, key, v) == r + [Entry(key, v)]
  {
    FindIsIndexOfKeys(r, key);
  }

  /** Assignment keeps the keys distinct. */
  lemma SetKeepsDistinct(r: Row, key: string, v: Value)
    requires Distinct(Keys(r))
    ensures Distinct(Keys(Set(r, key, v)))
  {
    SetKeys(r, key, v);
  }

  /** `empty($v)`: null, "", "0", 0, 0.0 and false. */
  predicate IsEmpty(v: Value)
  {
    v == Null || v == Str("") || v == Str("0") || v == Int(0) || v == Bool(false) || v == Real(0)
  }

  /** The four decimal digits of `f`, zero padded. */
  function Pad4(f: nat): (s: string)
    requires f < 10000
    ensures |s| == 4
  {
    [DigitChar(f / 1000), DigitChar(f / 100 % 10), DigitChar(f / 10 % 10), DigitChar(f % 10)]
  }

  /** The four digits read back as the number they pad. */
  lemma Pad4ReadsBack(f: nat)
    requires f < 10000
    ensures AllDigits(Pad4(f)) && DigitsValue(Pad4(f)) == f
  {
    var s := Pad4(f);
    var a, b, c := f / 10, f / 100, f / 1000;
    assert f == 10 * a + f % 10 && a == 10 * b + a % 10 && b == 10 * c + b % 10;
    assert a % 10 == f / 10 % 10 && b % 10 == f / 100 % 10;
    assert s[..1][..0] == [] && s[..2][..1] == s[..1] && s[..3][..2] == s[..2] && s[..4][..3] == s[..3];
    assert s[..4] == s;
    assert DigitsValue(s[..1]) == c;
    assert DigitsValue(s[..2]) == b;
    assert DigitsValue(s[..3]) == a;
  }

  /** Text of the float `scaled / 10000`: integer part, then the fraction without
      trailing zeros. */
  function RealText(scaled: int): string
  {
    var a := if scaled < 0 then -scaled else scaled;
    var frac := RTrim(Pad4(a % 10000), "0");
    (if scaled < 0 then "-" else "") + NatToDecimal(a / 10000) + (if frac == "" then "" else "." + frac)
  }

  /** `(string)$v`, also what `str_replace`, `trim` and `implode` see. */
  function ToText(v: Value): string
  {
    match v
    case Null => ""
    case Str(s) => s
    case Int(i) => IntToDecimal(i)
    case Bool(b) => if b then "1" else ""
    case Real(sc) => RealText(sc)
  }

  /** The whitespace PHP allows around a numeric string. */
  const NumericWhitespace: string := " \t\n\r" + [11 as char, 12 as char]

  /** Number of leading decimal digits of `s`. */
  function LeadingDigits(s: string): (n: nat)
    ensures n <= |s|
  {
    if s == [] || !IsDigit(s[0]) then 0 else 1 + LeadingDigits(s[1..])
  }

  lemma {:induction false} LeadingDigitsSpec(s: string)
    ensures var n := LeadingDigits(s);
      AllDigits(s[..n]) && (n < |s| ==> !IsDigit(s[n]))
  {
    if s != [] && IsDigit(s[0]) {
      LeadingDigitsSpec(s[1..]);
      var n := LeadingDigits(s);
      assert s[..n] == [s[0]] + s[1..][..n - 1];
    }
  }

  /** Value of the leading run of digits of `u`, 0 when there is none. */
  function LeadingValue(u: string): int
  {
    DigitsValue(u[..LeadingDigits(u)])
  }

  /** `(int)$s` on a string: optional leading whitespace and sign, then the
      leading run of digits; 0 when there are none. */
  function StrToInt(s: string): int
  {
    var t := LTrim(s, NumericWhitespace);
    if t != [] && t[0] == '-' then 0 - LeadingValue(t[1..])
    else if t != [] && t[0] == '+' then LeadingValue(t[1..])
    else LeadingValue(t)
  }

  /** `(int)$v`: floats truncate toward zero, booleans give 0/1, null gives 0. */
  function ToInt(v: Value): int
  {
    match v
    case Null => 0
    case Str(s) => StrToInt(s)
    case Int(i) => i
    case Bool(b) => if b then 1 else 0
    case Real(sc) => if sc >= 0 then sc / 10000 else -((-sc) / 10000)
  }

  /** `is_numeric($s)` on a string: optional surrounding whitespace and sign, and a
      decimal number with an optional fractional part. */
  predicate IsNumericText(s: string)
  {
    var t := RTrim(LTrim(s, NumericWhitespace), NumericWhitespace);
    var u := if t != [] && (t[0] == '-' || t[0] == '+') then t[1..] else t;
    IndexOfSpec(u, '.');
    var i := IndexOf(u, '.');
    if i == |u| then u != [] && AllDigits(u)
    else AllDigits(u[..i]) && AllDigits(u[i + 1..]) && |u| > 1
  }

  /** `is_numeric($v)`: integers and floats always, strings by their text. */
  predicate IsNumeric(v: Value)
  {
    match v
    case Int(_) => true
    case Real(_) => true
    case Str(s) => IsNumericText(s)
    case _ => false
  }

  lemma DigitsPrefix(s: string)
    requires AllDigits(s)
    ensures LeadingDigits(s) == |s|
  {
    if s != [] { DigitsPrefix(s[1..]); }
  }

  /** `(int)` of a non-empty digit string is its value. */
  lemma DigitsToInt(d: string)
    requires |d| > 0 && AllDigits(d)
    ensures StrToInt(d) == DigitsValue(d)
  {
    StrToIntOfDigitStart(d);
    LeadingValueOfDigits(d);
  }

  lemma StrToIntOfDigitStart(s: string)
    requires s != [] && IsDigit(s[0])
    ensures StrToInt(s) == LeadingValue(s)
  {
    assert LTrim(s, NumericWhitespace) == s by { assert s[0] !in NumericWhitespace; }
  }

  lemma LeadingValueOfDigits(d: string)
    requires AllDigits(d)
    ensures LeadingValue(d) == DigitsValue(d)
  {
    DigitsPrefix(d);
    assert d[..|d|] == d;
  }

  /** A non-empty digit string is numeric. */
  lemma DigitsAreNumeric(d: string)
    requires |d| > 0 && AllDigits(d)
    ensures IsNumericText(d)
  {
    assert LTrim(d, NumericWhitespace) == d by { assert d[0] !in NumericWhitespace; }
    assert RTrim(d, NumericWhitespace) == d by { assert d[|d| - 1] !in NumericWhitespace; }
    assert IsDigit(d[0]);
    IndexOfSpec(d, '.');
    assert IndexOf(d, '.') == |d|;
  }

  /** `(int)` of a minus sign followed by digits is the negated value. */
  lemma NegativeDigitsToInt(d: string)
    requires |d| > 0 && AllDigits(d)
    ensures StrToInt("-" + d) == -(DigitsValue(d) as int)
  {
    var s := "-" + d;
    assert s[0] == '-' && s[1..] == d;
    assert LTrim(s, NumericWhitespace) == s by { assert s[0] !in NumericWhitespace; }
    LeadingValueOfDigits(d);
  }

  /** The text PHP prints for an integer has no whitespace around it. */
  lemma IntTextTrimmed(n: int)
    ensures Trim(IntToDecimal(n)) == IntToDecimal(n)
  {
    var s := IntToDecimal(n);
    var d := if n < 0 then NatToDecimal(-n) else NatToDecimal(n);
    NatToDecimalDigits(if n < 0 then -n else n);
    assert s[|s| - 1] == d[|d| - 1];
    assert IsDigit(d[|d| - 1]);
    assert s[0] == '-' || s[0] == d[0];
    assert IsDigit(d[0]);
    TrimNoop(s);
  }

  /** `(int)` reads back every integer PHP prints. */
  lemma IntTextRoundTrip(i: int)
    ensures StrToInt(IntToDecimal(i)) == i
  {
    if i < 0 {
      NatToDecimalDigits(-i);
      DecimalRoundTrip(-i);
      NegativeDigitsToInt(NatToDecimal(-i));
    } else {
      NatToDecimalDigits(i);
      DecimalRoundTrip(i);
      DigitsToInt(NatToDecimal(i));
    }
  }
}
