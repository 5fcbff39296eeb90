/** The statistics converter's post-processing of the mapped rows: the DDMMYY
    date conversion, the integer coercion of a set of columns, the date of birth
    and the cadre category taken from the cadre type. Each pass is a
    `foreach ($mapped as &$row)` loop that rewrites the rows one by one. */
module Statistics {
  import opened Bytes
  import opened Text
  import opened Php

  // ---------------------------------------------------------------------------
  // Calendar.

  predicate IsLeap(y: int)
  {
    y % 4 == 0 && (y % 100 != 0 || y % 400 == 0)
  }

  function DaysIn(m: int, y: int): int
  {
    if m == 2 then (if IsLeap(y) then 29 else 28)
    else if m == 4 || m == 6 || m == 9 || m == 11 then 30
    else 31
  }

  /** `checkdate($m, $d, $y)`. */
  predicate CheckDate(m: int, d: int, y: int)
  {
    1 <= m <= 12 && 1 <= d <= DaysIn(m, y) && 1 <= y <= 32767
  }

  /** The two-digit-year pivot: 00-29 are 2000-2029, 30-99 are 1930-1999. */
  function Century(yy: int): int
  {
    if yy <= 29 then 2000 + yy else 1900 + yy
  }

  /** The pivot gives every year of 1930-2029 once: it is undone by `% 100`. */
  lemma CenturyWindow(yy: nat, y: int)
    requires yy < 100
    ensures 1930 <= Century(yy) <= 2029 && Century(yy) % 100 == yy
    ensures 1930 <= y <= 2029 ==> Century(y % 100) == y
  {
  }

  // ---------------------------------------------------------------------------
  // Printing.

  function Zeros(n: nat): (s: string)
    ensures |s| == n && forall k :: 0 <= k < n ==> s[k] == '0'
  {
    if n == 0 then [] else Zeros(n - 1) + "0"
  }

  /** `sprintf('%0wd', $n)` for a non-negative n: the decimal text, left-padded
      with zeros to width w. */
  function ZeroPad(n: nat, w: nat): string
  {
    var s := NatToDecimal(n);
    if |s| >= w then s else Zeros(w - |s|) + s
  }

  /** Two decimal digits. */
  function Two(n: nat): (s: string)
    requires n < 100
    ensures |s| == 2 && AllDigits(s)
  {
    [DigitChar(n / 10), DigitChar(n % 10)]
  }

  lemma ZeroPadTwo(n: nat)
    requires n < 100
    ensures ZeroPad(n, 2) == Two(n)
  {
    if n >= 10 {
      assert NatToDecimal(n) == NatToDecimal(n / 10) + [DigitChar(n % 10)];
    }
  }

  lemma ZeroPadFour(n: nat)
    requires 1000 <= n < 10000
    ensures ZeroPad(n, 4) == NatToDecimal(n)
    ensures |NatToDecimal(n)| == 4
  {
    assert NatToDecimal(n / 1000) == [DigitChar(n / 1000)];
    assert NatToDecimal(n / 100) == NatToDecimal(n / 1000) + [DigitChar(n / 100 % 10)];
    assert NatToDecimal(n / 10) == NatToDecimal(n / 100) + [DigitChar(n / 10 % 10)];
  }

  // ---------------------------------------------------------------------------
  // `dbf_ddmmyy_to_ymd`.

  /** Null unless the trimmed text is exactly six digits DDMMYY naming a real
      date; otherwise the date as YYYY-MM-DD. */
  function DdmmyyToYmd(v: Value): Option<string>
  {
    DdmmyyText(Trim(ToText(v)))
  }

  /** The conversion of the trimmed text. */
  function DdmmyyText(s: string): Option<string>
  {
    if |s| != 6 || !AllDigits(s) then None
    else
      var dd, mm, yy := StrToInt(s[..2]), StrToInt(s[2..4]), StrToInt(s[4..]);
      var year := Century(yy);
      if !CheckDate(mm, dd, year) then None
      else Some(ZeroPad(year, 4) + "-" + ZeroPad(mm, 2) + "-" + ZeroPad(dd, 2))
  }

  /** The ISO text of a date of the pivot window. */
  function IsoDate(y: nat, m: nat, d: nat): string
    requires 1000 <= y < 10000 && m < 100 && d < 100
  {
    NatToDecimal(y) + "-" + Two(m) + "-" + Two(d)
  }

  /** The DDMMYY text of a day, month and two-digit year. */
  function Ddmmyy(d: nat, m: nat, yy: nat): (s: string)
    requires d < 100 && m < 100 && yy < 100
    ensures |s| == 6 && AllDigits(s)
  {
    Two(d) + Two(m) + Two(yy)
  }

  lemma TwoReadsBack(n: nat)
    requires n < 100
    ensures StrToInt(Two(n)) == n
  {
    var t := Two(n);
    DigitsToInt(t);
    assert t[..1] == [DigitChar(n / 10)];
    assert DigitsValue(t[..1]) == n / 10 by {
      assert t[..1][..0] == [];
    }
  }

  /** Two digits read as a number below 100. */
  lemma TwoDigitsBound(t: string)
    requires |t| == 2 && AllDigits(t)
    ensures 0 <= StrToInt(t) < 100
  {
    DigitsToInt(t);
    assert IsDigit(t[0]) && IsDigit(t[1]);
    assert t[..1][..0] == [] && t[..1][0] == t[0];
    assert DigitsValue(t[..1]) == t[0] as int - '0' as int;
    assert DigitsValue(t) == 10 * DigitsValue(t[..1]) + (t[1] as int - '0' as int);
  }

  /** The printed date has the shape YYYY-MM-DD. */
  lemma IsoShape(y: nat, m: nat, d: nat)
    requires 1000 <= y < 10000 && m < 100 && d < 100
    ensures var r := ZeroPad(y, 4) + "-" + ZeroPad(m, 2) + "-" + ZeroPad(d, 2);
      r == IsoDate(y, m, d) && |r| == 10 && r[4] == '-' && r[7] == '-'
  {
    ZeroPadFour(y);
    ZeroPadTwo(m);
    ZeroPadTwo(d);
  }

  lemma DdmmyyParts(d: nat, m: nat, yy: nat)
    requires d < 100 && m < 100 && yy < 100
    ensures var s := Ddmmyy(d, m, yy);
      Trim(s) == s && s[..2] == Two(d) && s[2..4] == Two(m) && s[4..] == Two(yy)
  {
    var s := Ddmmyy(d, m, yy);
    assert IsDigit(s[0]) && IsDigit(s[5]);
    TrimNoop(s);
  }

  /** Six digits decode by their three pairs: the day, the month and the year
      through the pivot, null exactly when that is not a calendar date. */
  lemma DdmmyyDecode(d: nat, m: nat, yy: nat)
    requires d < 100 && m < 100 && yy < 100
    ensures DdmmyyToYmd(Str(Ddmmyy(d, m, yy))) ==
      if CheckDate(m, d, Century(yy)) then Some(IsoDate(Century(yy), m, d)) else None
  {
    DdmmyyParts(d, m, yy);
    TwoReadsBack(d);
    TwoReadsBack(m);
    TwoReadsBack(yy);
    if CheckDate(m, d, Century(yy)) {
      IsoShape(Century(yy), m, d);
    }
  }

  /** Every date of 1930-2029 written as DDMMYY converts to its ISO text. */
  lemma DateRoundTrip(y: nat, m: nat, d: nat)
    requires 1930 <= y <= 2029 && CheckDate(m, d, y)
    ensures DdmmyyToYmd(Str(Ddmmyy(d, m, y % 100))) == Some(IsoDate(y, m, d))
  {
    CenturyWindow(y % 100, y);
    DdmmyyDecode(d, m, y % 100);
  }

  /** Anything that is not six digits once trimmed gives null, and every result
      has the shape YYYY-MM-DD. */
  lemma DdmmyyShape(v: Value)
    ensures (|Trim(ToText(v))| != 6 || !AllDigits(Trim(ToText(v)))) ==> DdmmyyToYmd(v) == None
    ensures DdmmyyToYmd(v).Some? ==>
      var r := DdmmyyToYmd(v).value; |r| == 10 && r[4] == '-' && r[7] == '-'
  {
    TextShape(Trim(ToText(v)));
  }

  lemma TextShape(s: string)
    ensures DdmmyyText(s).Some? ==>
      var r := DdmmyyText(s).value; |r| == 10 && r[4] == '-' && r[7] == '-'
  {
    if |s| == 6 && AllDigits(s) {
      var dd, mm, yy := StrToInt(s[..2]), StrToInt(s[2..4]), StrToInt(s[4..]);
      TwoDigitsBound(s[..2]);
      TwoDigitsBound(s[2..4]);
      TwoDigitsBound(s[4..]);
      if CheckDate(mm, dd, Century(yy)) {
        IsoShape(Century(yy), mm, dd);
      }
    }
  }

  /** 30 February 2000 is not a date. */
  lemma ThirtiethOfFebruary()
    ensures DdmmyyToYmd(Str("300200")) == None
  {
    assert "300200" == Ddmmyy(30, 2, 0);
    DdmmyyDecode(30, 2, 0);
  }

  lemma EpochText()
    ensures IsoDate(1970, 1, 1) == "1970-01-01" && Ddmmyy(1, 1, 70) == "010170"
  {
    assert NatToDecimal(197) == "197";
  }

  /** 1 January 1970. */
  lemma EpochDate()
    ensures DdmmyyToYmd(Str("010170")) == Some("1970-01-01")
  {
    EpochText();
    DdmmyyDecode(1, 1, 70);
  }

  lemma CenturyEndText()
    ensures IsoDate(1999, 12, 31) == "1999-12-31" && Ddmmyy(31, 12, 99) == "311299"
  {
    assert NatToDecimal(199) == "199";
  }

  /** 31 December 1999. */
  lemma LastDateOfCentury()
    ensures DdmmyyToYmd(Str("311299")) == Some("1999-12-31")
  {
    CenturyEndText();
    DdmmyyDecode(31, 12, 99);
  }

  // ---------------------------------------------------------------------------
  // The integer coercion of `int_fields`.

  /** Set, not empty and numeric: `(int)`; anything else: null. */
  function CastValue(v: Value): Value
  {
    if v != Null && v != Str("") && IsNumeric(v) then Int(ToInt(v)) else Null
  }

  /** A cast value stays as it is when cast again. */
  lemma CastValueIdempotent(v: Value)
    ensures CastValue(CastValue(v)) == CastValue(v)
    ensures CastValue(v) == Null || CastValue(v).Int?
  {
  }

  /** The coercion of the listed fields, one after the other. */
  function CastFields(row: Row, fs: seq<string>): Row
  {
    if fs == [] then row
    else
      var r := CastFields(row, fs[..|fs| - 1]);
      var f := fs[|fs| - 1];
      Set(r, f, CastValue(Lookup(r, f)))
  }

  /** `foreach ($int_fields as $f)` on one row. */
  method CastRow(row0: Row, fs: seq<string>) returns (row: Row)
    ensures row == CastFields(row0, fs)
  {
    row := row0;
    var i := 0;
    while i < |fs|
      invariant i <= |fs|
      invariant row == CastFields(row0, fs[..i])
    {
      assert fs[..i + 1][..i] == fs[..i];
      row := Set(row, fs[i], CastValue(Lookup(row, fs[i])));
      i := i + 1;
    }
    assert fs[..i] == fs;
  }

  lemma CastLast(row: Row, fs: seq<string>, k: string)
    requires fs != []
    ensures var init, f := fs[..|fs| - 1], fs[|fs| - 1];
      Get(CastFields(row, fs), k) ==
        if k == f then Some(CastValue(Lookup(CastFields(row, init), f))) else Get(CastFields(row, init), k)
  {
    var init, f := fs[..|fs| - 1], fs[|fs| - 1];
    var r := CastFields(row, init);
    SetGet(r, f, CastValue(Lookup(r, f)), k);
  }

  /** Each listed field holds its cast value, even when listed twice; every other
      field is unchanged. */
  lemma {:induction false} CastFieldsGet(row: Row, fs: seq<string>, k: string)
    ensures Get(CastFields(row, fs), k) == if k in fs then Some(CastValue(Lookup(row, k))) else Get(row, k)
  {
    if fs != [] {
      var init := fs[..|fs| - 1];
      CastFieldsGet(row, init, k);
      CastLast(row, fs, k);
      assert fs == init + [fs[|fs| - 1]];
      CastValueIdempotent(Lookup(row, k));
    }
  }

  // ---------------------------------------------------------------------------
  // `dob` from `dob_ddmmyyyy`.

  function OptText(r: Option<string>): Value
  {
    match r
    case None => Null
    case Some(s) => Str(s)
  }

  /** The converted date when the source is not empty, null otherwise. */
  function DobRule(row: Row): Row
  {
    var src := Lookup(row, "dob_ddmmyyyy");
    Set(row, "dob", if IsEmpty(src) then Null else OptText(DdmmyyToYmd(src)))
  }

  lemma DobRuleGet(row: Row, k: string)
    ensures Get(DobRule(row), k) ==
      if k == "dob" then
        var src := Lookup(row, "dob_ddmmyyyy");
        Some(if IsEmpty(src) then Null else OptText(DdmmyyToYmd(src)))
      else Get(row, k)
  {
    var src := Lookup(row, "dob_ddmmyyyy");
    SetGet(row, "dob", if IsEmpty(src) then Null else OptText(DdmmyyToYmd(src)), k);
  }

  /** A date of birth is either null or a text of the form YYYY-MM-DD. */
  lemma DobShape(row: Row)
    ensures var dob := Lookup(DobRule(row), "dob");
      dob == Null || (dob.Str? && |dob.s| == 10 && dob.s[4] == '-' && dob.s[7] == '-')
  {
    DobRuleGet(row, "dob");
    DdmmyyShape(Lookup(row, "dob_ddmmyyyy"));
  }

  // ---------------------------------------------------------------------------
  // `cadre_category` from `cadre_type`.

  /** 1, 2 and 3 (as integers, which the coercion has made them) are GG, TT and
      GT; anything else is null. */
  function CadreCategory(t: Value): Value
  {
    if t == Int(1) then Str("GG")
    else if t == Int(2) then Str("TT")
    else if t == Int(3) then Str("GT")
    else Null
  }

  /** The field is first set to null, then overwritten for a known type. */
  function CadreRule(row: Row): Row
  {
    var r1 := Set(row, "cadre_category", Null);
    var t := Lookup(r1, "cadre_type");
    if !IsEmpty(t) && CadreCategory(t) != Null then Set(r1, "cadre_category", CadreCategory(t)) else r1
  }

  lemma CadreRuleGet(row: Row, k: string)
    ensures Get(CadreRule(row), k) ==
      if k == "cadre_category" then Some(CadreCategory(Lookup(row, "cadre_type"))) else Get(row, k)
  {
    var r1 := Set(row, "cadre_category", Null);
    SetGet(row, "cadre_category", Null, "cadre_type");
    SetGet(row, "cadre_category", Null, k);
    var t := Lookup(r1, "cadre_type");
    if !IsEmpty(t) && CadreCategory(t) != Null {
      SetGet(r1, "cadre_category", CadreCategory(t), k);
    }
  }

  /** The category is the type's code, and the type is read back from it: the
      three codes are distinct and each comes from exactly one type. */
  lemma CadreCategoryInverse(t: Value, u: Value)
    ensures CadreCategory(t) != Null ==> t in {Int(1), Int(2), Int(3)}
    ensures CadreCategory(t) != Null && CadreCategory(t) == CadreCategory(u) ==> t == u
  {
  }

  // ---------------------------------------------------------------------------
  // The three passes over all rows.

  /** The post-processing of one mapped row: coercion, then the date of birth,
      then the cadre category. */
  function PostProcess(row: Row, intFields: seq<string>): Row
  {
    CadreRule(DobRule(CastFields(row, intFields)))
  }

  /** `foreach ($mapped as &$row)` with the coercion. */
  method CastAll(mapped: seq<Row>, intFields: seq<string>) returns (out: seq<Row>)
    ensures |out| == |mapped|
    ensures forall k :: 0 <= k < |mapped| ==> out[k] == CastFields(mapped[k], intFields)
  {
    out := mapped;
    var i := 0;
    while i < |out|
      invariant i <= |out| == |mapped|
      invariant forall k :: 0 <= k < i ==> out[k] == CastFields(mapped[k], intFields)
      invariant forall k :: i <= k < |out| ==> out[k] == mapped[k]
    {
      var row := CastRow(out[i], intFields);
      out := out[i := row];
      i := i + 1;
    }
  }

  /** `foreach ($mapped as &$row)` with the date of birth. */
  method DobAll(mapped: seq<Row>) returns (out: seq<Row>)
    ensures |out| == |mapped|
    ensures forall k :: 0 <= k < |mapped| ==> out[k] == DobRule(mapped[k])
  {
    out := mapped;
    var i := 0;
    while i < |out|
      invariant i <= |out| == |mapped|
      invariant forall k :: 0 <= k < i ==> out[k] == DobRule(mapped[k])
      invariant forall k :: i <= k < |out| ==> out[k] == mapped[k]
    {
      var row := out[i];
      var src := Lookup(row, "dob_ddmmyyyy");
      if !IsEmpty(src) {
        row := Set(row, "dob", OptText(DdmmyyToYmd(src)));
      } else {
        row := Set(row, "dob", Null);
      }
      out := out[i := row];
      i := i + 1;
    }
  }

  /** `foreach ($mapped as &$row)` with the cadre category. */
  method CadreAll(mapped: seq<Row>) returns (out: seq<Row>)
    ensures |out| == |mapped|
    ensures forall k :: 0 <= k < |mapped| ==> out[k] == CadreRule(mapped[k])
  {
    out := mapped;
    var i := 0;
    while i < |out|
      invariant i <= |out| == |mapped|
      invariant forall k :: 0 <= k < i ==> out[k] == CadreRule(mapped[k])
      invariant forall k :: i <= k < |out| ==> out[k] == mapped[k]
    {
      var row := Set(out[i], "cadre_category", Null);
      var t := Lookup(row, "cadre_type");
      if !IsEmpty(t) {
        if t == Int(1) {
          row := Set(row, "cadre_category", Str("GG"));
        } else if t == Int(2) {
          row := Set(row, "cadre_category", Str("TT"));
        } else if t == Int(3) {
          row := Set(row, "cadre_category", Str("GT"));
        }
      }
      out := out[i := row];
      i := i + 1;
    }
  }

  /** The three passes of the run block. */
  method PostProcessAll(mapped: seq<Row>, intFields: seq<string>) returns (out: seq<Row>)
    ensures |out| == |mapped|
    ensures forall k :: 0 <= k < |mapped| ==> out[k] == PostProcess(mapped[k], intFields)
  {
    out := CastAll(mapped, intFields);
    out := DobAll(out);
    out := CadreAll(out);
  }

  /** The coercion only overwrites: when every listed field is a key, the keys
      and their order stay as they are. */
  lemma {:induction false} CastFieldsKeys(row: Row, fs: seq<string>)
    requires forall f :: f in fs ==> f in Keys(row)
    ensures Keys(CastFields(row, fs)) == Keys(row)
  {
    if fs != [] {
      var init, f := fs[..|fs| - 1], fs[|fs| - 1];
      assert forall g :: g in init ==> g in fs;
      CastFieldsKeys(row, init);
      var r := CastFields(row, init);
      SetKeys(r, f, CastValue(Lookup(r, f)));
    }
  }

  /** Post-processing a row that already has the cast fields, `dob` and
      `cadre_category` does not add, drop or move a key. */
  lemma PostProcessKeys(row: Row, intFields: seq<string>)
    requires forall f :: f in intFields ==> f in Keys(row)
    requires "dob" in Keys(row) && "cadre_category" in Keys(row)
    ensures Keys(PostProcess(row, intFields)) == Keys(row)
  {
    CastFieldsKeys(row, intFields);
    var r1 := CastFields(row, intFields);
    var src := Lookup(r1, "dob_ddmmyyyy");
    SetKeys(r1, "dob", if IsEmpty(src) then Null else OptText(DdmmyyToYmd(src)));
    var r2 := DobRule(r1);
    SetKeys(r2, "cadre_category", Null);
    var r3 := Set(r2, "cadre_category", Null);
    SetKeys(r3, "cadre_category", CadreCategory(Lookup(r3, "cadre_type")));
  }

  /** What a post-processed row holds: each listed field cast, the date of birth
      converted, the category from the cast type, everything else untouched. */
  lemma PostProcessGet(row: Row, intFields: seq<string>, k: string)
    requires "dob" !in intFields && "cadre_category" !in intFields && "dob_ddmmyyyy" !in intFields
    ensures Get(PostProcess(row, intFields), k) ==
      if k == "cadre_category" then
        Some(CadreCategory(if "cadre_type" in intFields then CastValue(Lookup(row, "cadre_type")) else Lookup(row, "cadre_type")))
      else if k == "dob" then
        var src := Lookup(row, "dob_ddmmyyyy");
        Some(if IsEmpty(src) then Null else OptText(DdmmyyToYmd(src)))
      else if k in intFields then Some(CastValue(Lookup(row, k)))
      else Get(row, k)
  {
    var r1 := CastFields(row, intFields);
    var r2 := DobRule(r1);
    CadreRuleGet(r2, k);
    CadreRuleGet(r2, "cadre_type");
    DobRuleGet(r1, k);
    DobRuleGet(r1, "cadre_type");
    CastFieldsGet(row, intFields, k);
    CastFieldsGet(row, intFields, "cadre_type");
    CastFieldsGet(row, intFields, "dob_ddmmyyyy");
  }
}
