/** The per-row rules of the candidates converter, applied after a record is
    decoded and before the selected fields are kept: the quota flags, the
    technical-cadre map, the cadre category, the merit positions and the gender. */
module Candidates {
  import opened Bytes
  import opened Text
  import opened Php
  import opened PhpArrays
  import opened TechCadres

  // ---------------------------------------------------------------------------
  // Quota.

  /** The three quota flags. */
  datatype Quota = Quota(cff: bool, em: bool, phc: bool)

  /** `(int)($row[$f] ?? 0)`. */
  function FlagNumber(r: Row, f: string): int
  {
    ToInt(Coalesce(r, f, Int(0)))
  }

  /** Freedom-fighter status 2 or 3, tribal 1, disability 1. */
  function QuotaOf(r: Row): Quota
  {
    var ff := FlagNumber(r, "FF_STATUS");
    Quota(ff == 2 || ff == 3, FlagNumber(r, "TRIBAL") == 1, FlagNumber(r, "PHC") == 1)
  }

  function HasQuota(q: Quota): bool
  {
    q.cff || q.em || q.phc
  }

  function JsonBool(b: bool): (s: string)
    ensures |s| == (if b then 4 else 5)
    ensures s[0] == (if b then 't' else 'f')
  {
    if b then "true" else "false"
  }

  /** `json_encode` of the three flags, keys in the order they are written. */
  function QuotaJson(q: Quota): string
  {
    "{\"CFF\":" + JsonBool(q.cff) + ",\"EM\":" + JsonBool(q.em) + ",\"PHC\":" + JsonBool(q.phc) + "}"
  }

  /** Reads the flags back from the first letter of each value. */
  function QuotaFromJson(s: string): Option<Quota>
  {
    var a := 7;
    if |s| <= a then None
    else
      var cff := s[a] == 't';
      var b := a + (if cff then 4 else 5) + 6;
      if |s| <= b then None
      else
        var em := s[b] == 't';
        var c := b + (if em then 4 else 5) + 7;
        if |s| <= c then None else Some(Quota(cff, em, s[c] == 't'))
  }

  /** The JSON text keeps all three flags: decoding it gives them back, so two
      different flag sets never print the same. */
  lemma QuotaJsonRoundTrip(q: Quota)
    ensures QuotaFromJson(QuotaJson(q)) == Some(q)
  {
    var s := QuotaJson(q);
    var x, y, z := JsonBool(q.cff), JsonBool(q.em), JsonBool(q.phc);
    var b := 7 + |x| + 6;
    var c := b + |y| + 7;
    assert s == "{\"CFF\":" + x + ",\"EM\":" + y + ",\"PHC\":" + z + "}";
    assert s[7] == x[0];
    assert s[b] == y[0];
    assert s[c] == z[0];
  }

  lemma QuotaJsonInjective(p: Quota, q: Quota)
    ensures QuotaJson(p) == QuotaJson(q) ==> p == q
  {
    QuotaJsonRoundTrip(p);
    QuotaJsonRoundTrip(q);
  }

  /** A row without the three fields, or with them null, has no quota. */
  lemma QuotaAbsent(r: Row)
    requires !IsSet(r, "FF_STATUS") && !IsSet(r, "TRIBAL") && !IsSet(r, "PHC")
    ensures QuotaOf(r) == Quota(false, false, false) && !HasQuota(QuotaOf(r))
  {
  }

  /** A flag field holding digits counts by their value, leading zeros and all. */
  lemma FlagOfDigits(r: Row, f: string, d: string)
    requires Get(r, f) == Some(Str(d)) && |d| > 0 && AllDigits(d)
    ensures FlagNumber(r, f) == DigitsValue(d)
  {
    DigitsToInt(d);
  }

  /** Whether a quota applies, from the three fields. */
  lemma HasQuotaIff(r: Row)
    ensures HasQuota(QuotaOf(r)) <==>
      FlagNumber(r, "FF_STATUS") in {2, 3} || FlagNumber(r, "TRIBAL") == 1 || FlagNumber(r, "PHC") == 1
  {
  }

  // ---------------------------------------------------------------------------
  // Cadre category.

  /** `strtoupper(trim($s))`, then `T` becomes `TT` and `GN` becomes `GG`. */
  function NormalizeCategory(s: string): string
  {
    var c := Upper(Trim(s));
    if c == "T" then "TT" else if c == "GN" then "GG" else c
  }

  function CategoryOf(r: Row): string
  {
    NormalizeCategory(ToText(Coalesce(r, "CAT", Str(""))))
  }

  lemma UpperCharKeepsSpaces(c: char)
    ensures UpperChar(c) in PhpWhitespace <==> c in PhpWhitespace
  {
  }

  lemma UpperIdempotent(s: string)
    ensures Upper(Upper(s)) == Upper(s)
  {
  }

  /** The upper-cased trimmed text has no whitespace at its ends. */
  lemma UpperTrimmedIsTrimmed(s: string)
    ensures Trim(Upper(Trim(s))) == Upper(Trim(s))
  {
    var t := Trim(s);
    TrimShape(s);
    var u := Upper(t);
    if u != [] {
      UpperCharKeepsSpaces(t[0]);
      UpperCharKeepsSpaces(t[|t| - 1]);
    }
    TrimNoop(u);
  }

  lemma NormalCodeIsTrimmedUpper(c: string)
    requires c == "TT" || c == "GG"
    ensures Upper(Trim(c)) == c
  {
    TrimNoop(c);
    assert Upper(c) == c by {
      assert Upper(c)[0] == UpperChar(c[0]);
      assert Upper(c)[1] == UpperChar(c[1]);
    }
  }

  /** Normalizing twice is normalizing once. */
  lemma CategoryIdempotent(s: string)
    ensures NormalizeCategory(NormalizeCategory(s)) == NormalizeCategory(s)
  {
    var c := Upper(Trim(s));
    if c == "T" {
      NormalCodeIsTrimmedUpper("TT");
    } else if c == "GN" {
      NormalCodeIsTrimmedUpper("GG");
    } else {
      UpperTrimmedIsTrimmed(s);
      UpperIdempotent(Trim(s));
    }
  }

  /** The short codes never survive, and every result is upper case without
      surrounding whitespace. */
  lemma CategoryIsNormal(s: string)
    ensures NormalizeCategory(s) != "T" && NormalizeCategory(s) != "GN"
    ensures Upper(Trim(NormalizeCategory(s))) == NormalizeCategory(s)
  {
    CategoryIdempotent(s);
    var c := Upper(Trim(s));
    if c == "T" {
      NormalCodeIsTrimmedUpper("TT");
    } else if c == "GN" {
      NormalCodeIsTrimmedUpper("GG");
    } else {
      UpperTrimmedIsTrimmed(s);
      UpperIdempotent(Trim(s));
    }
  }

  // ---------------------------------------------------------------------------
  // Merit positions.

  /** `isset($row[$f]) ? (int)$row[$f] : null`. */
  function MeritCast(r: Row, f: string): Value
  {
    if IsSet(r, f) then Int(ToInt(Lookup(r, f))) else Null
  }

  /** A blank merit field reads as position 0, not as null. */
  lemma MeritBlankIsZero(r: Row, f: string)
    requires Get(r, f) == Some(Str(""))
    ensures MeritCast(r, f) == Int(0)
  {
    assert LTrim("", NumericWhitespace) == "";
  }

  /** Casting an already cast field changes nothing. */
  lemma MeritCastIdempotent(r: Row, f: string)
    ensures MeritCast(Set(r, f, MeritCast(r, f)), f) == MeritCast(r, f)
  {
    SetGet(r, f, MeritCast(r, f), f);
  }

  /** The merit assignments, in the order the three branches make them: a general
      cadre loses its technical position, a technical cadre its general one. */
  function MeritRule(r: Row, cat: string): Row
  {
    if cat == "GG" then
      var r1 := Set(r, "MERIT_TECH", Null);
      Set(r1, "MERIT_GEN", MeritCast(r1, "MERIT_GEN"))
    else if cat == "TT" then
      var r1 := Set(r, "MERIT_GEN", Null);
      Set(r1, "MERIT_TECH", MeritCast(r1, "MERIT_TECH"))
    else
      var r1 := Set(r, "MERIT_GEN", MeritCast(r, "MERIT_GEN"));
      Set(r1, "MERIT_TECH", MeritCast(r1, "MERIT_TECH"))
  }

  lemma MeritCastOther(r: Row, key: string, v: Value, f: string)
    requires key != f
    ensures MeritCast(Set(r, key, v), f) == MeritCast(r, f)
  {
    SetGet(r, key, v, f);
  }

  /** What the merit rule leaves in each field. */
  lemma MeritRuleGet(r: Row, cat: string, k: string)
    ensures Get(MeritRule(r, cat), k) ==
      if k == "MERIT_GEN" then Some(if cat == "TT" then Null else MeritCast(r, "MERIT_GEN"))
      else if k == "MERIT_TECH" then Some(if cat == "GG" then Null else MeritCast(r, "MERIT_TECH"))
      else Get(r, k)
  {
    if cat == "GG" {
      var r1 := Set(r, "MERIT_TECH", Null);
      MeritCastOther(r, "MERIT_TECH", Null, "MERIT_GEN");
      SetGet(r, "MERIT_TECH", Null, k);
      SetGet(r1, "MERIT_GEN", MeritCast(r1, "MERIT_GEN"), k);
    } else if cat == "TT" {
      var r1 := Set(r, "MERIT_GEN", Null);
      MeritCastOther(r, "MERIT_GEN", Null, "MERIT_TECH");
      SetGet(r, "MERIT_GEN", Null, k);
      SetGet(r1, "MERIT_TECH", MeritCast(r1, "MERIT_TECH"), k);
    } else {
      var r1 := Set(r, "MERIT_GEN", MeritCast(r, "MERIT_GEN"));
      MeritCastOther(r, "MERIT_GEN", MeritCast(r, "MERIT_GEN"), "MERIT_TECH");
      SetGet(r, "MERIT_GEN", MeritCast(r, "MERIT_GEN"), k);
      SetGet(r1, "MERIT_TECH", MeritCast(r1, "MERIT_TECH"), k);
    }
  }

  // ---------------------------------------------------------------------------
  // Gender.

  /** `$gender_map[$code] ?? $code`. */
  function GenderName(code: string): string
  {
    if code == "1" then "Male"
    else if code == "2" then "Female"
    else if code == "3" then "Third Gender"
    else code
  }

  /** `trim((string)($row['SEX'] ?? ''))`. */
  function GenderCode(r: Row): string
  {
    Trim(ToText(Coalesce(r, "SEX", Str(""))))
  }

  /** Translating a translated name changes nothing: each name is left alone. */
  lemma GenderIdempotent(code: string)
    ensures GenderName(GenderName(code)) == GenderName(code)
  {
  }

  /** Exactly the three codes are translated, and into three different names. */
  lemma GenderNames(code: string, code': string)
    ensures GenderName(code) != code <==> code in {"1", "2", "3"}
    ensures code in {"1", "2", "3"} && code' in {"1", "2", "3"} && code != code' ==>
      GenderName(code) != GenderName(code')
  {
  }

  /** Without a gender field the result is the empty string. */
  lemma GenderAbsent(r: Row)
    requires !IsSet(r, "SEX")
    ensures GenderName(GenderCode(r)) == ""
  {
    assert Trim("") == "";
  }

  // ---------------------------------------------------------------------------
  // The whole rule set.

  /** The quota block: `has_quota`, then `quota_info`. */
  function QuotaStage(row: Row): Row
  {
    var q := QuotaOf(row);
    Set(Set(row, "has_quota", Bool(HasQuota(q))), "quota_info", Str(QuotaJson(q)))
  }

  /** The technical-cadre block. The field is written twice in the source, the
      second time with the same text or `'{}'`, which is what `TechJson` gives
      for an empty map; one assignment has the same effect. */
  function TechStage(r: Row): Row
  {
    Set(r, "ALLM_TECH", Str(TechJson(TechMap(Coalesce(r, "ALLM_TECH", Str("{}"))))))
  }

  /** The category block followed by the merit block, which reads the category. */
  function CategoryStage(r: Row): Row
  {
    var cat := CategoryOf(r);
    MeritRule(Set(r, "CAT", Str(cat)), cat)
  }

  function GenderStage(r: Row): Row
  {
    Set(r, "SEX", Str(GenderName(GenderCode(r))))
  }

  /** The rules in the order the converter applies them. */
  function CandidateRules(row: Row): Row
  {
    GenderStage(CategoryStage(TechStage(QuotaStage(row))))
  }

  /** The rules one field at a time, each derived field in terms of the decoded
      row alone. */
  function RuleOutcome(row: Row, k: string): Option<Value>
  {
    var q := QuotaOf(row);
    var cat := CategoryOf(row);
    if k == "has_quota" then Some(Bool(HasQuota(q)))
    else if k == "quota_info" then Some(Str(QuotaJson(q)))
    else if k == "ALLM_TECH" then Some(Str(TechJson(TechMap(Coalesce(row, "ALLM_TECH", Str("{}"))))))
    else if k == "CAT" then Some(Str(cat))
    else if k == "MERIT_GEN" then Some(if cat == "TT" then Null else MeritCast(row, "MERIT_GEN"))
    else if k == "MERIT_TECH" then Some(if cat == "GG" then Null else MeritCast(row, "MERIT_TECH"))
    else if k == "SEX" then Some(Str(GenderName(GenderCode(row))))
    else Get(row, k)
  }

  /** Fields the quota block does not write read the same after it. */
  lemma QuotaStageGet(row: Row, k: string)
    ensures Get(QuotaStage(row), k) ==
      if k == "has_quota" then Some(Bool(HasQuota(QuotaOf(row))))
      else if k == "quota_info" then Some(Str(QuotaJson(QuotaOf(row))))
      else Get(row, k)
  {
    var q := QuotaOf(row);
    var r1 := Set(row, "has_quota", Bool(HasQuota(q)));
    SetGet(row, "has_quota", Bool(HasQuota(q)), k);
    SetGet(r1, "quota_info", Str(QuotaJson(q)), k);
  }

  lemma TechStageGet(r: Row, k: string)
    ensures Get(TechStage(r), k) ==
      if k == "ALLM_TECH" then Some(Str(TechJson(TechMap(Coalesce(r, "ALLM_TECH", Str("{}"))))))
      else Get(r, k)
  {
    SetGet(r, "ALLM_TECH", Str(TechJson(TechMap(Coalesce(r, "ALLM_TECH", Str("{}"))))), k);
  }

  lemma CategoryStageGet(r: Row, k: string)
    ensures Get(CategoryStage(r), k) ==
      var cat := CategoryOf(r);
      if k == "CAT" then Some(Str(cat))
      else if k == "MERIT_GEN" then Some(if cat == "TT" then Null else MeritCast(r, "MERIT_GEN"))
      else if k == "MERIT_TECH" then Some(if cat == "GG" then Null else MeritCast(r, "MERIT_TECH"))
      else Get(r, k)
  {
    var cat := CategoryOf(r);
    var r1 := Set(r, "CAT", Str(cat));
    MeritRuleGet(r1, cat, k);
    SetGet(r, "CAT", Str(cat), k);
    MeritCastOther(r, "CAT", Str(cat), "MERIT_GEN");
    MeritCastOther(r, "CAT", Str(cat), "MERIT_TECH");
  }

  lemma GenderStageGet(r: Row, k: string)
    ensures Get(GenderStage(r), k) == if k == "SEX" then Some(Str(GenderName(GenderCode(r)))) else Get(r, k)
  {
    SetGet(r, "SEX", Str(GenderName(GenderCode(r))), k);
  }

  /** Two rows that agree on a field agree on everything read from it. */
  lemma SameField(r: Row, r': Row, f: string)
    requires Get(r, f) == Get(r', f)
    ensures Coalesce(r, f, Str("")) == Coalesce(r', f, Str(""))
    ensures Coalesce(r, f, Str("{}")) == Coalesce(r', f, Str("{}"))
    ensures MeritCast(r, f) == MeritCast(r', f)
  {
  }

  /** The quota and technical-cadre blocks leave the other fields alone. */
  lemma FrontKeeps(row: Row, f: string)
    requires f != "has_quota" && f != "quota_info" && f != "ALLM_TECH"
    ensures Get(TechStage(QuotaStage(row)), f) == Get(row, f)
  {
    QuotaStageGet(row, f);
    TechStageGet(QuotaStage(row), f);
  }

  /** Each block reads only fields the blocks before it leave alone. */
  lemma TechReadsInput(row: Row)
    ensures Coalesce(QuotaStage(row), "ALLM_TECH", Str("{}")) == Coalesce(row, "ALLM_TECH", Str("{}"))
  {
    QuotaStageGet(row, "ALLM_TECH");
    SameField(QuotaStage(row), row, "ALLM_TECH");
  }

  lemma CategoryReadsInput(row: Row)
    ensures var r3 := TechStage(QuotaStage(row));
      && CategoryOf(r3) == CategoryOf(row)
      && MeritCast(r3, "MERIT_GEN") == MeritCast(row, "MERIT_GEN")
      && MeritCast(r3, "MERIT_TECH") == MeritCast(row, "MERIT_TECH")
  {
    var r3 := TechStage(QuotaStage(row));
    FrontKeeps(row, "CAT");
    FrontKeeps(row, "MERIT_GEN");
    FrontKeeps(row, "MERIT_TECH");
    SameField(r3, row, "CAT");
    SameField(r3, row, "MERIT_GEN");
    SameField(r3, row, "MERIT_TECH");
  }

  lemma GenderReadsInput(row: Row)
    ensures GenderCode(CategoryStage(TechStage(QuotaStage(row)))) == GenderCode(row)
  {
    var r3 := TechStage(QuotaStage(row));
    FrontKeeps(row, "SEX");
    CategoryStageGet(r3, "SEX");
    SameField(CategoryStage(r3), row, "SEX");
  }

  /** The rules as applied, block after block, leave each field as the
      field-by-field description says. */
  lemma CandidateRulesGet(row: Row, k: string)
    ensures Get(CandidateRules(row), k) == RuleOutcome(row, k)
  {
    var r2 := QuotaStage(row);
    var r3 := TechStage(r2);
    var r4 := CategoryStage(r3);
    TechReadsInput(row);
    CategoryReadsInput(row);
    GenderReadsInput(row);
    QuotaStageGet(row, k);
    TechStageGet(r2, k);
    CategoryStageGet(r3, k);
    GenderStageGet(r4, k);
  }

  lemma RuleOutcomeSome(row: Row, k: string)
    ensures RuleOutcome(row, k).Some? <==>
      Get(row, k).Some? || k in ["has_quota", "quota_info", "ALLM_TECH", "CAT", "MERIT_GEN", "MERIT_TECH", "SEX"]
  {
  }

  /** The rules add at most the seven derived fields and keep every other field
      of the decoded row. */
  lemma CandidateRulesKeys(row: Row, k: string)
    ensures k in Keys(CandidateRules(row)) <==>
      k in Keys(row) || k in ["has_quota", "quota_info", "ALLM_TECH", "CAT", "MERIT_GEN", "MERIT_TECH", "SEX"]
  {
    CandidateRulesGet(row, k);
    RuleOutcomeSome(row, k);
    GetSome(CandidateRules(row), k);
    GetSome(row, k);
  }

  /** The rule block of the record loop, statement by statement. */
  method ApplyCandidateRules(row0: Row) returns (row: Row)
    ensures row == CandidateRules(row0)
  {
    row := row0;
    var ff := ToInt(Coalesce(row, "FF_STATUS", Int(0)));
    var em := ToInt(Coalesce(row, "TRIBAL", Int(0)));
    var phc := ToInt(Coalesce(row, "PHC", Int(0)));
    var quota := Quota(ff == 2 || ff == 3, em == 1, phc == 1);
    row := Set(row, "has_quota", Bool(quota.cff || quota.em || quota.phc));
    row := Set(row, "quota_info", Str(QuotaJson(quota)));
    assert row == QuotaStage(row0);

    var tech := ParseTech(Coalesce(row, "ALLM_TECH", Str("{}")));
    row := Set(row, "ALLM_TECH", Str(TechJson(tech)));
    assert row == TechStage(QuotaStage(row0));

    var cat := Upper(Trim(ToText(Coalesce(row, "CAT", Str("")))));
    if cat == "T" { cat := "TT"; }
    if cat == "GN" { cat := "GG"; }
    row := Set(row, "CAT", Str(cat));
    if cat == "GG" {
      row := Set(row, "MERIT_TECH", Null);
      row := Set(row, "MERIT_GEN", if IsSet(row, "MERIT_GEN") then Int(ToInt(Lookup(row, "MERIT_GEN"))) else Null);
    } else if cat == "TT" {
      row := Set(row, "MERIT_GEN", Null);
      row := Set(row, "MERIT_TECH", if IsSet(row, "MERIT_TECH") then Int(ToInt(Lookup(row, "MERIT_TECH"))) else Null);
    } else {
      row := Set(row, "MERIT_GEN", if IsSet(row, "MERIT_GEN") then Int(ToInt(Lookup(row, "MERIT_GEN"))) else Null);
      row := Set(row, "MERIT_TECH", if IsSet(row, "MERIT_TECH") then Int(ToInt(Lookup(row, "MERIT_TECH"))) else Null);
    }

    assert row == CategoryStage(TechStage(QuotaStage(row0)));
    var code := Trim(ToText(Coalesce(row, "SEX", Str(""))));
    row := Set(row, "SEX", Str(GenderName(code)));
  }

  // ---------------------------------------------------------------------------
  // Worked cases.

  /** Lower-case codes are normalised, and GT passes through. */
  lemma CategoryExamples()
    ensures NormalizeCategory("t") == "TT" && NormalizeCategory("gn") == "GG"
    ensures NormalizeCategory("GT") == "GT"
  {
    assert Trim("t") == "t" && Upper("t") == "T";
    assert Trim("gn") == "gn" && Upper("gn") == "GN";
    assert Trim("GT") == "GT" && Upper("GT") == "GT";
  }

  /** A known code is named and an unknown one kept. */
  lemma GenderExamples()
    ensures GenderName("2") == "Female" && GenderName("9") == "9"
  {
  }

  /** Freedom-fighter status 3 with the other flags 0. */
  lemma QuotaExample(r: Row)
    requires FlagNumber(r, "FF_STATUS") == 3 && FlagNumber(r, "TRIBAL") == 0 && FlagNumber(r, "PHC") == 0
    ensures HasQuota(QuotaOf(r))
    ensures QuotaJson(QuotaOf(r)) == "{\"CFF\":true,\"EM\":false,\"PHC\":false}"
  {
  }

  /** A general-cadre candidate with positions "7" and "3" keeps only the general
      position, as the integer 7. */
  lemma MeritExample(r: Row)
    requires Get(r, "MERIT_GEN") == Some(Str("7")) && Get(r, "MERIT_TECH") == Some(Str("3"))
    ensures Get(MeritRule(r, "GG"), "MERIT_GEN") == Some(Int(7))
    ensures Get(MeritRule(r, "GG"), "MERIT_TECH") == Some(Null)
  {
    MeritRuleGet(r, "GG", "MERIT_GEN");
    MeritRuleGet(r, "GG", "MERIT_TECH");
    DigitsToInt("7");
    SetGet(r, "MERIT_TECH", Null, "MERIT_GEN");
  }
}
