/** The technical-cadre list of the candidates file: `ALLM_TECH` holds pieces such
    as `ABC(5), XYZ(12)`; each comma-separated piece is searched for the pattern
    `/([A-Z]+)\s*\(\s*(\d+)\s*\)/i`, and the matches become a code -> number JSON
    object. */
module TechCadres {
  import opened Bytes
  import opened Text
  import opened Php
  import opened PhpArrays

  // ---------------------------------------------------------------------------
  // The pattern.

  /** The three character classes of the pattern: `[A-Z]` under `/i`, `\s`, `\d`. */
  datatype Class = Letters | Spaces | Digits

  predicate InClass(c: char, cl: Class)
  {
    match cl
    case Letters => IsLetter(c)
    case Spaces => IsRegexSpace(c)
    case Digits => IsDigit(c)
  }

  /** Length of the run of `cl` characters of `s` that starts at `i`. */
  function Run(s: string, i: nat, cl: Class): (n: nat)
    requires i <= |s|
    ensures i + n <= |s|
    decreases |s| - i
  {
    if i < |s| && InClass(s[i], cl) then 1 + Run(s, i + 1, cl) else 0
  }

  /** The run is made of `cl` characters and is followed by none. */
  lemma {:induction false} RunSpec(s: string, i: nat, cl: Class)
    requires i <= |s|
    ensures forall k :: i <= k < i + Run(s, i, cl) ==> InClass(s[k], cl)
    ensures i + Run(s, i, cl) < |s| ==> !InClass(s[i + Run(s, i, cl)], cl)
    decreases |s| - i
  {
    if i < |s| && InClass(s[i], cl) {
      RunSpec(s, i + 1, cl);
    }
  }

  /** A stretch of `n` class characters not followed by another is the run. */
  lemma {:induction false} RunExact(s: string, i: nat, cl: Class, n: nat)
    requires i + n <= |s|
    requires forall k :: i <= k < i + n ==> InClass(s[k], cl)
    requires i + n < |s| ==> !InClass(s[i + n], cl)
    ensures Run(s, i, cl) == n
    decreases n
  {
    if n > 0 {
      RunExact(s, i + 1, cl, n - 1);
    }
  }

  /** One element of a pattern: a literal char, `cl*` or `cl+`. */
  datatype Elem = Lit(ch: char) | Star(cl: Class) | Plus(cl: Class)

  /** `([A-Z]+)\s*\(\s*(\d+)\s*\)`: group 1 is element 0, group 2 element 4. */
  const TechPattern: seq<Elem> :=
    [Plus(Letters), Star(Spaces), Lit('('), Star(Spaces), Plus(Digits), Star(Spaces), Lit(')')]

  /** The positions where the elements of a match start, and where it ends. */
  type Bounds = seq<nat>

  predicate BoundsFit(s: string, bs: Bounds, n: nat)
  {
    && |bs| == n + 1
    && (forall j, k :: 0 <= j <= k <= n ==> bs[j] <= bs[k])
    && bs[n] <= |s|
  }

  function Prepend(p: nat, r: Option<Bounds>): Option<Bounds>
  {
    match r
    case None => None
    case Some(bs) => Some([p] + bs)
  }

  /** The regex engine on `pat` from `pos`: each `*` and `+` takes the longest
      run of its class. */
  function Greedy(s: string, pos: nat, pat: seq<Elem>): (r: Option<Bounds>)
    requires pos <= |s|
    ensures r.Some? ==> BoundsFit(s, r.value, |pat|) && r.value[0] == pos
    decreases |pat|
  {
    if pat == [] then Some([pos])
    else
      match pat[0]
      case Lit(ch) =>
        if pos < |s| && s[pos] == ch then Prepend(pos, Greedy(s, pos + 1, pat[1..])) else None
      case Star(cl) =>
        Prepend(pos, Greedy(s, pos + Run(s, pos, cl), pat[1..]))
      case Plus(cl) =>
        var n := Run(s, pos, cl);
        if n == 0 then None else Prepend(pos, Greedy(s, pos + n, pat[1..]))
  }

  /** The characters of `s` from `x` up to `y` are all of class `cl`. */
  predicate AllIn(s: string, x: nat, y: nat, cl: Class)
    requires x <= y <= |s|
  {
    forall k :: x <= k < y ==> InClass(s[k], cl)
  }

  /** Element `e` matches exactly the text from `x` up to `y`. */
  predicate ElemSpans(s: string, x: nat, y: nat, e: Elem)
    requires x <= y <= |s|
  {
    match e
    case Lit(ch) => y == x + 1 && s[x] == ch
    case Star(cl) => AllIn(s, x, y, cl)
    case Plus(cl) => x < y && AllIn(s, x, y, cl)
  }

  /** The pattern, stated without an engine: `bs` cuts the text into one stretch
      per element, and each element matches its stretch. */
  predicate Spans(s: string, bs: Bounds, pat: seq<Elem>)
  {
    BoundsFit(s, bs, |pat|) && forall k :: 0 <= k < |pat| ==> ElemSpans(s, bs[k], bs[k + 1], pat[k])
  }

  lemma SpansTail(s: string, bs: Bounds, pat: seq<Elem>)
    requires pat != [] && Spans(s, bs, pat)
    ensures Spans(s, bs[1..], pat[1..])
  {
    var bs', pat' := bs[1..], pat[1..];
    forall k | 0 <= k < |pat'|
      ensures ElemSpans(s, bs'[k], bs'[k + 1], pat'[k])
    {
      assert bs'[k] == bs[k + 1] && bs'[k + 1] == bs[k + 2] && pat'[k] == pat[k + 1];
    }
  }

  lemma SpansCons(s: string, bs: Bounds, pat: seq<Elem>)
    requires pat != [] && |bs| == |pat| + 1 && bs[0] <= bs[1] <= |s|
    requires ElemSpans(s, bs[0], bs[1], pat[0]) && Spans(s, bs[1..], pat[1..])
    ensures Spans(s, bs, pat)
  {
    var bs', pat' := bs[1..], pat[1..];
    forall k | 1 <= k < |pat|
      ensures ElemSpans(s, bs[k], bs[k + 1], pat[k])
    {
      assert bs'[k - 1] == bs[k] && bs'[k] == bs[k + 1] && pat'[k - 1] == pat[k];
    }
  }

  /** Whatever the engine finds is a match of the pattern. */
  lemma {:induction false} GreedySound(s: string, pos: nat, pat: seq<Elem>)
    requires pos <= |s| && Greedy(s, pos, pat).Some?
    ensures Spans(s, Greedy(s, pos, pat).value, pat)
    decreases |pat|
  {
    if pat != [] {
      var bs := Greedy(s, pos, pat).value;
      assert bs[1..] == Greedy(s, bs[1], pat[1..]).value;
      GreedySound(s, bs[1], pat[1..]);
      match pat[0] {
        case Lit(_) =>
        case Star(cl) => RunSpec(s, pos, cl);
        case Plus(cl) => RunSpec(s, pos, cl);
      }
      SpansCons(s, bs, pat);
    }
  }

  /** Distinct classes share no character. */
  lemma ClassesDisjoint(c: char, cl: Class, cl': Class)
    requires InClass(c, cl) && cl != cl'
    ensures !InClass(c, cl')
  {
  }

  /** Every match of `pat` starts with a character outside `cl`, and none is empty. */
  predicate StartsOutside(pat: seq<Elem>, cl: Class)
  {
    pat != [] &&
    match pat[0]
    case Lit(ch) => !InClass(ch, cl)
    case Plus(cl') => cl' != cl
    case Star(cl') => cl' != cl && StartsOutside(pat[1..], cl)
  }

  /** No backtracking is ever useful: what follows each `*` or `+` cannot start
      with a character of its class. */
  predicate Deterministic(pat: seq<Elem>)
  {
    pat == [] ||
    ((pat[0].Lit? || StartsOutside(pat[1..], pat[0].cl)) && Deterministic(pat[1..]))
  }

  lemma TechPatternDeterministic()
    ensures Deterministic(TechPattern)
  {
    var p := TechPattern;
    assert p[6..] == [Lit(')')] && p[5..] == [Star(Spaces)] + p[6..];
    assert p[4..] == [Plus(Digits)] + p[5..] && p[3..] == [Star(Spaces)] + p[4..];
    assert p[2..] == [Lit('(')] + p[3..] && p[1..] == [Star(Spaces)] + p[2..];
  }

  lemma {:induction false} FirstCharOutside(s: string, bs: Bounds, pat: seq<Elem>, cl: Class)
    requires Spans(s, bs, pat) && StartsOutside(pat, cl)
    ensures bs[0] < |s| && !InClass(s[bs[0]], cl)
    decreases |pat|
  {
    assert ElemSpans(s, bs[0], bs[1], pat[0]);
    match pat[0]
    case Lit(_) =>
    case Plus(cl') =>
      assert InClass(s[bs[0]], cl');
      ClassesDisjoint(s[bs[0]], cl', cl);
    case Star(cl') =>
      if bs[0] < bs[1] {
        assert InClass(s[bs[0]], cl');
        ClassesDisjoint(s[bs[0]], cl', cl);
      } else {
        SpansTail(s, bs, pat);
        FirstCharOutside(s, bs[1..], pat[1..], cl);
      }
  }

  /** A `*` or `+` element followed by a rest that starts outside its class
      takes exactly the run its stretch is. */
  lemma RunOfStretch(s: string, bs: Bounds, pat: seq<Elem>, cl: Class)
    requires |bs| >= 2 && bs[0] <= bs[1] <= |s| && AllIn(s, bs[0], bs[1], cl)
    requires Spans(s, bs[1..], pat) && StartsOutside(pat, cl)
    ensures Run(s, bs[0], cl) == bs[1] - bs[0]
  {
    FirstCharOutside(s, bs[1..], pat, cl);
    RunExact(s, bs[0], cl, bs[1] - bs[0]);
  }

  /** One element of the engine: when the rest of the match is found from
      where it starts, so is the whole match. */
  lemma GreedyCompleteStep(s: string, bs: Bounds, pat: seq<Elem>)
    requires pat != [] && Deterministic(pat) && Spans(s, bs, pat)
    requires Spans(s, bs[1..], pat[1..]) && Greedy(s, bs[1], pat[1..]) == Some(bs[1..])
    ensures Greedy(s, bs[0], pat) == Some(bs)
  {
    assert ElemSpans(s, bs[0], bs[1], pat[0]);
    assert [bs[0]] + bs[1..] == bs;
    match pat[0] {
      case Lit(_) =>
      case Star(cl) => RunOfStretch(s, bs, pat[1..], cl);
      case Plus(cl) => RunOfStretch(s, bs, pat[1..], cl);
    }
  }

  /** For a pattern without useful backtracking, the engine finds every match
      that starts where it starts. */
  lemma {:induction false} GreedyComplete(s: string, bs: Bounds, pat: seq<Elem>)
    requires Deterministic(pat) && Spans(s, bs, pat)
    ensures Greedy(s, bs[0], pat) == Some(bs)
    decreases |pat|
  {
    if pat != [] {
      SpansTail(s, bs, pat);
      GreedyComplete(s, bs[1..], pat[1..]);
      GreedyCompleteStep(s, bs, pat);
    } else {
      assert bs == [bs[0]];
    }
  }

  /** `preg_match`: the leftmost match of `pat` at or after `from`. */
  function FirstMatch(s: string, from: nat, pat: seq<Elem>): (r: Option<Bounds>)
    requires from <= |s|
    ensures r.Some? ==> BoundsFit(s, r.value, |pat|)
    decreases |s| - from
  {
    if from == |s| then None
    else if Greedy(s, from, pat).Some? then Greedy(s, from, pat)
    else FirstMatch(s, from + 1, pat)
  }

  /** FirstMatch gives the match at the smallest start that has one, and nothing
      when no start has one. */
  lemma {:induction false} FirstMatchSpec(s: string, from: nat, pat: seq<Elem>)
    requires from <= |s|
    ensures var fm := FirstMatch(s, from, pat);
      fm.Some? ==>
        && from <= fm.value[0] <= |s| && Greedy(s, fm.value[0], pat) == fm
        && forall j :: from <= j < fm.value[0] ==> Greedy(s, j, pat).None?
    ensures FirstMatch(s, from, pat).None? ==> forall j :: from <= j < |s| ==> Greedy(s, j, pat).None?
    decreases |s| - from
  {
    if from < |s| && Greedy(s, from, pat).None? {
      FirstMatchSpec(s, from + 1, pat);
    }
  }

  /** The first group, `([A-Z]+)`, of a match. */
  function Group1(s: string, bs: Bounds): string
    requires BoundsFit(s, bs, 7)
  {
    s[bs[0]..bs[1]]
  }

  /** The second group, `(\d+)`, of a match. */
  function Group2(s: string, bs: Bounds): string
    requires BoundsFit(s, bs, 7)
  {
    s[bs[4]..bs[5]]
  }

  // ---------------------------------------------------------------------------
  // The code -> number map.

  /** What one piece contributes: `$tech_json[strtoupper(trim($m[1]))] =
      (int)trim($m[2])` when it matches, nothing otherwise. */
  function PieceEntry(p: string): seq<Entry>
  {
    match FirstMatch(p, 0, TechPattern)
    case None => []
    case Some(bs) => [Entry(Upper(Trim(Group1(p, bs))), Int(StrToInt(Trim(Group2(p, bs)))))]
  }

  /** The assignments made by a list of pieces, in order. */
  function PieceEntries(parts: seq<string>): seq<Entry>
  {
    if parts == [] then [] else PieceEntries(parts[..|parts| - 1]) + PieceEntry(parts[|parts| - 1])
  }

  /** The map built from the value of `ALLM_TECH` (`'{}'` when absent): empty for
      an empty value, else one assignment per matching comma-separated piece. */
  function TechMap(src: Value): Row
  {
    if IsEmpty(src) then [] else Build(PieceEntries(Split(ToText(src), ',')))
  }

  lemma PieceEntriesNext(parts: seq<string>, i: nat)
    requires i < |parts|
    ensures PieceEntries(parts[..i + 1]) == PieceEntries(parts[..i]) + PieceEntry(parts[i])
  {
    assert parts[..i + 1][..i] == parts[..i];
  }

  /** The `foreach ($parts as $p)` loop. */
  method ParseTech(src: Value) returns (tech: Row)
    ensures tech == TechMap(src)
  {
    tech := [];
    if !IsEmpty(src) {
      var parts := Split(ToText(src), ',');
      var i := 0;
      while i < |parts|
        invariant 0 <= i <= |parts|
        invariant tech == Build(PieceEntries(parts[..i]))
      {
        PieceEntriesNext(parts, i);
        var m := FirstMatch(parts[i], 0, TechPattern);
        if m.Some? {
          var code := Upper(Trim(Group1(parts[i], m.value)));
          var value := StrToInt(Trim(Group2(parts[i], m.value)));
          BuildAppend(PieceEntries(parts[..i]), Entry(code, Int(value)));
          tech := Set(tech, code, Int(value));
        } else {
          assert PieceEntries(parts[..i]) + [] == PieceEntries(parts[..i]);
        }
        i := i + 1;
      }
      assert parts[..|parts|] == parts;
    }
  }

  /** The groups of a match are a letter code and a digit string, with nothing
      for `trim` to remove. */
  lemma GroupsOfMatch(p: string, bs: Bounds)
    requires Spans(p, bs, TechPattern)
    ensures Trim(Group1(p, bs)) == Group1(p, bs)
    ensures var d := Group2(p, bs); d != [] && AllDigits(d) && Trim(d) == d
  {
    var code, digits := Group1(p, bs), Group2(p, bs);
    assert ElemSpans(p, bs[0], bs[1], TechPattern[0]);
    assert ElemSpans(p, bs[4], bs[5], TechPattern[4]);
    assert IsLetter(code[0]) && IsLetter(code[|code| - 1]) by {
      assert InClass(p[bs[0]], Letters) && InClass(p[bs[1] - 1], Letters);
    }
    TrimNoop(code);
    assert AllDigits(digits) by {
      forall k | 0 <= k < |digits| ensures IsDigit(digits[k]) {
        assert InClass(p[bs[4] + k], Digits);
      }
    }
    TrimNoop(digits);
  }

  /** A matching piece contributes its upper-cased code with the number its digits
      spell. */
  lemma PieceEntryOfMatch(p: string)
    requires FirstMatch(p, 0, TechPattern).Some?
    ensures var bs := FirstMatch(p, 0, TechPattern).value;
      PieceEntry(p) == [Entry(Upper(Group1(p, bs)), Int(DigitsValue(Group2(p, bs))))]
  {
    var bs := FirstMatch(p, 0, TechPattern).value;
    FirstMatchSpec(p, 0, TechPattern);
    GreedySound(p, bs[0], TechPattern);
    GroupsOfMatch(p, bs);
    DigitsToInt(Group2(p, bs));
  }

  /** A code's number in the map is the one assigned by the last piece that named
      it (a later duplicate overwrites an earlier one); a code no piece named is
      not in the map. */
  lemma TechMapGet(src: Value, code: string)
    requires !IsEmpty(src)
    ensures Get(TechMap(src), code) == LastValue(PieceEntries(Split(ToText(src), ',')), code)
  {
    BuildGet(PieceEntries(Split(ToText(src), ',')), code);
  }

  /** Each code appears once. */
  lemma TechMapDistinct(src: Value)
    ensures Distinct(Keys(TechMap(src)))
  {
    if !IsEmpty(src) {
      BuildDistinct(PieceEntries(Split(ToText(src), ',')));
    }
  }

  // ---------------------------------------------------------------------------
  // The JSON text.

  /** `"CODE":n` for one entry. */
  function JsonPair(e: Entry): string
  {
    "\"" + e.key + "\":" + ToText(e.val)
  }

  /** `json_encode` of a non-empty code -> number map, and `'{}'` for the empty
      one. The codes are letters only, so nothing needs escaping. */
  function TechJson(t: Row): string
  {
    if t == [] then "{}"
    else "{" + Join(seq(|t|, k requires 0 <= k < |t| => JsonPair(t[k])), ",") + "}"
  }

  /** The stored text is always a JSON object, never null, and it is `{}` exactly
      when no piece matched. */
  lemma TechJsonShape(t: Row)
    ensures var j := TechJson(t);
      |j| >= 2 && j[0] == '{' && j[|j| - 1] == '}' && (j == "{}" <==> t == [])
  {
    var j := TechJson(t);
    if t != [] {
      var pairs := seq(|t|, k requires 0 <= k < |t| => JsonPair(t[k]));
      var body := Join(pairs, ",");
      JoinNonEmpty(pairs);
      assert j == "{" + body + "}";
    }
  }

  lemma JoinNonEmpty(pairs: seq<string>)
    requires pairs != [] && pairs[0] != []
    ensures Join(pairs, ",") != []
  {
  }

  /** When no earlier start matches, the first match is the one at `i`. */
  lemma {:induction false} FirstMatchAt(s: string, from: nat, i: nat, pat: seq<Elem>)
    requires from <= i < |s|
    requires forall j :: from <= j < i ==> Greedy(s, j, pat).None?
    requires Greedy(s, i, pat).Some?
    ensures FirstMatch(s, from, pat) == Greedy(s, i, pat)
    decreases i - from
  {
    if from < i {
      FirstMatchAt(s, from + 1, i, pat);
    }
  }

  /** The positions of a piece written `CODE(digits)` after some `\s` characters. */
  predicate PlainAt(p: string, lead: nat, n1: nat, n2: nat)
  {
    && lead < n1 && n1 + 1 < n2 && n2 + 1 == |p|
    && (forall k :: 0 <= k < lead ==> IsRegexSpace(p[k]))
    && (forall k :: lead <= k < n1 ==> IsLetter(p[k]))
    && p[n1] == '(' && p[n2] == ')'
    && (forall k :: n1 < k < n2 ==> IsDigit(p[k]))
  }

  function PlainBounds(lead: nat, n1: nat, n2: nat): Bounds
  {
    [lead, n1, n1, n1 + 1, n1 + 1, n2, n2, n2 + 1]
  }

  lemma PlainSpans(p: string, lead: nat, n1: nat, n2: nat)
    requires PlainAt(p, lead, n1, n2)
    ensures Spans(p, PlainBounds(lead, n1, n2), TechPattern)
  {
    var bs := PlainBounds(lead, n1, n2);
    assert AllIn(p, bs[0], bs[1], Letters);
    assert AllIn(p, bs[4], bs[5], Digits);
    forall k | 0 <= k < 7 ensures ElemSpans(p, bs[k], bs[k + 1], TechPattern[k]) {
      if k == 0 {
      } else if k == 1 {
      } else if k == 2 {
      } else if k == 3 {
      } else if k == 4 {
      } else if k == 5 {
      } else {
      }
    }
  }

  /** The first match of such a piece is the whole piece after the lead. */
  lemma PlainFirstMatch(p: string, lead: nat, n1: nat, n2: nat)
    requires PlainAt(p, lead, n1, n2)
    ensures FirstMatch(p, 0, TechPattern) == Some(PlainBounds(lead, n1, n2))
  {
    TechPatternDeterministic();
    PlainSpans(p, lead, n1, n2);
    GreedyComplete(p, PlainBounds(lead, n1, n2), TechPattern);
    forall j | 0 <= j < lead ensures Greedy(p, j, TechPattern).None? {
      assert Run(p, j, Letters) == 0;
    }
    FirstMatchAt(p, 0, lead, TechPattern);
  }

  /** Such a piece contributes its upper-cased code with the number its digits
      spell. */
  lemma PlainPiece(p: string, lead: nat, n1: nat, n2: nat)
    requires PlainAt(p, lead, n1, n2)
    ensures PieceEntry(p) == [Entry(Upper(p[lead..n1]), Int(DigitsValue(p[n1 + 1..n2])))]
  {
    PlainFirstMatch(p, lead, n1, n2);
    PieceOfBounds(p, lead, n1, n2);
  }

  lemma PieceOfBounds(p: string, lead: nat, n1: nat, n2: nat)
    requires lead < n1 && n1 + 1 < n2 < |p|
    requires FirstMatch(p, 0, TechPattern) == Some(PlainBounds(lead, n1, n2))
    ensures PieceEntry(p) == [Entry(Upper(p[lead..n1]), Int(DigitsValue(p[n1 + 1..n2])))]
  {
    var bs := FirstMatch(p, 0, TechPattern).value;
    assert bs[0] == lead && bs[1] == n1 && bs[4] == n1 + 1 && bs[5] == n2;
    assert Group1(p, bs) == p[lead..n1] && Group2(p, bs) == p[n1 + 1..n2];
    PieceEntryOfMatch(p);
  }

  /** No character of such a piece is a comma. */
  lemma PlainHasNoComma(p: string, lead: nat, n1: nat, n2: nat)
    requires PlainAt(p, lead, n1, n2)
    ensures ',' !in p
  {
    forall k | 0 <= k < |p| ensures p[k] != ',' {
      if k < lead {
      } else if k < n1 {
      } else if n1 < k < n2 {
      }
    }
  }

  lemma PieceEntriesTwo(p0: string, p1: string)
    ensures PieceEntries([p0, p1]) == PieceEntry(p0) + PieceEntry(p1)
  {
    assert [p0, p1][..1] == [p0] && [p0, p1][1] == p1;
    assert [p0][..0] == [] && [p0][0] == p0;
    assert PieceEntries([p0]) == PieceEntries([]) + PieceEntry(p0);
    assert PieceEntries([p0, p1]) == PieceEntries([p0]) + PieceEntry(p1);
  }

  lemma JsonOfTwo(e0: Entry, e1: Entry)
    ensures TechJson([e0, e1]) == "{" + JsonPair(e0) + "," + JsonPair(e1) + "}"
  {
    var t := [e0, e1];
    var pairs := seq(|t|, k requires 0 <= k < |t| => JsonPair(t[k]));
    assert pairs == [JsonPair(e0), JsonPair(e1)];
    assert pairs[1..] == [JsonPair(e1)];
    assert Join(pairs, ",") == JsonPair(e0) + "," + Join([JsonPair(e1)], ",");
  }

  /** The pieces of `p0,p1` when neither holds a comma. */
  lemma TwoPiecesSplit(p0: string, p1: string)
    requires ',' !in p0 && ',' !in p1
    ensures !IsEmpty(Str(p0 + "," + p1))
    ensures PieceEntries(Split(ToText(Str(p0 + "," + p1)), ',')) == PieceEntry(p0) + PieceEntry(p1)
  {
    assert ToText(Str(p0 + "," + p1)) == p0 + [','] + p1;
    SplitConcat(p0, ',', p1);
    SplitNone(p1, ',');
    PieceEntriesTwo(p0, p1);
    assert |p0 + "," + p1| > 0 && (p0 + "," + p1)[|p0|] == ',';
  }

  /** Two such pieces with different codes, e.g. `ABC(5), XYZ(12)`: the map holds
      both codes in order, and the column gets `{"ABC":5,"XYZ":12}`. */
  lemma TwoPieces(p0: string, l0: nat, a0: nat, b0: nat, p1: string, l1: nat, a1: nat, b1: nat)
    requires PlainAt(p0, l0, a0, b0) && PlainAt(p1, l1, a1, b1)
    requires Upper(p0[l0..a0]) != Upper(p1[l1..a1])
    ensures var e0 := Entry(Upper(p0[l0..a0]), Int(DigitsValue(p0[a0 + 1..b0])));
      var e1 := Entry(Upper(p1[l1..a1]), Int(DigitsValue(p1[a1 + 1..b1])));
      && TechMap(Str(p0 + "," + p1)) == [e0, e1]
      && TechJson(TechMap(Str(p0 + "," + p1))) == "{" + JsonPair(e0) + "," + JsonPair(e1) + "}"
  {
    var e0 := Entry(Upper(p0[l0..a0]), Int(DigitsValue(p0[a0 + 1..b0])));
    var e1 := Entry(Upper(p1[l1..a1]), Int(DigitsValue(p1[a1 + 1..b1])));
    PlainHasNoComma(p0, l0, a0, b0);
    PlainHasNoComma(p1, l1, a1, b1);
    TwoPiecesSplit(p0, p1);
    PlainPiece(p0, l0, a0, b0);
    PlainPiece(p1, l1, a1, b1);
    assert [e0] + [e1] == [e0, e1];
    assert DistinctKeys([e0, e1]);
    BuildOfDistinct([e0, e1]);
    JsonOfTwo(e0, e1);
  }

  /** A piece without letters never matches: group 1 needs a letter. */
  lemma NoLetterNoMatch(p: string)
    requires forall k :: 0 <= k < |p| ==> !IsLetter(p[k])
    ensures PieceEntry(p) == []
  {
    FirstMatchSpec(p, 0, TechPattern);
    if FirstMatch(p, 0, TechPattern).Some? {
      var j := FirstMatch(p, 0, TechPattern).value[0];
      RunSpec(p, j, Letters);
      assert false;
    }
  }

  /** Text without codes, such as the empty text or `???`, is stored as `{}`. */
  lemma NoCodesGiveEmptyObject(p: string)
    requires ',' !in p && forall k :: 0 <= k < |p| ==> !IsLetter(p[k])
    ensures TechJson(TechMap(Str(p))) == "{}"
  {
    if !IsEmpty(Str(p)) {
      SplitNone(p, ',');
      NoLetterNoMatch(p);
      assert PieceEntries([p]) == PieceEntries([]) + PieceEntry(p);
    }
  }

  lemma EmptyAndUnmatchedExamples()
    ensures TechJson(TechMap(Str(""))) == "{}" && TechJson(TechMap(Str("???"))) == "{}"
  {
    NoCodesGiveEmptyObject("???");
  }
}
