/** Row selection and the three mappers of the converters: the select-list
    filter, the 1:1 rename `map_fields`, the trim-and-nullify `map_fields_simple`
    and the 1:N fan-out `map_fields_multi` with its numeric fix-up. */
module RowMapping {
  import opened Bytes
  import opened Text
  import opened Php
  import opened PhpArrays

  // ---------------------------------------------------------------------------
  // The select-list filter: `$filtered[$f] = $row[$f] ?? null` for every selected f.

  function FilterEntries(r: Row, select: seq<string>): (es: seq<Entry>)
    ensures |es| == |select|
    ensures forall k :: 0 <= k < |select| ==> es[k] == Entry(select[k], Lookup(r, select[k]))
  {
    seq(|select|, k requires 0 <= k < |select| => Entry(select[k], Lookup(r, select[k])))
  }

  /** The filtered row. */
  function Filter(r: Row, select: seq<string>): Row
  {
    Build(FilterEntries(r, select))
  }

  method FilterRow(r: Row, select: seq<string>) returns (filtered: Row)
    ensures filtered == Filter(r, select)
  {
    filtered := [];
    var i := 0;
    while i < |select|
      invariant 0 <= i <= |select|
      invariant filtered == Build(FilterEntries(r, select)[..i])
    {
      var f := select[i];
      ghost var es := FilterEntries(r, select);
      assert es[..i + 1] == es[..i] + [es[i]];
      BuildAppend(es[..i], es[i]);
      filtered := Set(filtered, f, Lookup(r, f));
      i := i + 1;
    }
    assert FilterEntries(r, select)[..i] == FilterEntries(r, select);
  }

  /** The entries' keys are the select list. */
  lemma FilterEntriesKeys(r: Row, select: seq<string>)
    ensures Keys(FilterEntries(r, select)) == select
  {
  }

  /** With a select list that names each field once, the filtered row's keys are
      exactly that list, in order, and each selected field holds the row's value,
      or null when the row has no such field. */
  lemma FilterShape(r: Row, select: seq<string>)
    requires Distinct(select)
    ensures Keys(Filter(r, select)) == select
    ensures forall k :: 0 <= k < |select| ==>
      Filter(r, select)[k].val == Lookup(r, select[k])
  {
    var es := FilterEntries(r, select);
    FilterEntriesKeys(r, select);
    assert DistinctKeys(es) by {
      forall i, j | 0 <= i < j < |es| ensures es[i].key != es[j].key {
        assert es[i].key == select[i] && es[j].key == select[j];
      }
    }
    BuildOfDistinct(es);
  }

  /** Whatever the select list, a selected field holds the row's value (null when
      absent) and an unselected one is not in the filtered row. */
  lemma {:induction false} FilterGet(r: Row, select: seq<string>, f: string)
    ensures Get(Filter(r, select), f) == if f in select then Some(Lookup(r, f)) else None
  {
    BuildGet(FilterEntries(r, select), f);
    FilterLastValue(r, select, f);
  }

  lemma {:induction false} FilterLastValue(r: Row, select: seq<string>, f: string)
    ensures LastValue(FilterEntries(r, select), f) == if f in select then Some(Lookup(r, f)) else None
  {
    if select != [] {
      var init := select[..|select| - 1];
      FilterLastValue(r, init, f);
      assert FilterEntries(r, select)[..|select| - 1] == FilterEntries(r, init);
      assert select == init + [select[|select| - 1]];
    }
  }

  // ---------------------------------------------------------------------------
  // `map_fields`: `$item[$to] = $r[$from] ?? null` for every pair of the map.

  /** A field map: (source field, target column) pairs in the map's order. The
      sources are the keys of a PHP array, so they are distinct. */
  type FieldMap = seq<(string, string)>

  function Targets(m: FieldMap): (ts: seq<string>)
    ensures |ts| == |m| && forall k :: 0 <= k < |m| ==> ts[k] == m[k].1
  {
    seq(|m|, k requires 0 <= k < |m| => m[k].1)
  }

  function MapEntries(r: Row, m: FieldMap): (es: seq<Entry>)
    ensures |es| == |m|
    ensures forall k :: 0 <= k < |m| ==> es[k] == Entry(m[k].1, Lookup(r, m[k].0))
  {
    seq(|m|, k requires 0 <= k < |m| => Entry(m[k].1, Lookup(r, m[k].0)))
  }

  function MapFields(r: Row, m: FieldMap): Row
  {
    Build(MapEntries(r, m))
  }

  function MapAll(rows: seq<Row>, m: FieldMap): (out: seq<Row>)
    ensures |out| == |rows| && forall i :: 0 <= i < |rows| ==> out[i] == MapFields(rows[i], m)
  {
    seq(|rows|, i requires 0 <= i < |rows| => MapFields(rows[i], m))
  }

  lemma MapEntriesNext(r: Row, m: FieldMap, i: nat)
    requires i < |m|
    ensures Build(MapEntries(r, m)[..i + 1]) ==
      Set(Build(MapEntries(r, m)[..i]), m[i].1, Lookup(r, m[i].0))
  {
    var es := MapEntries(r, m);
    assert es[..i + 1] == es[..i] + [es[i]];
    BuildAppend(es[..i], es[i]);
  }

  /** The inner loop of `map_fields`, for one row. */
  method MapRow(r: Row, m: FieldMap) returns (item: Row)
    ensures item == MapFields(r, m)
  {
    item := [];
    var i := 0;
    while i < |m|
      invariant 0 <= i <= |m|
      invariant item == Build(MapEntries(r, m)[..i])
    {
      var (from, to) := m[i];
      MapEntriesNext(r, m, i);
      item := Set(item, to, Lookup(r, from));
      i := i + 1;
    }
    assert MapEntries(r, m)[..i] == MapEntries(r, m);
  }

  lemma MapAllNext(rows: seq<Row>, m: FieldMap, i: nat)
    requires i < |rows|
    ensures MapAll(rows[..i + 1], m) == MapAll(rows[..i], m) + [MapFields(rows[i], m)]
  {
    assert rows[..i + 1][..i] == rows[..i];
  }

  /** `map_fields`: every row mapped, in order. */
  method MapFieldsAll(rows: seq<Row>, m: FieldMap) returns (out: seq<Row>)
    ensures out == MapAll(rows, m)
  {
    out := [];
    var i := 0;
    while i < |rows|
      invariant 0 <= i <= |rows|
      invariant out == MapAll(rows[..i], m)
    {
      var item := MapRow(rows[i], m);
      MapAllNext(rows, m, i);
      out := out + [item];
      i := i + 1;
    }
    assert rows[..i] == rows;
  }

  /** With distinct targets, the mapped row's keys are the targets in map order
      (not the order of the input row), and each target holds its source's value,
      or null when the source is absent. */
  lemma MapShape(r: Row, m: FieldMap)
    requires Distinct(Targets(m))
    ensures Keys(MapFields(r, m)) == Targets(m)
    ensures forall k :: 0 <= k < |m| ==>
      MapFields(r, m)[k].val == Lookup(r, m[k].0)
  {
    var es := MapEntries(r, m);
    assert DistinctKeys(es) by {
      forall i, j | 0 <= i < j < |es| ensures es[i].key != es[j].key {
        assert es[i].key == Targets(m)[i] && es[j].key == Targets(m)[j];
      }
    }
    BuildOfDistinct(es);
  }

  // ---------------------------------------------------------------------------
  // `map_fields_simple`: trimmed value, `?: null`, and `cadre_code` cast to int.

  /** `trim($r[$from] ?? '')`. */
  function TrimmedSource(r: Row, from: string): string
  {
    Trim(ToText(Coalesce(r, from, Str(""))))
  }

  /** The value `map_fields_simple` stores under `to`: the trimmed source, null when
      that is falsy ("" or "0"), cast with `(int)` when `to` is `cadre_code`. */
  function SimpleValue(r: Row, from: string, to: string): Value
  {
    var t := TrimmedSource(r, from);
    if t == "" || t == "0" then Null
    else if to == "cadre_code" then Int(StrToInt(t))
    else Str(t)
  }

  function SimpleEntries(r: Row, m: FieldMap): (es: seq<Entry>)
    ensures |es| == |m|
    ensures forall k :: 0 <= k < |m| ==> es[k] == Entry(m[k].1, SimpleValue(r, m[k].0, m[k].1))
  {
    seq(|m|, k requires 0 <= k < |m| => Entry(m[k].1, SimpleValue(r, m[k].0, m[k].1)))
  }

  function MapSimple(r: Row, m: FieldMap): Row
  {
    Build(SimpleEntries(r, m))
  }

  function MapSimpleAll(rows: seq<Row>, m: FieldMap): (out: seq<Row>)
    ensures |out| == |rows| && forall i :: 0 <= i < |rows| ==> out[i] == MapSimple(rows[i], m)
  {
    seq(|rows|, i requires 0 <= i < |rows| => MapSimple(rows[i], m))
  }

  /** The body of the inner loop: `?: null`, then the cast for `cadre_code`. */
  method SimpleField(r: Row, from: string, to: string) returns (stored: Value)
    ensures stored == SimpleValue(r, from, to)
  {
    var t := Trim(ToText(Coalesce(r, from, Str(""))));
    var val := if t == "" || t == "0" then Null else Str(t);
    stored := if to == "cadre_code" then (if val != Null then Int(StrToInt(t)) else Null) else val;
  }

  lemma SimpleEntriesNext(r: Row, m: FieldMap, i: nat)
    requires i < |m|
    ensures Build(SimpleEntries(r, m)[..i + 1]) ==
      Set(Build(SimpleEntries(r, m)[..i]), m[i].1, SimpleValue(r, m[i].0, m[i].1))
  {
    var es := SimpleEntries(r, m);
    assert es[..i + 1] == es[..i] + [es[i]];
    BuildAppend(es[..i], es[i]);
  }

  method MapSimpleRow(r: Row, m: FieldMap) returns (item: Row)
    ensures item == MapSimple(r, m)
    ensures Distinct(Targets(m)) ==> Keys(item) == Targets(m)
  {
    item := [];
    var i := 0;
    while i < |m|
      invariant 0 <= i <= |m|
      invariant item == Build(SimpleEntries(r, m)[..i])
    {
      var (from, to) := m[i];
      var stored := SimpleField(r, from, to);
      SimpleEntriesNext(r, m, i);
      item := Set(item, to, stored);
      i := i + 1;
    }
    assert SimpleEntries(r, m)[..i] == SimpleEntries(r, m);
    if Distinct(Targets(m)) {
      MapSimpleShape(r, m);
    }
  }

  /** `map_fields_simple`. */
  method MapFieldsSimple(rows: seq<Row>, m: FieldMap) returns (out: seq<Row>)
    ensures out == MapSimpleAll(rows, m)
    ensures Distinct(Targets(m)) ==> forall i :: 0 <= i < |out| ==> Keys(out[i]) == Targets(m)
  {
    out := [];
    var i := 0;
    while i < |rows|
      invariant 0 <= i <= |rows|
      invariant |out| == i && forall k :: 0 <= k < i ==> out[k] == MapSimple(rows[k], m)
    {
      var item := MapSimpleRow(rows[i], m);
      out := out + [item];
      i := i + 1;
    }
    if Distinct(Targets(m)) {
      forall i | 0 <= i < |out| ensures Keys(out[i]) == Targets(m) {
        MapSimpleShape(rows[i], m);
      }
    }
  }

  /** With distinct targets, a `map_fields_simple` row has the targets as keys in
      map order, each holding the trimmed-and-nullified value of its source. */
  lemma MapSimpleShape(r: Row, m: FieldMap)
    requires Distinct(Targets(m))
    ensures Keys(MapSimple(r, m)) == Targets(m)
    ensures forall k :: 0 <= k < |m| ==>
      MapSimple(r, m)[k].val == SimpleValue(r, m[k].0, m[k].1)
  {
    var es := SimpleEntries(r, m);
    assert DistinctKeys(es) by {
      forall i, j | 0 <= i < j < |es| ensures es[i].key != es[j].key {
        assert es[i].key == Targets(m)[i] && es[j].key == Targets(m)[j];
      }
    }
    BuildOfDistinct(es);
  }

  /** What `map_fields_simple` can store: never an empty or "0" string and never
      text with whitespace at its ends; `cadre_code` is an int or null, and null
      exactly when the trimmed source is falsy; other targets keep the trimmed text. */
  lemma SimpleValueShape(r: Row, from: string, to: string)
    ensures var v, t := SimpleValue(r, from, to), TrimmedSource(r, from);
      && (v == Null <==> t == "" || t == "0")
      && (to == "cadre_code" && v != Null ==> v == Int(StrToInt(t)))
      && (to != "cadre_code" && v != Null ==> v == Str(t) && t[0] !in PhpWhitespace && t[|t| - 1] !in PhpWhitespace)
  {
    TrimShape(ToText(Coalesce(r, from, Str(""))));
  }

  /** A code that PHP printed from an integer reads back as that integer. */
  lemma SimpleCadreCode(r: Row, from: string, n: int)
    requires n != 0 && Lookup(r, from) == Str(IntToDecimal(n))
    ensures SimpleValue(r, from, "cadre_code") == Int(n)
  {
    var s := IntToDecimal(n);
    IntTextRoundTrip(n);
    DigitsToInt("0");
    assert s != "0";
    IntTextTrimmed(n);
  }

  // ---------------------------------------------------------------------------
  // `map_fields_multi`: every source's trimmed value to each of its targets, then
  // the numeric fields fixed up in place.

  /** A fan-out map: each source with its list of targets, in the map's order. */
  type MultiMap = seq<(string, seq<string>)>

  /** The assignments of one source: its trimmed value to each target. */
  function TargetEntries(value: string, targets: seq<string>): (es: seq<Entry>)
    ensures |es| == |targets|
    ensures forall j :: 0 <= j < |targets| ==> es[j] == Entry(targets[j], Str(value))
  {
    seq(|targets|, j requires 0 <= j < |targets| => Entry(targets[j], Str(value)))
  }

  /** All the assignments of the fan-out loop, in order. */
  function FanOut(r: Row, mm: MultiMap): seq<Entry>
  {
    if mm == [] then []
    else FanOut(r, mm[..|mm| - 1]) + TargetEntries(TrimmedSource(r, mm[|mm| - 1].0), mm[|mm| - 1].1)
  }

  /** Every target of the fan-out map, entry by entry: the keys the fan-out
      assigns, in the order it assigns them. */
  function AllTargets(mm: MultiMap): seq<string>
  {
    if mm == [] then [] else AllTargets(mm[..|mm| - 1]) + mm[|mm| - 1].1
  }

  lemma AllTargetsNext(mm: MultiMap, i: nat)
    requires i < |mm|
    ensures AllTargets(mm[..i + 1]) == AllTargets(mm[..i]) + mm[i].1
  {
    assert mm[..i + 1][..i] == mm[..i];
  }

  /** The map gives each column once, and every numeric field is one of them. */
  predicate MultiColumns(mm: MultiMap, numeric: seq<string>)
  {
    Distinct(AllTargets(mm)) && forall n :: n in numeric ==> n in AllTargets(mm)
  }

  lemma TargetEntriesKeys(value: string, targets: seq<string>)
    ensures Keys(TargetEntries(value, targets)) == targets
  {
  }

  lemma KeysAppend(a: seq<Entry>, b: seq<Entry>)
    ensures Keys(a + b) == Keys(a) + Keys(b)
  {
  }

  /** The fan-out assigns the targets in map order. */
  lemma {:induction false} FanOutKeys(r: Row, mm: MultiMap)
    ensures Keys(FanOut(r, mm)) == AllTargets(mm)
  {
    if mm != [] {
      var init, last := mm[..|mm| - 1], mm[|mm| - 1];
      FanOutKeys(r, init);
      KeysAppend(FanOut(r, init), TargetEntries(TrimmedSource(r, last.0), last.1));
      TargetEntriesKeys(TrimmedSource(r, last.0), last.1);
    }
  }

  /** The numeric fix-up of one value: blank text gives 0, anything else `(int)`. */
  function NumericFix(v: Value): Value
  {
    var t := Trim(ToText(v));
    if t == "" then Int(0) else Int(StrToInt(t))
  }

  /** The fix-up loop over the numeric field list, from the first field on. */
  function FixNumeric(item: Row, numeric: seq<string>): Row
  {
    if numeric == [] then item
    else
      var it := FixNumeric(item, numeric[..|numeric| - 1]);
      var nf := numeric[|numeric| - 1];
      Set(it, nf, NumericFix(Lookup(it, nf)))
  }

  function MapMulti(r: Row, mm: MultiMap, numeric: seq<string>): Row
  {
    FixNumeric(Build(FanOut(r, mm)), numeric)
  }

  function MapMultiAll(rows: seq<Row>, mm: MultiMap, numeric: seq<string>): (out: seq<Row>)
    ensures |out| == |rows| && forall i :: 0 <= i < |rows| ==> out[i] == MapMulti(rows[i], mm, numeric)
  {
    seq(|rows|, i requires 0 <= i < |rows| => MapMulti(rows[i], mm, numeric))
  }

  lemma FanOutAppend(r: Row, mm: MultiMap, i: nat, j: nat)
    requires i < |mm| && j < |mm[i].1|
    ensures FanOut(r, mm[..i]) + TargetEntries(TrimmedSource(r, mm[i].0), mm[i].1[..j + 1])
         == FanOut(r, mm[..i]) + TargetEntries(TrimmedSource(r, mm[i].0), mm[i].1[..j]) + [Entry(mm[i].1[j], Str(TrimmedSource(r, mm[i].0)))]
  {
    var v := TrimmedSource(r, mm[i].0);
    assert TargetEntries(v, mm[i].1[..j + 1]) == TargetEntries(v, mm[i].1[..j]) + [Entry(mm[i].1[j], Str(v))];
  }

  lemma FanOutNext(r: Row, mm: MultiMap, i: nat)
    requires i < |mm|
    ensures FanOut(r, mm[..i + 1]) == FanOut(r, mm[..i]) + TargetEntries(TrimmedSource(r, mm[i].0), mm[i].1[..|mm[i].1|])
  {
    assert mm[..i + 1][..i] == mm[..i];
    assert mm[i].1[..|mm[i].1|] == mm[i].1;
  }

  /** The fan-out loops of `map_fields_multi`, for one row. */
  method FanOutRow(r: Row, mm: MultiMap) returns (item: Row)
    ensures item == Build(FanOut(r, mm))
  {
    item := [];
    var i := 0;
    while i < |mm|
      invariant 0 <= i <= |mm|
      invariant item == Build(FanOut(r, mm[..i]))
    {
      var (from, targets) := mm[i];
      var value := Trim(ToText(Coalesce(r, from, Str(""))));
      var j := 0;
      assert TargetEntries(value, targets[..0]) == [];
      assert FanOut(r, mm[..i]) + [] == FanOut(r, mm[..i]);
      while j < |targets|
        invariant 0 <= j <= |targets|
        invariant item == Build(FanOut(r, mm[..i]) + TargetEntries(value, targets[..j]))
      {
        FanOutAppend(r, mm, i, j);
        BuildAppend(FanOut(r, mm[..i]) + TargetEntries(value, targets[..j]), Entry(targets[j], Str(value)));
        item := Set(item, targets[j], Str(value));
        j := j + 1;
      }
      FanOutNext(r, mm, i);
      i := i + 1;
    }
    assert mm[..i] == mm;
  }

  /** The numeric fix-up loop of `map_fields_multi`. */
  method FixNumericRow(item0: Row, numeric: seq<string>) returns (item: Row)
    ensures item == FixNumeric(item0, numeric)
  {
    item := item0;
    var i := 0;
    while i < |numeric|
      invariant 0 <= i <= |numeric|
      invariant item == FixNumeric(item0, numeric[..i])
    {
      var nf := numeric[i];
      var val := Trim(ToText(Coalesce(item, nf, Str(""))));
      assert numeric[..i + 1][..i] == numeric[..i];
      if val == "" {
        item := Set(item, nf, Int(0));
      } else {
        item := Set(item, nf, Int(StrToInt(val)));
      }
      i := i + 1;
    }
    assert numeric[..i] == numeric;
  }

  /** The body of the row loop of `map_fields_multi`. */
  method MultiRow(r: Row, mm: MultiMap, numeric: seq<string>) returns (item: Row)
    ensures item == MapMulti(r, mm, numeric)
    ensures MultiColumns(mm, numeric) ==> Keys(item) == AllTargets(mm)
  {
    item := FanOutRow(r, mm);
    item := FixNumericRow(item, numeric);
    if MultiColumns(mm, numeric) {
      MapMultiKeys(r, mm, numeric);
    }
  }

  lemma MapMultiAllNext(rows: seq<Row>, mm: MultiMap, numeric: seq<string>, i: nat)
    requires i < |rows|
    ensures MapMultiAll(rows[..i + 1], mm, numeric) == MapMultiAll(rows[..i], mm, numeric) + [MapMulti(rows[i], mm, numeric)]
  {
    assert rows[..i + 1][..i] == rows[..i];
  }

  /** `map_fields_multi`. */
  method MapFieldsMulti(rows: seq<Row>, mm: MultiMap, numeric: seq<string>) returns (out: seq<Row>)
    ensures out == MapMultiAll(rows, mm, numeric)
    ensures MultiColumns(mm, numeric) ==> forall i :: 0 <= i < |out| ==> Keys(out[i]) == AllTargets(mm)
  {
    out := [];
    var i := 0;
    while i < |rows|
      invariant 0 <= i <= |rows|
      invariant out == MapMultiAll(rows[..i], mm, numeric)
    {
      var item := MultiRow(rows[i], mm, numeric);
      MapMultiAllNext(rows, mm, numeric, i);
      out := out + [item];
      i := i + 1;
    }
    assert rows[..i] == rows;
    if MultiColumns(mm, numeric) {
      forall i | 0 <= i < |out| ensures Keys(out[i]) == AllTargets(mm) {
        MapMultiKeys(rows[i], mm, numeric);
      }
    }
  }

  /** The fix-up is idempotent on what it produces: an int reads back as itself. */
  lemma NumericFixIdempotent(v: Value)
    ensures NumericFix(NumericFix(v)) == NumericFix(v)
  {
    var n := NumericFix(v).i;
    IntTextTrimmed(n);
    IntTextRoundTrip(n);
    assert NumericFix(Int(n)) == Int(n) by { NatToDecimalDigits(if n < 0 then -n else n); }
  }

  lemma FixNumericLast(item: Row, numeric: seq<string>, k: string)
    requires numeric != []
    ensures var init, nf := numeric[..|numeric| - 1], numeric[|numeric| - 1];
      Get(FixNumeric(item, numeric), k) ==
        if k == nf then Some(NumericFix(Lookup(FixNumeric(item, init), nf))) else Get(FixNumeric(item, init), k)
  {
    var init, nf := numeric[..|numeric| - 1], numeric[|numeric| - 1];
    var it := FixNumeric(item, init);
    SetGet(it, nf, NumericFix(Lookup(it, nf)), k);
  }

  /** The step of the fix-up loop on the field it fixes. */
  lemma FixNumericAtLast(item: Row, init: seq<string>, nf: string)
    requires Get(FixNumeric(item, init), nf) ==
      if nf in init then Some(NumericFix(Lookup(item, nf))) else Get(item, nf)
    ensures Get(FixNumeric(item, init + [nf]), nf) == Some(NumericFix(Lookup(item, nf)))
  {
    assert (init + [nf])[..|init|] == init;
    FixNumericLast(item, init + [nf], nf);
    if nf in init {
      NumericFixIdempotent(Lookup(item, nf));
    }
  }

  /** The step of the fix-up loop on any other field. */
  lemma FixNumericAtOther(item: Row, init: seq<string>, nf: string, k: string)
    requires k != nf
    requires Get(FixNumeric(item, init), k) ==
      if k in init then Some(NumericFix(Lookup(item, k))) else Get(item, k)
    ensures Get(FixNumeric(item, init + [nf]), k) ==
      if k in init + [nf] then Some(NumericFix(Lookup(item, k))) else Get(item, k)
  {
    assert (init + [nf])[..|init|] == init;
    FixNumericLast(item, init + [nf], k);
    assert k in init + [nf] <==> k in init;
  }

  /** After the fix-up, every listed field holds the fixed-up int of its value
      before the fix-up, and every other field is untouched. */
  lemma {:induction false} FixNumericGet(item: Row, numeric: seq<string>, k: string)
    ensures Get(FixNumeric(item, numeric), k) ==
      if k in numeric then Some(NumericFix(Lookup(item, k))) else Get(item, k)
  {
    if numeric != [] {
      var init := numeric[..|numeric| - 1];
      var nf := numeric[|numeric| - 1];
      assert numeric == init + [nf];
      if k == nf {
        FixNumericGet(item, init, nf);
        FixNumericAtLast(item, init, nf);
      } else {
        FixNumericGet(item, init, k);
        FixNumericAtOther(item, init, nf, k);
      }
    }
  }

  /** The fix-up only overwrites: when every numeric field is already a key, the
      keys and their order stay as they are. */
  lemma {:induction false} FixNumericKeys(item: Row, numeric: seq<string>)
    requires forall n :: n in numeric ==> n in Keys(item)
    ensures Keys(FixNumeric(item, numeric)) == Keys(item)
  {
    if numeric != [] {
      var init, nf := numeric[..|numeric| - 1], numeric[|numeric| - 1];
      assert forall n :: n in init ==> n in numeric;
      FixNumericKeys(item, init);
      var it := FixNumeric(item, init);
      SetKeys(it, nf, NumericFix(Lookup(it, nf)));
    }
  }

  /** A `map_fields_multi` row has the map's targets as keys, entry by entry in
      map order and each entry's targets in their listed order; the numeric
      fix-up does not move them. */
  lemma MapMultiKeys(r: Row, mm: MultiMap, numeric: seq<string>)
    requires MultiColumns(mm, numeric)
    ensures Keys(MapMulti(r, mm, numeric)) == AllTargets(mm)
  {
    var es := FanOut(r, mm);
    FanOutKeys(r, mm);
    assert DistinctKeys(es) by {
      forall i, j | 0 <= i < j < |es| ensures es[i].key != es[j].key {
        assert es[i].key == Keys(es)[i] && es[j].key == Keys(es)[j];
      }
    }
    BuildOfDistinct(es);
    FixNumericKeys(Build(es), numeric);
  }

  /** The source a target of the fan-out receives its value from: the last map
      entry that lists it. */
  function SourceOf(mm: MultiMap, t: string): Option<string>
  {
    if mm == [] then None
    else if t in mm[|mm| - 1].1 then Some(mm[|mm| - 1].0)
    else SourceOf(mm[..|mm| - 1], t)
  }

  lemma {:induction false} LastValueAppend(a: seq<Entry>, b: seq<Entry>, k: string)
    ensures LastValue(a + b, k) == if LastValue(b, k).Some? then LastValue(b, k) else LastValue(a, k)
  {
    if b == [] {
      assert a + b == a;
    } else {
      assert (a + b)[..|a + b| - 1] == a + b[..|b| - 1];
      assert (a + b)[|a + b| - 1] == b[|b| - 1];
      LastValueAppend(a, b[..|b| - 1], k);
    }
  }

  lemma {:induction false} TargetEntriesLast(value: string, targets: seq<string>, t: string)
    ensures LastValue(TargetEntries(value, targets), t) == if t in targets then Some(Str(value)) else None
  {
    if targets != [] {
      var init := targets[..|targets| - 1];
      TargetEntriesLast(value, init, t);
      assert TargetEntries(value, targets)[..|targets| - 1] == TargetEntries(value, init);
      assert targets == init + [targets[|targets| - 1]];
    }
  }

  /** A target of the fan-out holds the trimmed value of its source, and a name
      no entry lists is absent. */
  lemma {:induction false} FanOutGet(r: Row, mm: MultiMap, t: string)
    ensures Get(Build(FanOut(r, mm)), t) ==
      match SourceOf(mm, t)
      case None => None
      case Some(src) => Some(Str(TrimmedSource(r, src)))
  {
    BuildGet(FanOut(r, mm), t);
    FanOutLast(r, mm, t);
  }

  lemma {:induction false} FanOutLast(r: Row, mm: MultiMap, t: string)
    ensures LastValue(FanOut(r, mm), t) ==
      match SourceOf(mm, t)
      case None => None
      case Some(src) => Some(Str(TrimmedSource(r, src)))
  {
    if mm != [] {
      var init := mm[..|mm| - 1];
      var last := mm[|mm| - 1];
      FanOutLast(r, init, t);
      LastValueAppend(FanOut(r, init), TargetEntries(TrimmedSource(r, last.0), last.1), t);
      TargetEntriesLast(TrimmedSource(r, last.0), last.1, t);
    }
  }

  /** Two numeric targets fed by the same source hold the same int: with the
      posts map, every `X_post` equals its `X_post_left`. */
  lemma SameSourceSameValue(r: Row, mm: MultiMap, numeric: seq<string>, a: string, b: string)
    requires a in numeric && b in numeric && SourceOf(mm, a) == SourceOf(mm, b)
    ensures Get(MapMulti(r, mm, numeric), a) == Get(MapMulti(r, mm, numeric), b)
    ensures Get(MapMulti(r, mm, numeric), a) ==
      Some(NumericFix(match SourceOf(mm, a) case None => Null case Some(src) => Str(TrimmedSource(r, src))))
  {
    var item := Build(FanOut(r, mm));
    FixNumericGet(item, numeric, a);
    FixNumericGet(item, numeric, b);
    FanOutGet(r, mm, a);
    FanOutGet(r, mm, b);
  }
}
