/** The record part of `parse_dbf_file`: fixed-length slots from the header
    length on, each decoded field by field with a byte cursor, then the rule set
    of the script and the select-list filter. One decoder serves every
    converter; a `Config` picks each script's behaviour. */
module DbfRecords {
  import opened Bytes
  import opened Text
  import opened Php
  import opened PhpArrays
  import opened DbfHeader
  import opened RowMapping
  import opened Candidates

  // ---------------------------------------------------------------------------
  // Configuration.

  /** By type code (the preliminary-results converter) or every field as text. */
  datatype Decoding = Typed | TextOnly

  /** `iconv($encoding, 'UTF-8//IGNORE', $val)`: the converted text, or None when
      iconv returns false. It is a parameter: its behaviour is not modelled. */
  type Iconv = (string, string) -> Option<string>

  /** The per-record rules a converter applies to the decoded row before
      filtering: none, or the candidates converter's. */
  datatype RuleSet = NoRules | CandidateRuleSet

  datatype Config = Config(mode: Decoding, encoding: string, iconv: Iconv, rules: RuleSet,
                           select: Option<seq<string>>)

  // ---------------------------------------------------------------------------
  // One field.

  /** The transcoding step: skipped for UTF-8, and a failed conversion keeps the
      text as it was. */
  function Transcode(encoding: string, iconv: Iconv, val: string): string
  {
    if encoding == "UTF-8" then val else iconv(encoding, val).GetOr(val)
  }

  /** A text field: trailing NUL/space/tab/CR/LF removed, transcoded, trimmed. */
  function TextValue(raw: seq<byte>, encoding: string, iconv: Iconv): string
  {
    Trim(Transcode(encoding, iconv, RTrim(BytesToText(raw), FieldPadding)))
  }

  /** The switch on the type code. A code that is none of the cases, the empty
      one of a cut-short descriptor included, takes the default branch. */
  function TypedValue(typ: string, raw: seq<byte>, encoding: string, iconv: Iconv): Value
  {
    if typ == "C" then Str(TextValue(raw, encoding, iconv))
    else if typ == "N" || typ == "F" then
      var v := Trim(BytesToText(raw));
      if v == "" then Null else Str(v)
    else if typ == "I" then
      match UnpackU32(raw)
      case None => Null
      case Some(n) => Int(n)
    else if typ == "Y" then
      match UnpackI64(raw)
      case None => Int(0)
      case Some(x) => if x % 10000 == 0 then Int(x / 10000) else Real(x)
    else Str(Trim(BytesToText(raw)))
  }

  function FieldValue(cfg: Config, f: FieldDesc, raw: seq<byte>): Value
  {
    if cfg.mode == Typed then TypedValue(f.typ, raw, cfg.encoding, cfg.iconv)
    else Str(TextValue(raw, cfg.encoding, cfg.iconv))
  }

  /** The binary integer field `01 00 00 00` holds 1. */
  lemma IntFieldOne(encoding: string, iconv: Iconv)
    ensures TypedValue("I", [1, 0, 0, 0], encoding, iconv) == Int(1)
  {
    U32One();
  }

  /** An `I` field reads back every unsigned 32-bit number, and a field cut
      shorter than 4 bytes reads as null. */
  lemma IntFieldRoundTrip(x: nat, raw: seq<byte>, encoding: string, iconv: Iconv)
    requires x < 0x1_0000_0000
    ensures TypedValue("I", EncodeLittleEndian(x, 4), encoding, iconv) == Int(x)
    ensures |raw| < 4 ==> TypedValue("I", raw, encoding, iconv) == Null
  {
    U32RoundTrip(x);
  }

  /** A `Y` field holds ten-thousandths: a whole amount reads as an integer, any
      other as the scaled float; a short field reads as 0. */
  lemma CurrencyField(x: int, raw: seq<byte>, encoding: string, iconv: Iconv)
    requires -0x8000_0000_0000_0000 <= x < 0x8000_0000_0000_0000
    ensures TypedValue("Y", EncodeI64(x), encoding, iconv) == if x % 10000 == 0 then Int(x / 10000) else Real(x)
    ensures |raw| < 8 ==> TypedValue("Y", raw, encoding, iconv) == Int(0)
  {
    I64RoundTrip(x);
  }

  /** The stored value 250000 is the amount 25, an integer since 10000 divides it. */
  lemma CurrencyExample(encoding: string, iconv: Iconv)
    ensures TypedValue("Y", EncodeI64(250000), encoding, iconv) == Int(25)
  {
    CurrencyField(250000, [], encoding, iconv);
  }

  /** A numeric field is null exactly when it is blank, and otherwise its
      trimmed text. */
  lemma NumericField(typ: string, raw: seq<byte>, encoding: string, iconv: Iconv)
    requires typ == "N" || typ == "F"
    ensures TypedValue(typ, raw, encoding, iconv) == Null <==> Trim(BytesToText(raw)) == ""
    ensures TypedValue(typ, raw, encoding, iconv) != Null ==> TypedValue(typ, raw, encoding, iconv) == Str(Trim(BytesToText(raw)))
  {
  }

  /** Unknown type codes are only trimmed. */
  lemma OtherField(typ: string, raw: seq<byte>, encoding: string, iconv: Iconv)
    requires typ !in {"C", "N", "F", "I", "Y"}
    ensures TypedValue(typ, raw, encoding, iconv) == Str(Trim(BytesToText(raw)))
  {
  }

  lemma {:induction false} RTrimPadding(t: string, pad: string, cut: string)
    requires t == [] || t[|t| - 1] !in cut
    requires forall k :: 0 <= k < |pad| ==> pad[k] in cut
    ensures RTrim(t + pad, cut) == t
  {
    if pad != [] {
      var p := pad[..|pad| - 1];
      assert (t + pad)[..|t + pad| - 1] == t + p;
      RTrimPadding(t, p, cut);
    }
  }

  /** Text stored left-aligned and padded with NULs, spaces, tabs, CRs or LFs
      reads back as the text itself. */
  lemma PaddedTextRoundTrip(b: seq<byte>, pad: seq<byte>, iconv: Iconv)
    requires b == [] || (b[0] as char !in PhpWhitespace && b[|b| - 1] as char !in PhpWhitespace)
    requires forall k :: 0 <= k < |pad| ==> pad[k] as char in FieldPadding
    ensures TextValue(b + pad, "UTF-8", iconv) == BytesToText(b)
  {
    var t, p := BytesToText(b), BytesToText(pad);
    assert BytesToText(b + pad) == t + p;
    assert t == [] || t[|t| - 1] !in FieldPadding;
    RTrimPadding(t, p, FieldPadding);
    TrimNoop(t);
  }

  // ---------------------------------------------------------------------------
  // One record: the cursor starts at 1 (after the deletion flag) and moves on by
  // each declared length, whatever the type.

  function SumLen(fs: seq<FieldDesc>): nat
  {
    if fs == [] then 0 else SumLen(fs[..|fs| - 1]) + fs[|fs| - 1].length
  }

  /** The cursor position at field k. */
  function Offset(fs: seq<FieldDesc>, k: nat): nat
    requires k <= |fs|
  {
    1 + SumLen(fs[..k])
  }

  lemma OffsetNext(fs: seq<FieldDesc>, k: nat)
    requires k < |fs|
    ensures Offset(fs, k + 1) == Offset(fs, k) + fs[k].length
  {
    assert fs[..k + 1][..k] == fs[..k];
  }

  /** Field k starts where the fields before it end: the ranges follow each
      other without gaps or overlaps, from byte 1 on. */
  lemma {:induction false} FieldRanges(fs: seq<FieldDesc>, j: nat, k: nat)
    requires j < k <= |fs|
    ensures Offset(fs, 0) == 1
    ensures Offset(fs, j) + fs[j].length <= Offset(fs, k)
    decreases k - j
  {
    OffsetNext(fs, j);
    if j + 1 < k {
      FieldRanges(fs, j + 1, k);
    }
  }

  /** How one field's bytes become a value. */
  type FieldDecoder = (FieldDesc, seq<byte>) -> Value

  /** The field decoder of a configuration. */
  function Decoder(cfg: Config): FieldDecoder
  {
    (f: FieldDesc, b: seq<byte>) => FieldValue(cfg, f, b)
  }

  /** The assignments `$row[$f['name']] = …` of one record, in descriptor order. */
  function RecordEntries(raw: seq<byte>, fields: seq<FieldDesc>, dec: FieldDecoder): (es: seq<Entry>)
    ensures |es| == |fields|
  {
    seq(|fields|, k requires 0 <= k < |fields| =>
      Entry(fields[k].name, dec(fields[k], Slice(raw, Offset(fields, k), fields[k].length))))
  }

  /** The decoded row of one record, before any rule. */
  function DecodeRecord(raw: seq<byte>, fields: seq<FieldDesc>, dec: FieldDecoder): Row
  {
    Build(RecordEntries(raw, fields, dec))
  }

  /** One turn of the field loop: one more assignment, the cursor one length on. */
  lemma RecordStep(raw: seq<byte>, fields: seq<FieldDesc>, dec: FieldDecoder, i: nat)
    requires i < |fields|
    ensures var f := fields[i];
      Build(RecordEntries(raw, fields, dec)[..i + 1]) ==
        Set(Build(RecordEntries(raw, fields, dec)[..i]), f.name, dec(f, Slice(raw, Offset(fields, i), f.length)))
    ensures Offset(fields, i + 1) == Offset(fields, i) + fields[i].length
  {
    var es := RecordEntries(raw, fields, dec);
    assert es[..i + 1] == es[..i] + [es[i]];
    BuildAppend(es[..i], es[i]);
    OffsetNext(fields, i);
  }

  /** The `foreach ($fields as $f)` loop with its cursor. */
  method DecodeFields(raw: seq<byte>, fields: seq<FieldDesc>, dec: FieldDecoder) returns (row: Row)
    ensures row == DecodeRecord(raw, fields, dec)
  {
    row := [];
    var pos := 1;
    var i := 0;
    while i < |fields|
      invariant i <= |fields|
      invariant pos == Offset(fields, i)
      invariant row == Build(RecordEntries(raw, fields, dec)[..i])
    {
      var f := fields[i];
      var val := dec(f, Slice(raw, pos, f.length));
      RecordStep(raw, fields, dec, i);
      row := Set(row, f.name, val);
      pos := pos + f.length;
      i := i + 1;
    }
    assert RecordEntries(raw, fields, dec)[..i] == RecordEntries(raw, fields, dec);
  }

  function Names(fields: seq<FieldDesc>): seq<string>
  {
    seq(|fields|, k requires 0 <= k < |fields| => fields[k].name)
  }

  /** With distinct field names the decoded row holds every field once, in
      descriptor order, each with the value of its own byte range. */
  lemma DecodeDistinct(raw: seq<byte>, fields: seq<FieldDesc>, dec: FieldDecoder)
    requires Distinct(Names(fields))
    ensures DecodeRecord(raw, fields, dec) == RecordEntries(raw, fields, dec)
    ensures Keys(DecodeRecord(raw, fields, dec)) == Names(fields)
  {
    var es := RecordEntries(raw, fields, dec);
    assert DistinctKeys(es) by {
      forall i, j | 0 <= i < j < |es| ensures es[i].key != es[j].key {
        assert es[i].key == Names(fields)[i] && es[j].key == Names(fields)[j];
      }
    }
    BuildOfDistinct(es);
  }

  /** Whatever the names, a field of the row holds the value of the last
      descriptor with that name. */
  lemma DecodeGet(raw: seq<byte>, fields: seq<FieldDesc>, dec: FieldDecoder, name: string)
    ensures Get(DecodeRecord(raw, fields, dec), name) == LastValue(RecordEntries(raw, fields, dec), name)
  {
    BuildGet(RecordEntries(raw, fields, dec), name);
  }

  // ---------------------------------------------------------------------------
  // The slot loop.

  /** `!$raw`: the empty string and "0" are both false. */
  predicate Falsy(raw: seq<byte>)
  {
    raw == [] || raw == [48]
  }

  const DeletedMark: byte := 42

  /** `$raw[0] === '*'`. */
  predicate Deleted(raw: seq<byte>)
  {
    |raw| > 0 && raw[0] == DeletedMark
  }

  /** The reads of at most `count` slots of `len` bytes from `pos` on, up to the
      first falsy one. */
  function SlotsFrom(file: seq<byte>, pos: nat, len: nat, count: nat): seq<seq<byte>>
    decreases count
  {
    if count == 0 then []
    else
      var raw := Slice(file, pos, len);
      if Falsy(raw) then [] else [raw] + SlotsFrom(file, pos + len, len, count - 1)
  }

  /** The reads that are not marked deleted, in order. */
  function LiveSlots(ss: seq<seq<byte>>): seq<seq<byte>>
  {
    if ss == [] then []
    else LiveSlots(ss[..|ss| - 1]) + (if Deleted(ss[|ss| - 1]) then [] else [ss[|ss| - 1]])
  }

  /** The rule set, as a function of the decoded row. */
  function ApplyRules(rs: RuleSet, row: Row): Row
  {
    match rs
    case NoRules => row
    case CandidateRuleSet => CandidateRules(row)
  }

  /** The rule step of the record loop. */
  method ApplyRuleSet(rs: RuleSet, row0: Row) returns (row: Row)
    ensures row == ApplyRules(rs, row0)
  {
    match rs {
      case NoRules => row := row0;
      case CandidateRuleSet => row := ApplyCandidateRules(row0);
    }
  }

  /** The row a live slot yields: decoded, the rules applied, then filtered when
      the script has a select list. */
  function SlotRow(raw: seq<byte>, fields: seq<FieldDesc>, cfg: Config): Row
  {
    var r := ApplyRules(cfg.rules, DecodeRecord(raw, fields, Decoder(cfg)));
    match cfg.select
    case None => r
    case Some(sel) => Filter(r, sel)
  }

  function RowsOf(live: seq<seq<byte>>, fields: seq<FieldDesc>, cfg: Config): (rows: seq<Row>)
    ensures |rows| == |live|
  {
    seq(|live|, k requires 0 <= k < |live| => SlotRow(live[k], fields, cfg))
  }

  /** `parse_dbf_file` on an in-memory file. `fread` of 0 bytes is an error in
      PHP 8, so a file announcing records of length 0 fails. */
  function ParseDbf(file: seq<byte>, cfg: Config): Result<seq<Row>>
  {
    var h := ReadHeader(file);
    if h.numRecords > 0 && h.recordLength == 0 then Err(ZeroLengthRead)
    else Ok(RowsOf(LiveSlots(SlotsFrom(file, h.headerLength, h.recordLength, h.numRecords)), Descriptors(file), cfg))
  }

  lemma LiveNext(ss: seq<seq<byte>>, raw: seq<byte>)
    ensures LiveSlots(ss + [raw]) == LiveSlots(ss) + (if Deleted(raw) then [] else [raw])
  {
    assert (ss + [raw])[..|ss|] == ss;
  }

  lemma RowsNext(live: seq<seq<byte>>, raw: seq<byte>, fields: seq<FieldDesc>, cfg: Config)
    ensures RowsOf(live + [raw], fields, cfg) == RowsOf(live, fields, cfg) + [SlotRow(raw, fields, cfg)]
  {
  }

  /** What one live slot goes through in the loop body. */
  method ProcessSlot(raw: seq<byte>, fields: seq<FieldDesc>, cfg: Config) returns (row: Row)
    ensures row == SlotRow(raw, fields, cfg)
  {
    row := DecodeFields(raw, fields, Decoder(cfg));
    row := ApplyRuleSet(cfg.rules, row);
    if cfg.select.Some? {
      row := FilterRow(row, cfg.select.value);
    }
  }

  /** One turn of the slot loop on a read that is not falsy. */
  lemma SlotStep(file: seq<byte>, pos: nat, len: nat, count: nat, seen: seq<seq<byte>>)
    requires count > 0 && !Falsy(Slice(file, pos, len))
    ensures seen + SlotsFrom(file, pos, len, count) ==
      (seen + [Slice(file, pos, len)]) + SlotsFrom(file, pos + len, len, count - 1)
  {
    assert SlotsFrom(file, pos, len, count) == [Slice(file, pos, len)] + SlotsFrom(file, pos + len, len, count - 1);
  }

  /** A deleted read adds no row. */
  lemma SlotSkipped(seen: seq<seq<byte>>, raw: seq<byte>, fields: seq<FieldDesc>, cfg: Config)
    requires Deleted(raw)
    ensures RowsOf(LiveSlots(seen + [raw]), fields, cfg) == RowsOf(LiveSlots(seen), fields, cfg)
  {
    LiveNext(seen, raw);
  }

  /** Any other read adds its row. */
  lemma SlotKept(seen: seq<seq<byte>>, raw: seq<byte>, row: Row, fields: seq<FieldDesc>, cfg: Config)
    requires !Deleted(raw) && row == SlotRow(raw, fields, cfg)
    ensures RowsOf(LiveSlots(seen + [raw]), fields, cfg) == RowsOf(LiveSlots(seen), fields, cfg) + [row]
  {
    LiveNext(seen, raw);
    RowsNext(LiveSlots(seen), raw, fields, cfg);
  }

  /** The `for ($i = 0; $i < $num_records; $i++)` loop over the slots. */
  method ReadSlots(file: seq<byte>, start: nat, len: nat, n: nat, fields: seq<FieldDesc>, cfg: Config)
    returns (rows: seq<Row>)
    ensures rows == RowsOf(LiveSlots(SlotsFrom(file, start, len, n)), fields, cfg)
  {
    rows := [];
    var pos: nat := start;
    var i := 0;
    ghost var seen: seq<seq<byte>> := [];
    while i < n
      invariant i <= n
      invariant seen + SlotsFrom(file, pos, len, n - i) == SlotsFrom(file, start, len, n)
      invariant rows == RowsOf(LiveSlots(seen), fields, cfg)
      decreases n - i
    {
      var raw := Slice(file, pos, len);
      if raw == [] || raw == [48] { break; }
      SlotStep(file, pos, len, n - i, seen);
      if raw[0] == DeletedMark {
        SlotSkipped(seen, raw, fields, cfg);
      } else {
        var row := ProcessSlot(raw, fields, cfg);
        SlotKept(seen, raw, row, fields, cfg);
        rows := rows + [row];
      }
      seen := seen + [raw];
      pos := pos + len;
      i := i + 1;
    }
    assert seen == SlotsFrom(file, start, len, n);
  }

  /** `parse_dbf_file`: the header, the descriptor loop and the slot loop. */
  method ParseDbfFile(file: seq<byte>, cfg: Config) returns (res: Result<seq<Row>>)
    ensures res == ParseDbf(file, cfg)
  {
    var h := ReadHeader(file);
    var fields := ReadDescriptors(file);
    if h.numRecords > 0 && h.recordLength == 0 {
      return Err(ZeroLengthRead);
    }
    var rows := ReadSlots(file, h.headerLength, h.recordLength, h.numRecords, fields, cfg);
    res := Ok(rows);
  }

  // ---------------------------------------------------------------------------
  // Properties of the slot loop.

  /** At most `count` slots are read. */
  lemma {:induction false} SlotsBound(file: seq<byte>, pos: nat, len: nat, count: nat)
    ensures |SlotsFrom(file, pos, len, count)| <= count
    decreases count
  {
    if count > 0 && !Falsy(Slice(file, pos, len)) {
      SlotsBound(file, pos + len, len, count - 1);
    }
  }

  /** Slot k is the read at `pos + k * len`, and it was not falsy. */
  lemma {:induction false} SlotAt(file: seq<byte>, pos: nat, len: nat, count: nat, k: nat)
    requires k < |SlotsFrom(file, pos, len, count)|
    ensures SlotsFrom(file, pos, len, count)[k] == Slice(file, pos + k * len, len)
    ensures !Falsy(Slice(file, pos + k * len, len))
    decreases count
  {
    if k > 0 {
      SlotAt(file, pos + len, len, count - 1, k - 1);
      assert pos + len + (k - 1) * len == pos + k * len;
    }
  }

  /** Reading stops before `count` slots only on a falsy read: a short read that
      is not falsy is kept and decoded. */
  lemma {:induction false} SlotsStop(file: seq<byte>, pos: nat, len: nat, count: nat)
    ensures var n := |SlotsFrom(file, pos, len, count)|;
      n < count ==> Falsy(Slice(file, pos + n * len, len))
    decreases count
  {
    if count > 0 && !Falsy(Slice(file, pos, len)) {
      SlotsStop(file, pos + len, len, count - 1);
      var n := |SlotsFrom(file, pos + len, len, count - 1)|;
      assert pos + len + n * len == pos + (n + 1) * len;
    }
  }

  /** A deleted slot never yields a row; every slot that is not deleted does,
      and nothing else is kept. */
  lemma {:induction false} LiveSlotsSpec(ss: seq<seq<byte>>)
    ensures |LiveSlots(ss)| <= |ss|
    ensures forall x :: x in LiveSlots(ss) <==> x in ss && !Deleted(x)
  {
    if ss != [] {
      var init, last := ss[..|ss| - 1], ss[|ss| - 1];
      LiveSlotsSpec(init);
      assert ss == init + [last];
    }
  }

  /** The positions of the slots that are not deleted, in file order. */
  function LivePositions(ss: seq<seq<byte>>): seq<nat>
  {
    if ss == [] then []
    else LivePositions(ss[..|ss| - 1]) + (if Deleted(ss[|ss| - 1]) then [] else [|ss| - 1])
  }

  /** The live slots are the slots at the live positions, in increasing order:
      file order is kept, and two equal records both stay. */
  lemma {:induction false} LiveSlotsOrder(ss: seq<seq<byte>>)
    ensures var ps := LivePositions(ss);
      && |LiveSlots(ss)| == |ps|
      && (forall j :: 0 <= j < |ps| ==> ps[j] < |ss| && LiveSlots(ss)[j] == ss[ps[j]])
      && (forall i, j :: 0 <= i < j < |ps| ==> ps[i] < ps[j])
      && (forall k: nat :: k in ps <==> k < |ss| && !Deleted(ss[k]))
  {
    if ss != [] {
      var init, last := ss[..|ss| - 1], ss[|ss| - 1];
      LiveSlotsOrder(init);
      var ps0 := LivePositions(init);
      assert forall j :: 0 <= j < |ps0| ==> ss[ps0[j]] == init[ps0[j]];
      assert forall k :: 0 <= k < |init| ==> ss[k] == init[k];
    }
  }

  /** Without deleted slots every read yields a row. */
  lemma {:induction false} LiveSlotsAll(ss: seq<seq<byte>>)
    requires forall k :: 0 <= k < |ss| ==> !Deleted(ss[k])
    ensures LiveSlots(ss) == ss
  {
    if ss != [] {
      LiveSlotsAll(ss[..|ss| - 1]);
    }
  }

  /** A read file yields no more rows than the header announces, and fails
      exactly when it announces records of length 0. */
  lemma RowCount(file: seq<byte>, cfg: Config)
    ensures ParseDbf(file, cfg).Err? <==> ReadHeader(file).numRecords > 0 && ReadHeader(file).recordLength == 0
    ensures ParseDbf(file, cfg).Ok? ==> |ParseDbf(file, cfg).value| <= ReadHeader(file).numRecords
  {
    var h := ReadHeader(file);
    var ss := SlotsFrom(file, h.headerLength, h.recordLength, h.numRecords);
    SlotsBound(file, h.headerLength, h.recordLength, h.numRecords);
    LiveSlotsSpec(ss);
  }

  /** Every row comes from a slot that was read and is not deleted, decoded by
      the script's rules. */
  lemma RowsFromLiveSlots(file: seq<byte>, cfg: Config)
    requires ParseDbf(file, cfg).Ok?
    ensures var h := ReadHeader(file);
      var ss := SlotsFrom(file, h.headerLength, h.recordLength, h.numRecords);
      forall row :: row in ParseDbf(file, cfg).value ==>
        exists raw :: raw in ss && !Deleted(raw) && row == SlotRow(raw, Descriptors(file), cfg)
  {
    var h := ReadHeader(file);
    var ss := SlotsFrom(file, h.headerLength, h.recordLength, h.numRecords);
    var live := LiveSlots(ss);
    LiveSlotsSpec(ss);
    forall row | row in ParseDbf(file, cfg).value
      ensures exists raw :: raw in ss && !Deleted(raw) && row == SlotRow(raw, Descriptors(file), cfg)
    {
      var k :| 0 <= k < |live| && ParseDbf(file, cfg).value[k] == row;
      assert live[k] in live;
    }
  }

  /** With a select list naming each field once, every row has exactly those
      keys, in that order. */
  lemma SelectedKeys(file: seq<byte>, cfg: Config, sel: seq<string>)
    requires cfg.select == Some(sel) && Distinct(sel) && ParseDbf(file, cfg).Ok?
    ensures forall row :: row in ParseDbf(file, cfg).value ==> Keys(row) == sel
  {
    var rows := ParseDbf(file, cfg).value;
    forall row | row in rows ensures Keys(row) == sel {
      var k :| 0 <= k < |rows| && rows[k] == row;
      var h := ReadHeader(file);
      var live := LiveSlots(SlotsFrom(file, h.headerLength, h.recordLength, h.numRecords));
      FilterShape(ApplyRules(cfg.rules, DecodeRecord(live[k], Descriptors(file), Decoder(cfg))), sel);
    }
  }

  /** In text mode the type code plays no part. */
  lemma TextIgnoresType(cfg: Config, f: FieldDesc, g: FieldDesc, raw: seq<byte>)
    requires cfg.mode == TextOnly
    ensures FieldValue(cfg, f, raw) == FieldValue(cfg, g, raw) == Str(TextValue(raw, cfg.encoding, cfg.iconv))
  {
  }
}
