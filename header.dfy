/** The DBF header and the field-descriptor table: the 32-byte header, then
    32-byte descriptors from offset 32 up to a 0x0D byte. */
module DbfHeader {
  import opened Bytes
  import opened Text

  /** The three header numbers the converters use. A number whose bytes lie past
      the end of a short file makes `unpack` fail; PHP then reads null, which
      every use treats as 0. */
  datatype Header = Header(numRecords: nat, headerLength: nat, recordLength: nat)

  /** One field descriptor as the converters keep it: the name, the type code
      (one char, or empty when the descriptor was cut short) and the length. */
  datatype FieldDesc = FieldDesc(name: string, typ: string, length: nat)

  /** One entry of the field listing: name, type code, length and decimal count. */
  datatype FieldInfo = FieldInfo(name: string, typ: char, length: nat, decimals: nat)

  const Terminator: byte := 0x0D
  const DescriptorSize: nat := 32

  /** `fread($fp, 32)` then `unpack` at offsets 4, 8 and 10. */
  function ReadHeader(file: seq<byte>): (h: Header)
    ensures |file| >= 32 ==>
      h.numRecords == file[4] as int + 256 * (file[5] as int) + 65536 * (file[6] as int) + 16777216 * (file[7] as int)
    ensures |file| >= 32 ==> h.headerLength == file[8] as int + 256 * (file[9] as int)
    ensures |file| >= 32 ==> h.recordLength == file[10] as int + 256 * (file[11] as int)
    ensures h.numRecords < 0x1_0000_0000 && h.headerLength < 0x1_0000 && h.recordLength < 0x1_0000
    ensures |file| < 8 ==> h.numRecords == 0
    ensures |file| < 12 ==> h.recordLength == 0
  {
    var head := Slice(file, 0, 32);
    Header(UnpackU32(Slice(head, 4, 4)).GetOr(0),
           UnpackU16(Slice(head, 8, 2)).GetOr(0),
           UnpackU16(Slice(head, 10, 2)).GetOr(0))
  }

  /** The descriptor fields read from one (possibly short) 32-byte chunk: the name
      is bytes 0..10 without trailing NUL/space, the type is byte 11, the length
      byte 16. PHP reads a missing offset as the empty string: an empty type and
      length 0. */
  function ParseDescriptor(d: seq<byte>): FieldDesc
  {
    FieldDesc(RTrim(BytesToText(Slice(d, 0, 11)), NamePadding),
              if |d| > 11 then [d[11] as char] else "",
              if |d| > 16 then d[16] else 0)
  }

  /** What the descriptor parser keeps of a chunk: the name is the first 11 bytes
      with exactly their trailing NUL/space run cut off; the type and length come
      from bytes 11 and 16 when the read reaches them. */
  lemma ParseDescriptorFields(d: seq<byte>)
    ensures var f, t := ParseDescriptor(d), BytesToText(Slice(d, 0, 11));
      && f.name <= t
      && (forall k :: |f.name| <= k < |t| ==> t[k] in NamePadding)
      && (f.name == [] || f.name[|f.name| - 1] !in NamePadding)
      && |f.name| <= 11
      && (|d| >= 17 ==> f.length == d[16] && f.typ == [d[11] as char])
      && (11 < |d| < 17 ==> f.typ == [d[11] as char] && f.length == 0)
      && (|d| <= 11 ==> f.typ == "" && f.length == 0)
  {
    RTrimSpec(BytesToText(Slice(d, 0, 11)), NamePadding);
  }

  /** Whether the descriptor loop stops on this read: nothing was read, or the
      first byte is the terminator. */
  predicate StopsTable(d: seq<byte>)
  {
    |d| == 0 || d[0] == Terminator
  }

  /** The 32-byte chunks the descriptor loop reads from offset `pos` on, up to the
      read that stops it. */
  function ChunksFrom(file: seq<byte>, pos: nat): (cs: seq<seq<byte>>)
    ensures forall k :: 0 <= k < |cs| ==> 0 < |cs[k]| <= 32
    decreases |file| + 32 - pos
  {
    var d := Slice(file, pos, 32);
    if StopsTable(d) then [] else [d] + ChunksFrom(file, pos + 32)
  }

  /** The parsed descriptors of a list of chunks, in order. */
  function ParseAll(cs: seq<seq<byte>>): (fs: seq<FieldDesc>)
    ensures |fs| == |cs|
    ensures forall k :: 0 <= k < |cs| ==> fs[k] == ParseDescriptor(cs[k])
  {
    seq(|cs|, k requires 0 <= k < |cs| => ParseDescriptor(cs[k]))
  }

  /** The descriptor table the converters read: from offset 32. */
  function Descriptors(file: seq<byte>): seq<FieldDesc>
  {
    ParseAll(ChunksFrom(file, 32))
  }

  /** The read loop of the converters' `parse_dbf_file`. */
  method ReadDescriptors(file: seq<byte>) returns (fields: seq<FieldDesc>)
    ensures fields == Descriptors(file)
  {
    fields := [];
    var pos := 32;
    ghost var chunks: seq<seq<byte>> := [];
    while true
      invariant pos <= |file| + 32
      invariant chunks + ChunksFrom(file, pos) == ChunksFrom(file, 32)
      invariant fields == ParseAll(chunks)
      decreases |file| + 32 - pos
    {
      var desc := Slice(file, pos, 32);
      if |desc| == 0 { break; }
      if desc[0] == Terminator { break; }
      assert ChunksFrom(file, pos) == [desc] + ChunksFrom(file, pos + 32);
      fields := fields + [ParseDescriptor(desc)];
      chunks := chunks + [desc];
      pos := pos + 32;
    }
    assert ChunksFrom(file, pos) == [];
    assert chunks == ChunksFrom(file, 32);
  }

  /** Chunk k is the read at offset pos + 32k, and it did not stop the loop. */
  lemma {:induction false} ChunkAt(file: seq<byte>, pos: nat, k: nat)
    requires k < |ChunksFrom(file, pos)|
    ensures ChunksFrom(file, pos)[k] == Slice(file, pos + 32 * k, 32)
    ensures !StopsTable(Slice(file, pos + 32 * k, 32))
    decreases k
  {
    if k > 0 {
      ChunkAt(file, pos + 32, k - 1);
      assert pos + 32 + 32 * (k - 1) == pos + 32 * k;
    }
  }

  /** The read right after the last chunk stops the loop. */
  lemma {:induction false} ChunksEnd(file: seq<byte>, pos: nat)
    ensures StopsTable(Slice(file, pos + 32 * |ChunksFrom(file, pos)|, 32))
    decreases |file| + 32 - pos
  {
    if !StopsTable(Slice(file, pos, 32)) {
      ChunksEnd(file, pos + 32);
      var n := |ChunksFrom(file, pos + 32)|;
      assert pos + 32 + 32 * n == pos + 32 * (n + 1);
    }
  }

  /** Every chunk but the last is a full 32 bytes, and the chunks never reach past
      the end of the file: there are at most (|file| - pos + 31) / 32 of them. */
  lemma {:induction false} ChunksBound(file: seq<byte>, pos: nat)
    ensures forall k :: 0 <= k < |ChunksFrom(file, pos)| - 1 ==> |ChunksFrom(file, pos)[k]| == 32
    ensures |ChunksFrom(file, pos)| > 0 ==> 32 * |ChunksFrom(file, pos)| < |file| - pos + 32
    decreases |file| + 32 - pos
  {
    var d := Slice(file, pos, 32);
    if !StopsTable(d) {
      ChunksBound(file, pos + 32);
      var rest := ChunksFrom(file, pos + 32);
      assert ChunksFrom(file, pos) == [d] + rest;
      if |d| < 32 {
        assert Slice(file, pos + 32, 32) == [];
        assert rest == [];
      }
    }
  }

  /** One entry of the field listing, from a full 32-byte chunk. */
  function ParseFieldInfo(d: seq<byte>): FieldInfo
    requires |d| == 32
  {
    FieldInfo(RTrim(BytesToText(d[..11]), NamePadding), d[11] as char, d[16], d[17])
  }

  /** The chunks of `dbf_fields.php` from offset `pos` on: its loop also stops on
      a read shorter than 32 bytes. */
  function FieldChunksFrom(file: seq<byte>, pos: nat): (cs: seq<seq<byte>>)
    ensures forall k :: 0 <= k < |cs| ==> |cs[k]| == 32
    decreases |file| + 32 - pos
  {
    var d := Slice(file, pos, 32);
    if |d| < 32 || d[0] == Terminator then [] else [d] + FieldChunksFrom(file, pos + 32)
  }

  /** The listing entries of a list of full chunks, in order. */
  function ParseInfos(cs: seq<seq<byte>>): (list: seq<FieldInfo>)
    requires forall k :: 0 <= k < |cs| ==> |cs[k]| == 32
    ensures |list| == |cs|
  {
    seq(|cs|, k requires 0 <= k < |cs| => ParseFieldInfo(cs[k]))
  }

  /** The field listing of a file. */
  function FieldList(file: seq<byte>): seq<FieldInfo>
  {
    ParseInfos(FieldChunksFrom(file, 32))
  }

  /** The top-level loop of `dbf_fields.php`. The header length it decodes is never
      used, so it is not read here. */
  method ListFields(file: seq<byte>) returns (list: seq<FieldInfo>)
    ensures list == FieldList(file)
  {
    list := [];
    var pos := 32;
    ghost var chunks: seq<seq<byte>> := [];
    while true
      invariant pos <= |file| + 32
      invariant chunks + FieldChunksFrom(file, pos) == FieldChunksFrom(file, 32)
      invariant forall k :: 0 <= k < |chunks| ==> |chunks[k]| == 32
      invariant list == ParseInfos(chunks)
      decreases |file| + 32 - pos
    {
      var field := Slice(file, pos, 32);
      if |field| < 32 { break; }
      if field[0] == Terminator { break; }
      assert FieldChunksFrom(file, pos) == [field] + FieldChunksFrom(file, pos + 32);
      list := list + [ParseFieldInfo(field)];
      chunks := chunks + [field];
      pos := pos + 32;
    }
    assert FieldChunksFrom(file, pos) == [];
    assert chunks == FieldChunksFrom(file, 32);
  }

  /** The listing's chunks are the converters' chunks except, at most, a last
      one that the end of the file cut short. */
  lemma {:induction false} FieldChunksArePrefix(file: seq<byte>, pos: nat)
    ensures FieldChunksFrom(file, pos) <= ChunksFrom(file, pos)
    ensures |FieldChunksFrom(file, pos)| + 1 >= |ChunksFrom(file, pos)|
    decreases |file| + 32 - pos
  {
    var d := Slice(file, pos, 32);
    if !(|d| < 32 || d[0] == Terminator) {
      FieldChunksArePrefix(file, pos + 32);
      assert FieldChunksFrom(file, pos) == [d] + FieldChunksFrom(file, pos + 32);
      assert ChunksFrom(file, pos) == [d] + ChunksFrom(file, pos + 32);
    } else if |d| < 32 && !StopsTable(d) {
      assert Slice(file, pos + 32, 32) == [];
      assert ChunksFrom(file, pos) == [d];
    }
  }

  /** On a full chunk both parsers read the same name, type and length. */
  lemma ParsersAgree(d: seq<byte>)
    requires |d| == 32
    ensures var f, g := ParseFieldInfo(d), ParseDescriptor(d);
      f.name == g.name && [f.typ] == g.typ && f.length == g.length
  {
    assert d[..11] == Slice(d, 0, 11);
  }

  /** The listing agrees with the converters' table: it is a prefix of it with the
      same names, types and lengths, and it falls short by at most the table's last
      descriptor, when the end of the file cut that one short. */
  lemma FieldListIsPrefix(file: seq<byte>)
    ensures |FieldList(file)| <= |Descriptors(file)| <= |FieldList(file)| + 1
    ensures forall k :: 0 <= k < |FieldList(file)| ==>
      var f, g := FieldList(file)[k], Descriptors(file)[k];
      f.name == g.name && [f.typ] == g.typ && f.length == g.length
  {
    FieldChunksArePrefix(file, 32);
    var fc, dc := FieldChunksFrom(file, 32), ChunksFrom(file, 32);
    forall k | 0 <= k < |fc|
      ensures var f, g := FieldList(file)[k], Descriptors(file)[k];
        f.name == g.name && [f.typ] == g.typ && f.length == g.length
    {
      assert fc[k] == dc[k];
      ParsersAgree(fc[k]);
    }
  }
}
