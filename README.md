# DBF converters of the BPSC data-conversion scripts, modelled in Dafny

The repository is a set of PHP scripts that read dBASE (DBF) files exported by a
recruitment system and turn them into PHP arrays and MySQL `INSERT` statements.
Every script contains its own copy of the same reader, with small differences. This
project models that reader once and picks each script's behaviour with parameters:

- **Header and descriptors** (`DbfHeader`). The 32-byte header gives the record count
  (u32 little-endian at offset 4), the header length (u16 at 8) and the record length
  (u16 at 10). The field descriptors follow in 32-byte steps from offset 32 and stop
  at an empty read or a 0x0D byte. The field lister `dbf_fields.php` stops at any
  short read instead. A lemma proves that its list is the converter's list, possibly
  without the last entry.
- **Records** (`DbfRecords`). At most the header's record count of slots is read,
  starting at the header length. Reading stops at a falsy read (empty or "0"). Slots
  starting with `*` are skipped. A byte cursor walks the fields from offset 1. The
  preli converter decodes by type code (`C`, `N`/`F`, `I`, `Y`, anything else); the
  other converters decode every field as text. The text is right-trimmed, transcoded
  and trimmed, and the candidates converter then applies its row rules. Finally the
  row is filtered to the select list.
- **Row rules**. `Candidates` holds the quota flags, the category normalisation, the
  merit nulling and the gender names. `TechCadres` holds the `CODE(n)` list parser:
  a small matcher for its regular expression, proved to find the leftmost match.
  `Statistics` covers the preli run block: integer casts, DDMMYY to ISO dates with
  the 2029 pivot and calendar check, and the category derived from `cadre_type`.
- **Mapping** (`RowMapping`): `map_fields` (rename), `map_fields_simple` (trim, drop
  "" and "0", integer `cadre_code`) and `map_fields_multi` (fan-out into several
  columns plus the numeric fix-up).
- **SQL** (`Sql`): the quote-everything `generate_sql_inserts`, the typed variant and
  `generate_sql_inserts_batch`. A reader for VALUES lists is their partner: every
  value of every row reads back in order, with quotes undoubled.
- **Scripts** (`Scripts`): each converter's configuration as constants, and its run
  block as a method proved equal to a function of the file bytes.

`Php` and `PhpArrays` model the PHP semantics the scripts rely on:
- arrays as ordered key/value lists in which assignment overwrites in place or
  appends;
- `trim`, `rtrim`, `explode` and `strtoupper`;
- `(int)`, `is_numeric` and `empty`;
- the text of values.

Files are byte sequences. `iconv` is a function parameter, applied only when the
encoding is not UTF-8. Every loop of the scripts is a method with invariants and is
proved equal to a specification function. The lemmas state the properties of those
functions.

Behaviour of the code worth knowing:
- A header shorter than 32 bytes is not an error: the missing numbers decode as 0.
- A record read that comes back short but not empty is still decoded, and the loop
  stops only at an empty or "0" read. A zero record length with records announced is
  an error, because PHP's `fread` rejects a length of 0.
- Field names keep up to 11 characters, the full name area of the descriptor.
- Any first byte other than `*` marks a live record.
- The `CODE(n)` pattern allows spaces inside the parentheses, and it may match
  anywhere in a piece.
- The preli run block casts its integer fields before it converts dates and derives
  the category.
- A currency amount that divides exactly is an integer, not a float.
- `map_fields_multi` gives an absent source the value "" (then 0 for the counts), not
  null.

## Model

| member | source | states |
|---|---|---|
| Bytes.Slice | bcs44-dbf-candidates-to-array-and-sql.php:104 | `substr` yields nothing from past the end and otherwise at most the requested length, cut at the end of the data |
| Bytes.SliceContent | bcs44-dbf-candidates-to-array-and-sql.php:104 | what `substr` returns is the data itself from the offset on, the full requested length when the data reaches that far |
| Bytes.UnpackU32 | bcs44-dbf-candidates-to-array-and-sql.php:62 | `unpack("V")` succeeds exactly when four bytes are present and gives their little-endian value, below 2^32 |
| Bytes.UnpackU16 | bcs44-dbf-candidates-to-array-and-sql.php:63-64 | `unpack("v")` succeeds exactly when two bytes are present and gives their little-endian value, below 2^16 |
| Bytes.UnpackI64 | statistics-dbf-conversion/general-bcs/bcs44-dbf-preli-passed-file-conversion.php:130 | `unpack("q")` succeeds exactly when eight bytes are present and gives a signed 64-bit value congruent to their little-endian value |
| Bytes.LittleEndianBound | bcs44-dbf-candidates-to-array-and-sql.php:62-64 | n little-endian bytes encode a value below 256^n |
| Bytes.LittleEndianRoundTrip | bcs44-dbf-candidates-to-array-and-sql.php:62-64 | encoding a value below 256^n in n bytes and decoding it gives the value back |
| Bytes.EncodeDecodeRoundTrip | bcs44-dbf-candidates-to-array-and-sql.php:62-64 | decoding bytes and encoding the value in as many bytes gives the bytes back |
| Bytes.I64RoundTrip | statistics-dbf-conversion/general-bcs/bcs44-dbf-preli-passed-file-conversion.php:130 | every signed 64-bit value written in two's complement reads back through `unpack("q")` |
| Bytes.U32RoundTrip | statistics-dbf-conversion/general-bcs/bcs44-dbf-preli-passed-file-conversion.php:125 | every unsigned 32-bit value written little-endian reads back through `unpack("V")` |
| Text.RTrimSpec | bcs44-dbf-candidates-to-array-and-sql.php:104 | `rtrim` keeps a prefix whose last character is not in the cut set and removes only cut characters |
| Text.LTrimSpec | bcs44-dbf-candidates-to-array-and-sql.php:113 | `ltrim` keeps a suffix whose first character is not in the cut set and removes only cut characters |
| Text.TrimShape | bcs44-dbf-candidates-to-array-and-sql.php:113 | `trim` keeps one contiguous piece of its input, with no whitespace at either end, and removes only whitespace around it |
| Text.TrimNoop | bcs44-dbf-candidates-to-array-and-sql.php:113 | a string without whitespace at its ends is left unchanged by `trim` |
| Text.TrimIdempotent | bcs44-dbf-candidates-to-array-and-sql.php:113 | trimming twice is the same as trimming once |
| Text.NatToDecimalDigits | statistics-dbf-conversion/general-bcs/bcs44-dbf-preli-passed-file-conversion.php:192 | PHP's text of a natural number is one or more digits with no leading zero |
| Text.DecimalRoundTrip | statistics-dbf-conversion/general-bcs/bcs44-dbf-preli-passed-file-conversion.php:192 | the digits PHP prints for a natural number read back as that number |
| Text.EscapeRoundTrip | statistics-dbf-conversion/bcs48-dbf-select-all-file-conversion.php:165 | after doubling every quote, the quoted literal reads back as the original text, with the text that follows it left over |
| Text.Split | bcs44-dbf-candidates-to-array-and-sql.php:140 | `explode` always yields at least one part |
| Text.SplitConcat | bcs44-dbf-candidates-to-array-and-sql.php:140 | a part free of the separator, followed by the separator, is split off as the first part |
| Text.SplitNone | bcs44-dbf-candidates-to-array-and-sql.php:140 | a string without the separator explodes to itself |
| Text.SplitJoin | bcs44-dbf-candidates-to-array-and-sql.php:140 | joining the parts of `explode` with the separator gives the input back, and no part contains the separator |
| Php.GetSome | bcs44-dbf-candidates-to-array-and-sql.php:219 | a lookup finds a value exactly when the key is among the array's keys |
| Php.SetGet | bcs44-dbf-candidates-to-array-and-sql.php:128 | after `$row[$k] = $v` the key reads `$v` and every other key reads as before |
| Php.SetKeys | bcs44-dbf-candidates-to-array-and-sql.php:128 | assignment appends a new key at the end and keeps the key order when the key already exists |
| Php.SetNew | bcs44-dbf-candidates-to-array-and-sql.php:128 | assigning a new key appends one entry |
| Php.SetKeepsDistinct | bcs44-dbf-candidates-to-array-and-sql.php:128 | assignment never duplicates a key |
| Php.Pad4 | statistics-dbf-conversion/general-bcs/bcs44-dbf-preli-passed-file-conversion.php:130 | the four-digit fraction of a currency value has exactly four characters |
| Php.Pad4ReadsBack | statistics-dbf-conversion/general-bcs/bcs44-dbf-preli-passed-file-conversion.php:130 | the four-digit fraction is all digits and reads back as the fraction it pads |
| Php.LeadingDigitsSpec | bcs44-dbf-candidates-to-array-and-sql.php:148 | `(int)` reads the longest run of leading digits, stopping at the first non-digit |
| Php.DigitsToInt | bcs44-dbf-candidates-to-array-and-sql.php:148 | `(int)` of a digit string is its decimal value |
| Php.DigitsAreNumeric | statistics-dbf-conversion/general-bcs/bcs44-dbf-preli-passed-file-conversion.php:323 | a non-empty digit string passes `is_numeric` |
| Php.NegativeDigitsToInt | bcs44-dbf-candidates-to-array-and-sql.php:148 | `(int)` of a minus sign followed by digits is the negated value |
| Php.IntTextTrimmed | statistics-dbf-conversion/general-bcs/bcs44-dbf-preli-passed-file-conversion.php:192 | the text of an integer has nothing for `trim` to remove |
| Php.IntTextRoundTrip | statistics-dbf-conversion/general-bcs/bcs44-dbf-preli-passed-file-conversion.php:325 | `(int)` of the text of any integer gives the integer back |
| PhpArrays.BuildAppend | bcs44-dbf-candidates-to-array-and-sql.php:113 | building an array from one more entry is one more assignment |
| PhpArrays.BuildGet | bcs44-dbf-candidates-to-array-and-sql.php:102-115 | a key reads the value of its last assignment, so a later field of the same name overwrites an earlier one |
| PhpArrays.BuildDistinct | bcs44-dbf-candidates-to-array-and-sql.php:102-115 | an array built by assignments has each key once |
| PhpArrays.BuildKeySet | bcs44-dbf-candidates-to-array-and-sql.php:102-115 | a key is in the built array exactly when some entry assigns it |
| PhpArrays.BuildOfDistinct | bcs44-dbf-candidates-to-array-and-sql.php:102-115 | with no repeated key the array holds the entries in assignment order |
| DbfHeader.ReadHeader | bcs44-dbf-candidates-to-array-and-sql.php:59-64 | the record count comes from bytes 4-7, the header length from bytes 8-9 and the record length from bytes 10-11, all little-endian; a file too short to hold them gives 0 |
| DbfHeader.ParseDescriptorFields | bcs44-dbf-candidates-to-array-and-sql.php:78-82 | a descriptor's name is the text of its first 11 bytes with exactly the trailing run of NUL and space cut off; its type is byte 11 once the read holds 12 bytes and its length byte 16 once it holds 17, otherwise an empty type and length 0 |
| DbfHeader.ChunksFrom | bcs44-dbf-candidates-to-array-and-sql.php:71-76 | every descriptor read holds between 1 and 32 bytes |
| DbfHeader.ReadDescriptors | bcs44-dbf-candidates-to-array-and-sql.php:66-84 | the descriptor loop yields exactly the fields parsed from the descriptors before the terminator |
| DbfHeader.ChunkAt | bcs44-dbf-candidates-to-array-and-sql.php:71-84 | the k-th field comes from the 32 bytes at offset 32 + 32k, and that read is not a terminator |
| DbfHeader.ChunksEnd | bcs44-dbf-candidates-to-array-and-sql.php:75-76 | the read after the last field is empty or starts with 0x0D |
| DbfHeader.ChunksBound | bcs44-dbf-candidates-to-array-and-sql.php:73 | every field read except possibly the last is a full 32 bytes, and the reads stay within the file |
| DbfHeader.FieldChunksFrom | result-dbf-conversion/dbf_fields.php:25-31 | the field lister keeps only full 32-byte descriptors |
| DbfHeader.ParseInfos | result-dbf-conversion/dbf_fields.php:32-35 | the field lister parses one record per descriptor |
| DbfHeader.ListFields | result-dbf-conversion/dbf_fields.php:21-38 | the field lister's loop yields exactly the fields of the descriptors before the terminator or a short read |
| DbfHeader.FieldChunksArePrefix | result-dbf-conversion/dbf_fields.php:25-31 | the lister's descriptors are a prefix of the converter's, shorter by at most the final short read |
| DbfHeader.ParsersAgree | result-dbf-conversion/dbf_fields.php:32-35 | on a full descriptor the lister and the converter agree on name, type and length |
| DbfHeader.FieldListIsPrefix | result-dbf-conversion/dbf_fields.php:25-38 | the lister's fields are the converter's fields, possibly without the last one |
| DbfRecords.IntFieldOne | statistics-dbf-conversion/general-bcs/bcs44-dbf-preli-passed-file-conversion.php:124-126 | an `I` field holding the bytes 1,0,0,0 decodes to the integer 1 |
| DbfRecords.IntFieldRoundTrip | statistics-dbf-conversion/general-bcs/bcs44-dbf-preli-passed-file-conversion.php:124-126 | an `I` field decodes every unsigned 32-bit value written little-endian, and gives null when shorter than four bytes |
| DbfRecords.CurrencyField | statistics-dbf-conversion/general-bcs/bcs44-dbf-preli-passed-file-conversion.php:129-131 | a `Y` field decodes to the stored value divided by 10000, an integer when the division is exact; a field shorter than eight bytes gives 0 |
| DbfRecords.NumericField | statistics-dbf-conversion/general-bcs/bcs44-dbf-preli-passed-file-conversion.php:117-121 | an `N` or `F` field is null exactly when its trimmed text is empty, and its trimmed text otherwise |
| DbfRecords.OtherField | statistics-dbf-conversion/general-bcs/bcs44-dbf-preli-passed-file-conversion.php:133-134 | any other field type decodes to its trimmed text |
| DbfRecords.RTrimPadding | bcs44-dbf-candidates-to-array-and-sql.php:104 | `rtrim` removes exactly the trailing padding after a value ending in a non-padding character |
| DbfRecords.PaddedTextRoundTrip | bcs44-dbf-candidates-to-array-and-sql.php:104-113 | a text without whitespace at its ends, padded with NUL, space, tab, CR or LF, decodes to itself |
| DbfRecords.FieldRanges | bcs44-dbf-candidates-to-array-and-sql.php:99-114 | field values start at offset 1 and do not overlap: each field starts at or after the end of every earlier field |
| DbfRecords.OffsetNext | bcs44-dbf-candidates-to-array-and-sql.php:114 | each field starts where the previous one ends |
| DbfRecords.RecordEntries | bcs44-dbf-candidates-to-array-and-sql.php:102-115 | one assignment per field, in field order |
| DbfRecords.DecodeFields | bcs44-dbf-candidates-to-array-and-sql.php:99-115 | the field loop builds exactly the row of the decoded fields |
| DbfRecords.DecodeDistinct | bcs44-dbf-candidates-to-array-and-sql.php:113 | with distinct field names the row has the field names as keys, in order |
| DbfRecords.DecodeGet | bcs44-dbf-candidates-to-array-and-sql.php:113 | a field name reads the value of the last field with that name |
| DbfRecords.ApplyRuleSet | bcs44-dbf-candidates-to-array-and-sql.php:117-212 | the converter's row rules are applied to the decoded row, in order |
| DbfRecords.RowsOf | bcs44-dbf-candidates-to-array-and-sql.php:90-222 | one output row per live record |
| DbfRecords.LiveNext | bcs44-dbf-candidates-to-array-and-sql.php:97 | a record starting with `*` adds no row and any other record adds one |
| DbfRecords.ProcessSlot | bcs44-dbf-candidates-to-array-and-sql.php:99-222 | a live record becomes the row decoded, processed by the rules and filtered to the selected fields |
| DbfRecords.SlotSkipped | bcs44-dbf-candidates-to-array-and-sql.php:97 | a deleted record leaves the rows unchanged |
| DbfRecords.SlotKept | bcs44-dbf-candidates-to-array-and-sql.php:97-222 | a live record appends its row |
| DbfRecords.ReadSlots | bcs44-dbf-candidates-to-array-and-sql.php:86-224 | the record loop returns exactly the rows of the live records read before the count is reached or a read comes back falsy |
| DbfRecords.ParseDbfFile | bcs44-dbf-candidates-to-array-and-sql.php:51-230 | parsing is the header, the descriptors, then the record loop; a zero record length with records to read is an error |
| DbfRecords.SlotsBound | bcs44-dbf-candidates-to-array-and-sql.php:90 | at most the header's record count of records is read |
| DbfRecords.SlotAt | bcs44-dbf-candidates-to-array-and-sql.php:90-95 | the k-th record read is the record-length bytes at header length + k times record length, and it is not falsy |
| DbfRecords.SlotsStop | bcs44-dbf-candidates-to-array-and-sql.php:93-95 | reading stops early only at an empty or "0" read |
| DbfRecords.LiveSlotsSpec | bcs44-dbf-candidates-to-array-and-sql.php:97 | the live records are exactly the read records that do not start with `*` |
| DbfRecords.LiveSlotsOrder | bcs44-dbf-candidates-to-array-and-sql.php:89-99 | the live records are the slots at the not-deleted positions, in file order: the positions strictly increase and name exactly the slots that do not start with `*`, so duplicate records both stay |
| DbfRecords.LiveSlotsAll | bcs44-dbf-candidates-to-array-and-sql.php:97 | when no record is deleted every record is live |
| DbfRecords.RowCount | bcs44-dbf-candidates-to-array-and-sql.php:90-95 | parsing fails exactly when records are announced but the record length is 0, and never yields more rows than the header announces |
| DbfRecords.RowsFromLiveSlots | bcs44-dbf-candidates-to-array-and-sql.php:90-222 | every output row comes from a live record of the file |
| DbfRecords.SelectedKeys | bcs44-dbf-candidates-to-array-and-sql.php:214-222 | with a select list of distinct names, every row has exactly those keys in select order |
| DbfRecords.TextIgnoresType | bcs44-dbf-candidates-to-array-and-sql.php:102-115 | in the text-only converters a field decodes the same whatever its declared type |
| DbfRecords.CurrencyExample | statistics-dbf-conversion/general-bcs/bcs44-dbf-preli-passed-file-conversion.php:129-131 | the stored value 250000 decodes to the amount 25, an integer because 10000 divides it |
| RowMapping.FilterRow | bcs44-dbf-candidates-to-array-and-sql.php:214-220 | the filter loop builds exactly the filtered row |
| RowMapping.FilterEntriesKeys | bcs44-dbf-candidates-to-array-and-sql.php:214-220 | the filter assigns the selected names, in order |
| RowMapping.FilterShape | bcs44-dbf-candidates-to-array-and-sql.php:214-220 | with distinct selected names the filtered row has exactly them as keys, each holding the source field or null |
| RowMapping.FilterGet | bcs44-dbf-candidates-to-array-and-sql.php:214-220 | a selected name reads the source field or null, and any other name is absent |
| RowMapping.MapRow | bcs44-dbf-candidates-to-array-and-sql.php:240-246 | the inner loop builds exactly the mapped row |
| RowMapping.MapFieldsAll | bcs44-dbf-candidates-to-array-and-sql.php:233-252 | `map_fields` returns exactly the mapped rows |
| RowMapping.MapShape | bcs44-dbf-candidates-to-array-and-sql.php:240-246 | with distinct targets a mapped row has the targets as keys in map order, each holding its source field or null |
| RowMapping.SimpleField | dbf-post-options-to-array-and-sql.php:114-121 | one field of `map_fields_simple`: the trimmed value, null when empty or "0", made an integer for `cadre_code` |
| RowMapping.MapSimpleRow | dbf-post-options-to-array-and-sql.php:110-124 | the inner loop builds exactly the simple-mapped row, and with distinct targets its keys are the targets in map order |
| RowMapping.MapFieldsSimple | dbf-post-options-to-array-and-sql.php:108-126 | `map_fields_simple` returns exactly the mapped rows, and with distinct targets every row's keys are the targets in map order |
| RowMapping.MapSimpleShape | dbf-post-options-to-array-and-sql.php:110-123 | with distinct targets a simple-mapped row has the targets as keys in map order, each holding the trimmed, nullified or cast value of its source |
| RowMapping.SimpleValueShape | dbf-post-options-to-array-and-sql.php:114-121 | a value is null exactly when its trimmed source is "" or "0"; `cadre_code` is otherwise the integer of the text, and any other target the trimmed text |
| RowMapping.SimpleCadreCode | dbf-post-options-to-array-and-sql.php:117-118 | a non-zero integer written as text comes back as that integer in `cadre_code` |
| RowMapping.FanOutRow | dbf-post-options-to-array-and-sql.php:137-144 | the fan-out loops build exactly the row of all target assignments |
| RowMapping.FixNumericRow | dbf-post-options-to-array-and-sql.php:155-164 | the fix-up loop builds exactly the fixed row |
| RowMapping.MultiRow | dbf-post-options-to-array-and-sql.php:135-166 | one row of `map_fields_multi`: fan-out, then the numeric fix-up; when the targets are distinct and include the numeric fields, its keys are all targets in map order |
| RowMapping.MapFieldsMulti | dbf-post-options-to-array-and-sql.php:129-170 | `map_fields_multi` returns exactly the mapped rows, and under the same condition every row's keys are all targets in map order |
| RowMapping.FanOutKeys | dbf-post-options-to-array-and-sql.php:137-144 | the fan-out assigns every target of every entry, in map order and in each entry's listed order |
| RowMapping.FixNumericKeys | dbf-post-options-to-array-and-sql.php:155-164 | when every numeric field is already a key, the fix-up keeps the keys and their order |
| RowMapping.MapMultiKeys | dbf-post-options-to-array-and-sql.php:135-166 | with distinct targets that include the numeric fields, a multi-mapped row's keys are all targets in map order |
| RowMapping.NumericFixIdempotent | dbf-post-options-to-array-and-sql.php:157-163 | fixing a count twice is fixing it once |
| RowMapping.FixNumericGet | dbf-post-options-to-array-and-sql.php:155-164 | every numeric field reads its fixed value (0 when empty, the integer otherwise) and every other field is unchanged |
| RowMapping.FanOutGet | dbf-post-options-to-array-and-sql.php:137-144 | a target reads the trimmed value of the last source mapped to it, and is absent when no source names it |
| RowMapping.FanOutLast | dbf-post-options-to-array-and-sql.php:137-144 | the last assignment to a target is the trimmed value of the last source naming it |
| RowMapping.SameSourceSameValue | dbf-post-options-to-array-and-sql.php:137-165 | two numeric targets fed by the same source hold the same fixed value |
| TechCadres.Run | bcs44-dbf-candidates-to-array-and-sql.php:145 | a character-class run stays within the string |
| TechCadres.RunSpec | bcs44-dbf-candidates-to-array-and-sql.php:145 | a run is made of class characters and stops before the next non-class character |
| TechCadres.RunExact | bcs44-dbf-candidates-to-array-and-sql.php:145 | a maximal stretch of class characters is exactly the run |
| TechCadres.Greedy | bcs44-dbf-candidates-to-array-and-sql.php:145 | a greedy match of the pattern starts at its start position and its group boundaries are in order within the string |
| TechCadres.GreedySound | bcs44-dbf-candidates-to-array-and-sql.php:145 | every greedy match spans the pattern: letters, spaces, `(`, spaces, digits, spaces, `)` |
| TechCadres.TechPatternDeterministic | bcs44-dbf-candidates-to-array-and-sql.php:145 | in the cadre pattern each element begins outside the class of the repetition before it |
| TechCadres.GreedyComplete | bcs44-dbf-candidates-to-array-and-sql.php:145 | for such a pattern every span is the greedy match at its start, so greedy matching misses no match |
| TechCadres.FirstMatch | bcs44-dbf-candidates-to-array-and-sql.php:145 | the leftmost match's boundaries are in order within the string |
| TechCadres.FirstMatchSpec | bcs44-dbf-candidates-to-array-and-sql.php:145 | `preg_match` finds the leftmost start position at which the pattern matches, and reports no match only when no position matches |
| TechCadres.FirstMatchAt | bcs44-dbf-candidates-to-array-and-sql.php:145 | the first matching position after only failures is the match found |
| TechCadres.ParseTech | bcs44-dbf-candidates-to-array-and-sql.php:133-152 | the piece loop builds exactly the code-to-number map of the cadre text |
| TechCadres.GroupsOfMatch | bcs44-dbf-candidates-to-array-and-sql.php:145-148 | group 1 needs no trimming and group 2 is a non-empty digit string that needs no trimming |
| TechCadres.PieceEntryOfMatch | bcs44-dbf-candidates-to-array-and-sql.php:145-149 | a matching piece contributes its upper-cased code with the decimal value of its digits |
| TechCadres.TechMapGet | bcs44-dbf-candidates-to-array-and-sql.php:140-150 | a code reads the number of the last piece with that code |
| TechCadres.TechMapDistinct | bcs44-dbf-candidates-to-array-and-sql.php:149 | the cadre map holds each code once |
| TechCadres.TechJsonShape | bcs44-dbf-candidates-to-array-and-sql.php:154-165 | the cadre JSON is an object, and "{}" exactly when no piece matched |
| TechCadres.PlainFirstMatch | bcs44-dbf-candidates-to-array-and-sql.php:145 | a piece of the form code(digits) with optional leading spaces matches at its code |
| TechCadres.PlainPiece | bcs44-dbf-candidates-to-array-and-sql.php:145-149 | such a piece gives its upper-cased code and its number |
| TechCadres.PieceOfBounds | bcs44-dbf-candidates-to-array-and-sql.php:145-149 | a piece whose leftmost match has known bounds gives that code and number |
| TechCadres.PlainHasNoComma | bcs44-dbf-candidates-to-array-and-sql.php:140 | such a piece holds no comma, so `explode` leaves it whole |
| TechCadres.PieceEntriesTwo | bcs44-dbf-candidates-to-array-and-sql.php:142-151 | two pieces contribute their codes in order |
| TechCadres.JsonOfTwo | bcs44-dbf-candidates-to-array-and-sql.php:164 | the JSON of two codes lists both pairs in order |
| TechCadres.TwoPiecesSplit | bcs44-dbf-candidates-to-array-and-sql.php:137-140 | two comma-free pieces joined by a comma are not empty and split back into the two pieces |
| TechCadres.TwoPieces | bcs44-dbf-candidates-to-array-and-sql.php:132-165 | `ABC(5), xyz(12)` style text gives both codes, upper-cased, with their numbers, as a two-pair JSON object |
| TechCadres.NoLetterNoMatch | bcs44-dbf-candidates-to-array-and-sql.php:145 | a piece with no letter contributes no code |
| TechCadres.NoCodesGiveEmptyObject | bcs44-dbf-candidates-to-array-and-sql.php:137-165 | comma-free text without letters is stored as `{}` |
| TechCadres.EmptyAndUnmatchedExamples | bcs44-dbf-candidates-to-array-and-sql.php:137-165 | the empty text and `???` are both stored as `{}` |
| Candidates.QuotaJsonRoundTrip | bcs44-dbf-candidates-to-array-and-sql.php:122-130 | the three quota flags read back from their JSON |
| Candidates.QuotaJsonInjective | bcs44-dbf-candidates-to-array-and-sql.php:130 | different quota flags give different JSON |
| Candidates.QuotaAbsent | bcs44-dbf-candidates-to-array-and-sql.php:118-126 | with no flag fields set, no quota applies |
| Candidates.FlagOfDigits | bcs44-dbf-candidates-to-array-and-sql.php:118-120 | a flag field of digits counts as their decimal value |
| Candidates.HasQuotaIff | bcs44-dbf-candidates-to-array-and-sql.php:123-128 | `has_quota` holds exactly when the freedom-fighter status is 2 or 3, or the tribal or disability flag is 1 |
| Candidates.UpperIdempotent | bcs44-dbf-candidates-to-array-and-sql.php:168 | upper-casing twice is upper-casing once |
| Candidates.UpperTrimmedIsTrimmed | bcs44-dbf-candidates-to-array-and-sql.php:168 | upper-casing a trimmed category leaves it trimmed |
| Candidates.NormalCodeIsTrimmedUpper | bcs44-dbf-candidates-to-array-and-sql.php:171-179 | the replacement codes TT and GG are upper-case and trimmed |
| Candidates.CategoryIdempotent | bcs44-dbf-candidates-to-array-and-sql.php:167-181 | normalising a category twice is normalising it once |
| Candidates.CategoryIsNormal | bcs44-dbf-candidates-to-array-and-sql.php:167-181 | a normalised category is never T or GN and is trimmed and upper-case |
| Candidates.MeritBlankIsZero | bcs44-dbf-candidates-to-array-and-sql.php:188 | an empty merit position is cast to 0 |
| Candidates.MeritCastIdempotent | bcs44-dbf-candidates-to-array-and-sql.php:188-200 | casting a merit position twice is casting it once |
| Candidates.MeritCastOther | bcs44-dbf-candidates-to-array-and-sql.php:188-200 | the merit cast of a field ignores assignments to other fields |
| Candidates.MeritRuleGet | bcs44-dbf-candidates-to-array-and-sql.php:184-201 | a GG candidate has no technical merit position and a TT candidate no general one; the other positions are cast to integers, or null when unset; other fields are unchanged |
| Candidates.GenderIdempotent | bcs44-dbf-candidates-to-array-and-sql.php:203-212 | mapping a gender twice is mapping it once |
| Candidates.GenderNames | bcs44-dbf-candidates-to-array-and-sql.php:203-212 | exactly the codes 1, 2 and 3 are renamed, to three different names |
| Candidates.GenderAbsent | bcs44-dbf-candidates-to-array-and-sql.php:210-212 | a missing gender becomes the empty string |
| Candidates.QuotaStageGet | bcs44-dbf-candidates-to-array-and-sql.php:117-130 | the quota block writes `has_quota` and `quota_info` and no other field |
| Candidates.TechStageGet | bcs44-dbf-candidates-to-array-and-sql.php:132-165 | the cadre block replaces `ALLM_TECH` by the JSON of its code map, reading "{}" when absent; no other field changes |
| Candidates.CategoryStageGet | bcs44-dbf-candidates-to-array-and-sql.php:167-201 | the category block writes the normalised category and the two merit positions and no other field |
| Candidates.GenderStageGet | bcs44-dbf-candidates-to-array-and-sql.php:203-212 | the gender block writes the gender name and no other field |
| Candidates.SameField | bcs44-dbf-candidates-to-array-and-sql.php:118-210 | rules that read a field see the same value in two rows that agree on it |
| Candidates.FrontKeeps | bcs44-dbf-candidates-to-array-and-sql.php:117-165 | the quota and cadre blocks leave every other field alone |
| Candidates.TechReadsInput | bcs44-dbf-candidates-to-array-and-sql.php:133 | the cadre block reads the `ALLM_TECH` value of the decoded record |
| Candidates.CategoryReadsInput | bcs44-dbf-candidates-to-array-and-sql.php:167-201 | the category and merit blocks read the decoded record's fields |
| Candidates.GenderReadsInput | bcs44-dbf-candidates-to-array-and-sql.php:210 | the gender block reads the decoded record's gender |
| Candidates.CandidateRulesGet | bcs44-dbf-candidates-to-array-and-sql.php:117-212 | after all rules each field holds its rule's outcome, computed from the decoded record |
| Candidates.RuleOutcomeSome | bcs44-dbf-candidates-to-array-and-sql.php:117-212 | a field is present after the rules exactly when it was decoded or a rule writes it |
| Candidates.CandidateRulesKeys | bcs44-dbf-candidates-to-array-and-sql.php:117-212 | the rules add exactly the fields they write to the decoded keys |
| Candidates.ApplyCandidateRules | bcs44-dbf-candidates-to-array-and-sql.php:117-212 | the rule blocks, run in order, give exactly the rule outcome |
| Candidates.CategoryExamples | bcs44-dbf-candidates-to-array-and-sql.php:168-181 | "t" becomes TT, "gn" becomes GG and "GT" stays GT |
| Candidates.GenderExamples | bcs44-dbf-candidates-to-array-and-sql.php:203-212 | "2" becomes Female and the unknown code "9" stays "9" |
| Candidates.QuotaExample | bcs44-dbf-candidates-to-array-and-sql.php:118-130 | freedom-fighter status 3 with the other flags 0 gives `has_quota` and `{"CFF":true,"EM":false,"PHC":false}` |
| Candidates.MeritExample | bcs44-dbf-candidates-to-array-and-sql.php:184-189 | a GG candidate with positions "7" and "3" gets general position 7 and no technical position |
| Statistics.CenturyWindow | statistics-dbf-conversion/general-bcs/bcs44-dbf-preli-passed-file-conversion.php:282 | two-digit years 00-29 map to 2000-2029 and 30-99 to 1930-1999, keeping the last two digits; every year in 1930-2029 is recovered from its last two digits |
| Statistics.Zeros | statistics-dbf-conversion/general-bcs/bcs44-dbf-preli-passed-file-conversion.php:289 | zero padding is made of zeros |
| Statistics.Two | statistics-dbf-conversion/general-bcs/bcs44-dbf-preli-passed-file-conversion.php:289 | two-digit padding gives two digits |
| Statistics.ZeroPadTwo | statistics-dbf-conversion/general-bcs/bcs44-dbf-preli-passed-file-conversion.php:289 | `%02d` of a number below 100 is its two digits |
| Statistics.ZeroPadFour | statistics-dbf-conversion/general-bcs/bcs44-dbf-preli-passed-file-conversion.php:289 | `%04d` of a four-digit year is its decimal text |
| Statistics.IsoShape | statistics-dbf-conversion/general-bcs/bcs44-dbf-preli-passed-file-conversion.php:289 | the output date is ten characters with dashes at positions 4 and 7 |
| Statistics.Ddmmyy | statistics-dbf-conversion/general-bcs/bcs44-dbf-preli-passed-file-conversion.php:271-277 | the DDMMYY text of a date is six digits |
| Statistics.DdmmyyParts | statistics-dbf-conversion/general-bcs/bcs44-dbf-preli-passed-file-conversion.php:275-277 | the six digits split into day, month and year pairs |
| Statistics.DdmmyyDecode | statistics-dbf-conversion/general-bcs/bcs44-dbf-preli-passed-file-conversion.php:266-291 | DDMMYY text gives the ISO date in the century window when it is a valid date, and null otherwise |
| Statistics.DateRoundTrip | statistics-dbf-conversion/general-bcs/bcs44-dbf-preli-passed-file-conversion.php:266-291 | every valid date from 1930 to 2029 written as DDMMYY converts back to itself in ISO form |
| Statistics.DdmmyyShape | statistics-dbf-conversion/general-bcs/bcs44-dbf-preli-passed-file-conversion.php:268-271 | anything but six digits after trimming gives null, and every result is a ten-character date with dashes at 4 and 7 |
| Statistics.TextShape | statistics-dbf-conversion/general-bcs/bcs44-dbf-preli-passed-file-conversion.php:266-291 | the text conversion gives only ten-character dates with dashes at 4 and 7 |
| Statistics.ThirtiethOfFebruary | statistics-dbf-conversion/general-bcs/bcs44-dbf-preli-passed-file-conversion.php:285 | 300200 is rejected by `checkdate` |
| Statistics.EpochDate | statistics-dbf-conversion/general-bcs/bcs44-dbf-preli-passed-file-conversion.php:266-291 | 010170 converts to 1970-01-01 |
| Statistics.LastDateOfCentury | statistics-dbf-conversion/general-bcs/bcs44-dbf-preli-passed-file-conversion.php:266-291 | 311299 converts to 1999-12-31 |
| Statistics.CastValueIdempotent | statistics-dbf-conversion/general-bcs/bcs44-dbf-preli-passed-file-conversion.php:319-328 | casting a field twice is casting it once, and the result is an integer or null |
| Statistics.CastRow | statistics-dbf-conversion/general-bcs/bcs44-dbf-preli-passed-file-conversion.php:318-329 | the inner cast loop builds exactly the cast row |
| Statistics.CastFieldsGet | statistics-dbf-conversion/general-bcs/bcs44-dbf-preli-passed-file-conversion.php:317-330 | every listed field becomes its integer cast, or null when missing, empty or not numeric; other fields are unchanged |
| Statistics.DobRuleGet | statistics-dbf-conversion/general-bcs/bcs44-dbf-preli-passed-file-conversion.php:335-342 | `dob` becomes the ISO form of `dob_ddmmyyyy`, or null when that is empty or invalid; other fields are unchanged |
| Statistics.DobShape | statistics-dbf-conversion/general-bcs/bcs44-dbf-preli-passed-file-conversion.php:335-342 | `dob` is null or a ten-character date with dashes at 4 and 7 |
| Statistics.CadreRuleGet | statistics-dbf-conversion/general-bcs/bcs44-dbf-preli-passed-file-conversion.php:347-362 | `cadre_category` is derived from `cadre_type`; other fields are unchanged |
| Statistics.CadreCategoryInverse | statistics-dbf-conversion/general-bcs/bcs44-dbf-preli-passed-file-conversion.php:349-361 | a category is set only for the integer types 1, 2 and 3, and different types give different categories |
| Statistics.CastAll | statistics-dbf-conversion/general-bcs/bcs44-dbf-preli-passed-file-conversion.php:317-330 | the cast loop casts every row |
| Statistics.DobAll | statistics-dbf-conversion/general-bcs/bcs44-dbf-preli-passed-file-conversion.php:335-342 | the date loop converts every row |
| Statistics.CadreAll | statistics-dbf-conversion/general-bcs/bcs44-dbf-preli-passed-file-conversion.php:347-362 | the category loop sets every row's category |
| Statistics.PostProcessAll | statistics-dbf-conversion/general-bcs/bcs44-dbf-preli-passed-file-conversion.php:317-362 | the three loops, run in order, post-process every row |
| Statistics.PostProcessGet | statistics-dbf-conversion/general-bcs/bcs44-dbf-preli-passed-file-conversion.php:317-362 | after the three loops each field holds its cast, converted or derived value, the category reading the cast `cadre_type` |
| Statistics.CastFieldsKeys | statistics-dbf-conversion/general-bcs/bcs44-dbf-preli-passed-file-conversion.php:317-330 | when every cast field is already a column, the cast loop keeps the columns and their order unchanged |
| Statistics.PostProcessKeys | statistics-dbf-conversion/general-bcs/bcs44-dbf-preli-passed-file-conversion.php:317-362 | when the cast fields, `dob` and `cadre_category` are columns, the three loops add, drop and move no column |
| Sql.SqlValues | statistics-dbf-conversion/bcs48-dbf-select-all-file-conversion.php:164-166 | one SQL value per row value |
| Sql.ExpectedAll | statistics-dbf-conversion/bcs48-dbf-select-all-file-conversion.php:164-166 | one expected field per row value |
| Sql.TokenEnd | statistics-dbf-conversion/general-bcs/bcs44-dbf-preli-passed-file-conversion.php:192 | a bare token ends within the text |
| Sql.ReadField | statistics-dbf-conversion/general-bcs/bcs44-dbf-preli-passed-file-conversion.php:191-193 | reading a field never grows the text left over |
| Sql.TokenEndOf | statistics-dbf-conversion/general-bcs/bcs44-dbf-preli-passed-file-conversion.php:192 | a bare token runs to the first comma or parenthesis |
| Sql.DigitsPlain | statistics-dbf-conversion/general-bcs/bcs44-dbf-preli-passed-file-conversion.php:192 | a digit string holds no delimiter |
| Sql.IntTextPlain | statistics-dbf-conversion/general-bcs/bcs44-dbf-preli-passed-file-conversion.php:192 | an integer's text is a non-empty bare token that reads neither as NULL nor as a quoted text |
| Sql.RealTextPlain | statistics-dbf-conversion/general-bcs/bcs44-dbf-preli-passed-file-conversion.php:192 | a float's text is a non-empty bare token that reads neither as NULL nor as a quoted text |
| Sql.NullRoundTrip | statistics-dbf-conversion/bcs48-dbf-select-all-file-conversion.php:165 | `NULL` reads back as null |
| Sql.BareRoundTrip | statistics-dbf-conversion/general-bcs/bcs44-dbf-preli-passed-file-conversion.php:192 | a bare number reads back as that exact text |
| Sql.QuotedRoundTrip | statistics-dbf-conversion/bcs48-dbf-select-all-file-conversion.php:165 | a quoted escaped text reads back as the original text |
| Sql.ReadFieldRoundTrip | statistics-dbf-conversion/general-bcs/bcs44-dbf-preli-passed-file-conversion.php:190-194 | every value's SQL text reads back as null, its exact quoted text or its exact bare number |
| Sql.ReadFieldsRoundTrip | statistics-dbf-conversion/general-bcs/bcs44-dbf-preli-passed-file-conversion.php:190-196 | every VALUES list reads back value by value, in order |
| Sql.GenerateSqlInserts | statistics-dbf-conversion/bcs48-dbf-select-all-file-conversion.php:156-173 | the insert loop returns exactly one INSERT per row, concatenated |
| Sql.InsertsAppend | statistics-dbf-conversion/bcs48-dbf-select-all-file-conversion.php:160-169 | the inserts of two row lists are the inserts of each, concatenated |
| Sql.InsertsOne | statistics-dbf-conversion/bcs48-dbf-select-all-file-conversion.php:160-169 | the inserts of one row are its single INSERT |
| Sql.InsertRowReadsBack | statistics-dbf-conversion/bcs48-dbf-select-all-file-conversion.php:162-168 | an INSERT names the row's keys as columns and its VALUES list reads back to the row's values in order |
| Sql.Column | statistics-dbf-conversion/general-bcs/bcs44-dbf-preli-passed-file-conversion.php:220-222 | one value per column of the first row, null when the row lacks it |
| Sql.Tuples | statistics-dbf-conversion/general-bcs/bcs44-dbf-preli-passed-file-conversion.php:215-234 | one tuple per row |
| Sql.ChunksFlatten | statistics-dbf-conversion/general-bcs/bcs44-dbf-preli-passed-file-conversion.php:233-250 | the batches, in order, hold every tuple exactly once; each batch holds 1 to batch-size tuples and all but the last are full |
| Sql.ChunkCount | statistics-dbf-conversion/general-bcs/bcs44-dbf-preli-passed-file-conversion.php:236-250 | there are ceiling(rows / batch size) statements |
| Sql.ChunksAppend | statistics-dbf-conversion/general-bcs/bcs44-dbf-preli-passed-file-conversion.php:236-241 | full batches followed by the rest are the batches of the whole |
| Sql.TupleOf | statistics-dbf-conversion/general-bcs/bcs44-dbf-preli-passed-file-conversion.php:218-233 | the value loop builds exactly the tuple of the row |
| Sql.GenerateSqlInsertsBatch | statistics-dbf-conversion/general-bcs/bcs44-dbf-preli-passed-file-conversion.php:204-253 | the batch writer returns "" for no rows, the modulo-by-zero error for batch size 0, and otherwise one statement per batch of the tuples, using the first row's columns |
| Sql.BatchShape | statistics-dbf-conversion/general-bcs/bcs44-dbf-preli-passed-file-conversion.php:204-253 | the batched SQL is one statement per batch of at most the batch size, the batches covering every row's tuple once in order, and ceiling(rows / batch size) of them |
| Sql.TupleReadsBack | statistics-dbf-conversion/general-bcs/bcs44-dbf-preli-passed-file-conversion.php:218-233 | a tuple opens with a parenthesis and its values read back in column order, integers and floats bare |
| Scripts.PostProcessRows | statistics-dbf-conversion/general-bcs/bcs44-dbf-preli-passed-file-conversion.php:317-362 | one post-processed row per mapped row |
| Scripts.RunPreli | statistics-dbf-conversion/general-bcs/bcs44-dbf-preli-passed-file-conversion.php:296-371 | the preli run is parse, map, the three loops, then batched SQL of 1000 rows |
| Scripts.PreliIntFieldsApart | statistics-dbf-conversion/general-bcs/bcs44-dbf-preli-passed-file-conversion.php:307-314 | the cast list includes `cadre_type` but none of the fields the date and category loops write or read |
| Scripts.PreliRowShape | statistics-dbf-conversion/general-bcs/bcs44-dbf-preli-passed-file-conversion.php:317-362 | every preli row has a category of null, GG, TT or GT, and a `dob` that is null or a ten-character ISO date |
| Scripts.PreliTargets | statistics-dbf-conversion/general-bcs/bcs44-dbf-preli-passed-file-conversion.php:28-41 | the preli map names its twelve columns once each, in the order user_id, reg, name, gender, dob, dob_ddmmyyyy, district_code, b_subject, g_inst_code, g_inst_name, cadre_category, cadre_type |
| Scripts.PreliColumns | statistics-dbf-conversion/general-bcs/bcs44-dbf-preli-passed-file-conversion.php:296-362 | every exported preli row has exactly the twelve mapped columns, in map order |
| Scripts.PreliSucceeds | statistics-dbf-conversion/general-bcs/bcs44-dbf-preli-passed-file-conversion.php:296-371 | when the file parses, the preli run succeeds and writes SQL for exactly the post-processed rows: nothing for no rows, otherwise one INSERT per 1000 rows and one for the remainder, covering every row once in order |
| Scripts.PreliSql | statistics-dbf-conversion/general-bcs/bcs44-dbf-preli-passed-file-conversion.php:204-253 | the writer with batch size 1000 gives ceiling(rows / 1000) INSERTs with the first row's columns, whose tuples are the rows in order |
| Scripts.RunPlain | bcs44-dbf-candidates-to-array-and-sql.php:284-306 | the quote-all runs are parse, map, then one INSERT per row |
| Scripts.PlainRowShape | bcs44-dbf-candidates-to-array-and-sql.php:292-295 | with distinct targets every exported row has exactly the targets as columns, in map order |
| Scripts.CandidatesTargets | bcs44-dbf-candidates-to-array-and-sql.php:30-45 | the thirteen candidate columns are distinct |
| Scripts.CandidatesColumns | bcs44-dbf-candidates-to-array-and-sql.php:284-306 | every exported candidate row has the thirteen mapped columns in map order; the quota flag fields are not exported |
| Scripts.RegistrationsTargets | statistics-dbf-conversion/bcs48-dbf-select-all-file-conversion.php:27-42 | the fourteen registration columns are distinct |
| Scripts.RegistrationsColumns | statistics-dbf-conversion/bcs48-dbf-select-all-file-conversion.php:185-207 | every exported registration row has the fourteen mapped columns in map order |
| Scripts.CadreListTargets | result-dbf-conversion/dbf-to-cadre-and-post-list.php:12-18 | the cadre-list columns are code, type, abbreviation, name and post count, each once |
| Scripts.CadreListColumns | result-dbf-conversion/dbf-to-cadre-and-post-list.php:127-145 | every exported cadre-list row has those five columns in that order |
| Scripts.RunPostOptions | dbf-post-options-to-array-and-sql.php:193-217 | one parse feeds the simple map for cadres and the multi map for posts, and each gets one INSERT per row |
| Scripts.SourceOfAt | dbf-post-options-to-array-and-sql.php:24-31 | a target's source is the last map entry that names it |
| Scripts.PostsEntry | dbf-post-options-to-array-and-sql.php:24-31 | each count pair of the posts map is fed by one source field and named by no later entry |
| Scripts.PostsSources | dbf-post-options-to-array-and-sql.php:24-31 | each posts count and its `_left` copy are numeric and read the same source field |
| Scripts.PostsLeftEqualsTotal | dbf-post-options-to-array-and-sql.php:24-31 | in every posts row each `_left` count equals its count, and both are integers |
| Scripts.CadresTargets | dbf-post-options-to-array-and-sql.php:17-22 | the cadres columns are cadre_code, cadre_abbr, cadre_name and cadre_type, each once |
| Scripts.CadresColumns | dbf-post-options-to-array-and-sql.php:200-206 | every cadres row, and so every cadres INSERT, has those four columns in that order |
| Scripts.PostsTargets | dbf-post-options-to-array-and-sql.php:24-31 | the posts columns are cadre_code, then each count followed by its `_left` twin, each once, and every numeric field is one of them |
| Scripts.PostsColumns | dbf-post-options-to-array-and-sql.php:203-207 | every posts row, and so every posts INSERT, has those eleven columns in that order |
| Scripts.PostsCadreCode | dbf-post-options-to-array-and-sql.php:139-164 | in a posts row `cadre_code` is the trimmed text of OPT_CODE, never cast to int |

## Left out

- File access, `echo`, `file_put_contents` and the try/catch wrappers: the file is a byte sequence and the output is returned as values. A missing or unreadable file is not modelled.
- `write_php_array_file` (`var_export` snapshots): the mapped rows are returned instead of being printed.
- The three context scripts `candidates-array-to-sql.php`, `result-dbf-conversion/posts-array-to-sql.php` and `cadre-list-array-to-sql.php` are not part of this model. They include data files that are not available.
- `iconv` is an opaque function parameter: the CP1252 tables and `//IGNORE` are outside the model.
- DbfRecords.TypedValue: `unpack("q")` is read as little-endian. PHP uses the machine's byte order.
- Php.RealText: a currency float is printed as its exact decimal value, which is what PHP prints when the amount has at most 14 significant digits (`|scaled| < 10^14`). `implode` converts floats with the `precision` setting, 14 significant digits by default, so larger amounts are rounded (100000000000001 scaled prints as `10000000000`), and from 1.0E+14 on (`|scaled| >= 10^18`) PHP uses exponent notation. Neither the rounding nor the exponent form is modelled.
- Php.StrToInt: `(int)` is modelled for leading whitespace, an optional sign, and digits with a fraction after them. Exponent and hexadecimal forms are not modelled, and neither is saturation at the 64-bit limits.
- Php.IsNumericText: `is_numeric` is modelled for optionally signed decimal numbers with optional surrounding whitespace. Exponent forms are not modelled.
- Sql.InsertsBatch: a negative batch size is modelled through its absolute value, because PHP's `%` takes the sign of the count. A batch size of 0 is modelled as the modulo-by-zero error.
- TechCadres.TwoPieces: the literal `ABC(5), XYZ(12)` is not unrolled; the two-code case is proved for any two pieces of that form.
- The candidates converter writes `ALLM_TECH` twice: a JSON encoding, then `{}` or the same encoding again. The model writes the final value once.
- `dbf_fields.php` uses the header length and the decimal count only for output; the model lists name, type, length and decimals and leaves the printing out.
- PHP turns array keys that look like integers into integer keys. The field and column names here are never such strings, so keys are modelled as text.
