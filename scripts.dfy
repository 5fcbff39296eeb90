// The converters' run blocks: each script's configuration and the order in
// which it chains the parser, the mappers, the post-processing and the SQL
// generator. Writing the files and echoing progress are not modelled; a run
// yields what would be written, or the error that aborts it before any SQL is
// written: both are PHP `Error`s, which the scripts' `catch (Exception $e)`
// does not catch.

module Scripts {
  import opened Bytes
  import opened Text
  import opened Php
  import opened PhpArrays
  import opened RowMapping
  import opened DbfRecords
  import opened Statistics
  import opened Sql

  /** What a run writes: the SQL text and the rows exported as a PHP array. */
  datatype Written = Written(sql: string, rows: seq<Row>)

  const Cp1252 := "CP1252"

  // ---------------------------------------------------------------------------
  // Preliminary-results converter: typed decoding, post-processing, batch SQL.

  const PreliTable := "preli_passed_44"

  const PreliSelect: seq<string> :=
    ["USER", "REG", "NAME", "SEX", "DOB", "B_DATE", "DIST_CODE",
     "B_SUBJECT", "GINS_CODE", "GINS_NAME", "CAT", "CADRE_TYPE"]

  const PreliMap: FieldMap :=
    [("USER", "user_id"), ("REG", "reg"), ("NAME", "name"), ("SEX", "gender"),
     ("DOB", "dob"), ("B_DATE", "dob_ddmmyyyy"), ("DIST_CODE", "district_code"),
     ("B_SUBJECT", "b_subject"), ("GINS_CODE", "g_inst_code"), ("GINS_NAME", "g_inst_name"),
     ("CAT", "cadre_category"), ("CADRE_TYPE", "cadre_type")]

  /** The fields cast to int after mapping. */
  const PreliIntFields: seq<string> :=
    ["reg", "gender", "district_code", "b_subject", "g_inst_code", "cadre_type"]

  const PreliBatch := 1000

  function PreliConfig(iconv: Iconv): Config
  {
    Config(Typed, Cp1252, iconv, NoRules, Some(PreliSelect))
  }

  /** The post-processing loops over every mapped row. */
  function PostProcessRows(mapped: seq<Row>, intFields: seq<string>): (out: seq<Row>)
    ensures |out| == |mapped|
  {
    seq(|mapped|, k requires 0 <= k < |mapped| => PostProcess(mapped[k], intFields))
  }

  function PreliRows(raw: seq<Row>): seq<Row>
  {
    PostProcessRows(MapAll(raw, PreliMap), PreliIntFields)
  }

  function Preli(file: seq<byte>, iconv: Iconv): Result<Written>
  {
    match ParseDbf(file, PreliConfig(iconv))
    case Err(e) => Err(e)
    case Ok(raw) =>
      var rows := PreliRows(raw);
      match InsertsBatch(PreliTable, rows, PreliBatch)
      case Err(e) => Err(e)
      case Ok(sql) => Ok(Written(sql, rows))
  }

  method RunPreli(file: seq<byte>, iconv: Iconv) returns (res: Result<Written>)
    ensures res == Preli(file, iconv)
  {
    var parsed := ParseDbfFile(file, PreliConfig(iconv));
    if parsed.Err? {
      return Err(parsed.error);
    }
    var mapped := MapFieldsAll(parsed.value, PreliMap);
    var rows := PostProcessAll(mapped, PreliIntFields);
    assert rows == PreliRows(parsed.value);
    var sql := GenerateSqlInsertsBatch(PreliTable, rows, PreliBatch);
    if sql.Err? {
      return Err(sql.error);
    }
    res := Ok(Written(sql.value, rows));
  }

  /** The cast list leaves the three fields the later loops write alone. */
  lemma PreliIntFieldsApart()
    ensures "dob" !in PreliIntFields && "cadre_category" !in PreliIntFields
    ensures "dob_ddmmyyyy" !in PreliIntFields && "cadre_type" in PreliIntFields
  {
    assert PreliIntFields[5] == "cadre_type";
  }

  /** Every exported row holds a category that is null or one of GG, TT, GT,
      and a date of birth that is null or shaped `YYYY-MM-DD`. */
  lemma PreliRowShape(raw: seq<Row>, row: Row)
    requires row in PreliRows(raw)
    ensures Lookup(row, "cadre_category") in {Null, Str("GG"), Str("TT"), Str("GT")}
    ensures var dob := Lookup(row, "dob");
      dob == Null || (dob.Str? && |dob.s| == 10 && dob.s[4] == '-' && dob.s[7] == '-')
  {
    var mapped := MapAll(raw, PreliMap);
    var k :| 0 <= k < |mapped| && PostProcessRows(mapped, PreliIntFields)[k] == row;
    PreliIntFieldsApart();
    PostProcessGet(mapped[k], PreliIntFields, "cadre_category");
    PostProcessGet(mapped[k], PreliIntFields, "dob");
    DdmmyyShape(Lookup(mapped[k], "dob_ddmmyyyy"));
  }

  /** The preli map names each column once. */
  lemma PreliTargets()
    ensures Targets(PreliMap) ==
      ["user_id", "reg", "name", "gender", "dob", "dob_ddmmyyyy", "district_code",
       "b_subject", "g_inst_code", "g_inst_name", "cadre_category", "cadre_type"]
    ensures Distinct(Targets(PreliMap))
  {
    var ts := Targets(PreliMap);
    assert ts == ["user_id", "reg", "name", "gender", "dob", "dob_ddmmyyyy", "district_code",
       "b_subject", "g_inst_code", "g_inst_name", "cadre_category", "cadre_type"];
    var sigs := [484713, 223077, 290157, 421477, 221807, 811641, 881508, 619363, 747876, 747885, 943218, 681072];
    assert Distinct(sigs);
    DistinctSigs(ts, sigs);
  }

  /** Every exported preli row has the twelve mapped columns in map order: the
      post-processing loops only overwrite columns the map already made. */
  lemma PreliColumns(raw: seq<Row>, row: Row)
    requires row in PreliRows(raw)
    ensures Keys(row) == Targets(PreliMap)
  {
    var mapped := MapAll(raw, PreliMap);
    var k :| 0 <= k < |mapped| && PostProcessRows(mapped, PreliIntFields)[k] == row;
    PreliTargets();
    MapShape(raw[k], PreliMap);
    assert forall f :: f in PreliIntFields ==> f in Targets(PreliMap);
    PostProcessKeys(mapped[k], PreliIntFields);
  }

  /** The batch size is positive, so the run fails only when parsing does, and
      the SQL holds one statement per 1000 rows and one for the remainder, each
      with the first row's columns, covering every row once in order. */
  lemma PreliSucceeds(file: seq<byte>, iconv: Iconv)
    requires ParseDbf(file, PreliConfig(iconv)).Ok?
    ensures Preli(file, iconv).Ok?
    ensures Preli(file, iconv).value.rows == PreliRows(ParseDbf(file, PreliConfig(iconv)).value)
    ensures var rows := PreliRows(ParseDbf(file, PreliConfig(iconv)).value);
      rows == [] ==> Preli(file, iconv).value.sql == ""
    ensures var rows := PreliRows(ParseDbf(file, PreliConfig(iconv)).value);
      rows != [] ==>
        var cols := Keys(rows[0]);
        var cs := Chunks(Tuples(cols, rows), 1000);
        && Preli(file, iconv).value.sql == Statements(PreliTable, ColumnList(cols), cs)
        && Flatten(cs) == Tuples(cols, rows)
        && |cs| == (|rows| + 999) / 1000
  {
    var rows := PreliRows(ParseDbf(file, PreliConfig(iconv)).value);
    PreliSql(rows);
  }

  /** The preli writer with its batch size of 1000. */
  lemma PreliSql(rows: seq<Row>)
    ensures rows == [] ==> InsertsBatch(PreliTable, rows, PreliBatch) == Ok("")
    ensures rows != [] ==>
      var cols := Keys(rows[0]);
      var cs := Chunks(Tuples(cols, rows), 1000);
      && InsertsBatch(PreliTable, rows, PreliBatch) == Ok(Statements(PreliTable, ColumnList(cols), cs))
      && Flatten(cs) == Tuples(cols, rows)
      && |cs| == (|rows| + 999) / 1000
  {
    assert BatchSize(PreliBatch) == 1000;
    BatchShape(PreliTable, rows, PreliBatch);
  }

  // ---------------------------------------------------------------------------
  // Candidates converter: text decoding, the candidate rules, quote-all SQL.

  const CandidatesTable := "candidates"

  const CandidatesSelect: seq<string> :=
    ["USER", "REG", "NAME", "CAT", "DISTRICT", "SEX",
     "MERIT_GEN", "MERIT_TECH", "ALLM_TECH", "FF_STATUS", "TRIBAL", "PHC", "APASS_CODE", "TPASS_CODE",
     "has_quota", "quota_info"]

  const CandidatesMap: FieldMap :=
    [("USER", "user_id"), ("REG", "reg"), ("NAME", "name"), ("CAT", "cadre_category"),
     ("DISTRICT", "district"), ("SEX", "gender"), ("MERIT_GEN", "general_merit_position"),
     ("MERIT_TECH", "technical_merit_position"), ("ALLM_TECH", "technical_passed_cadres"),
     ("APASS_CODE", "choice_list"), ("TPASS_CODE", "choice_list_tech"),
     ("has_quota", "has_quota"), ("quota_info", "quota_info")]

  function CandidatesConfig(iconv: Iconv): Config
  {
    Config(TextOnly, Cp1252, iconv, CandidateRuleSet, Some(CandidatesSelect))
  }

  /** The quote-all converters: parse, rename, one INSERT per row. */
  function Plain(file: seq<byte>, cfg: Config, m: FieldMap, table: string): Result<Written>
  {
    match ParseDbf(file, cfg)
    case Err(e) => Err(e)
    case Ok(raw) =>
      var rows := MapAll(raw, m);
      Ok(Written(Inserts(QuoteAll, table, rows), rows))
  }

  method RunPlain(file: seq<byte>, cfg: Config, m: FieldMap, table: string) returns (res: Result<Written>)
    ensures res == Plain(file, cfg, m, table)
  {
    var parsed := ParseDbfFile(file, cfg);
    if parsed.Err? {
      return Err(parsed.error);
    }
    var rows := MapFieldsAll(parsed.value, m);
    var sql := GenerateSqlInserts(QuoteAll, table, rows);
    res := Ok(Written(sql, rows));
  }

  function CandidatesRun(file: seq<byte>, iconv: Iconv): Result<Written>
  {
    Plain(file, CandidatesConfig(iconv), CandidatesMap, CandidatesTable)
  }

  /** With distinct targets, each exported row holds exactly the renamed
      fields, in map order. */
  lemma PlainRowShape(file: seq<byte>, cfg: Config, m: FieldMap, table: string, row: Row)
    requires Distinct(Targets(m)) && Plain(file, cfg, m, table).Ok?
    requires row in Plain(file, cfg, m, table).value.rows
    ensures Keys(row) == Targets(m)
  {
    var raw := ParseDbf(file, cfg).value;
    var k :| 0 <= k < |raw| && MapAll(raw, m)[k] == row;
    MapShape(raw[k], m);
  }

  /** Names of different lengths are distinct. */
  lemma DistinctLengths(s: seq<string>, lens: seq<nat>)
    requires |lens| == |s| && forall i :: 0 <= i < |s| ==> |s[i]| == lens[i]
    requires Distinct(lens)
    ensures Distinct(s)
  {
    forall i, j | 0 <= i < j < |s| ensures s[i] != s[j] {
      assert lens[i] != lens[j];
    }
  }

  /** The candidates map names each column once. */
  lemma CandidatesTargets()
    ensures |Targets(CandidatesMap)| == 13 && Distinct(Targets(CandidatesMap))
  {
    DistinctLengths(Targets(CandidatesMap), [7, 3, 4, 14, 8, 6, 22, 24, 23, 11, 16, 9, 10]);
  }

  /** Every exported candidate row has the thirteen mapped columns in map
      order, so the quota flags read for the rules are not exported. */
  lemma CandidatesColumns(file: seq<byte>, iconv: Iconv, row: Row)
    requires CandidatesRun(file, iconv).Ok? && row in CandidatesRun(file, iconv).value.rows
    ensures Keys(row) == Targets(CandidatesMap) && |Keys(row)| == 13
  {
    CandidatesTargets();
    PlainRowShape(file, CandidatesConfig(iconv), CandidatesMap, CandidatesTable, row);
  }

  // ---------------------------------------------------------------------------
  // Registrations converter: text decoding, no rules, quote-all SQL.

  const RegistrationsTable := "registrations"

  const RegistrationsSelect: seq<string> :=
    ["USER", "REG", "NAME", "SEX", "DOB", "B_DATE", "DIST_CODE", "DIST_NAME",
     "B_SUBJECT", "G_INSTITUT", "G_INSTITU2", "G_YEAR", "DIV_CODE", "DIV_NAME"]

  const RegistrationsMap: FieldMap :=
    [("USER", "user_id"), ("REG", "reg"), ("NAME", "name"), ("SEX", "gender"),
     ("DOB", "dob"), ("B_DATE", "dob_ddmmyyyy"), ("DIST_CODE", "district_code"),
     ("DIST_NAME", "district_name"), ("B_SUBJECT", "b_subject"), ("G_INSTITUT", "g_inst_code"),
     ("G_INSTITU2", "g_inst_name"), ("G_YEAR", "graduation_year"), ("DIV_CODE", "division_code"),
     ("DIV_NAME", "division_name")]

  function RegistrationsRun(file: seq<byte>, iconv: Iconv): Result<Written>
  {
    Plain(file, Config(TextOnly, Cp1252, iconv, NoRules, Some(RegistrationsSelect)),
          RegistrationsMap, RegistrationsTable)
  }

  /** Every exported registration row has the fourteen mapped columns in map
      order. */
  lemma RegistrationsColumns(file: seq<byte>, iconv: Iconv, row: Row)
    requires RegistrationsRun(file, iconv).Ok? && row in RegistrationsRun(file, iconv).value.rows
    ensures Keys(row) == Targets(RegistrationsMap) && |Keys(row)| == 14
  {
    RegistrationsTargets();
    PlainRowShape(file, Config(TextOnly, Cp1252, iconv, NoRules, Some(RegistrationsSelect)),
                  RegistrationsMap, RegistrationsTable, row);
  }

  /** The registrations map names each column once. */
  lemma RegistrationsTargets()
    ensures |Targets(RegistrationsMap)| == 14 && Distinct(Targets(RegistrationsMap))
  {
    var ts := Targets(RegistrationsMap);
    assert ts == ["user_id", "reg", "name", "gender", "dob", "dob_ddmmyyyy", "district_code",
                  "district_name", "b_subject", "g_inst_code", "g_inst_name", "graduation_year",
                  "division_code", "division_name"];
    var sigs := [484713, 223077, 290157, 421477, 221807, 811641, 881508, 881517, 619363, 747876, 747885, 1007969, 882276, 882285];
    assert Distinct(sigs);
    DistinctSigs(ts, sigs);
  }

  /** Names that differ in length, third character or last but one are distinct. */
  lemma DistinctSigs(s: seq<string>, sigs: seq<int>)
    requires |sigs| == |s|
    requires forall i :: 0 <= i < |s| ==>
      |s[i]| >= 3 && sigs[i] == |s[i]| * 65536 + s[i][2] as int * 256 + s[i][|s[i]| - 2] as int
    requires Distinct(sigs)
    ensures Distinct(s)
  {
    forall i, j | 0 <= i < j < |s| ensures s[i] != s[j] {
      assert sigs[i] != sigs[j];
    }
  }

  // ---------------------------------------------------------------------------
  // Cadre list converter: text decoding, no rules, quote-all SQL.

  const CadreListTable := "cadres"

  const CadreListSelect: seq<string> := ["OPT_CODE", "OPT_DESC", "CADRE", "POST_NO", "P_NAME"]

  const CadreListMap: FieldMap :=
    [("OPT_CODE", "cadre_code"), ("CADRE", "cadre_type"), ("OPT_DESC", "cadre_abbr"),
     ("P_NAME", "cadre_name"), ("POST_NO", "total_post")]

  function CadreListRun(file: seq<byte>, iconv: Iconv): Result<Written>
  {
    Plain(file, Config(TextOnly, Cp1252, iconv, NoRules, Some(CadreListSelect)),
          CadreListMap, CadreListTable)
  }

  /** The columns follow the map, not the select list or the file: the type
      comes second, before the abbreviation. */
  lemma CadreListColumns(file: seq<byte>, iconv: Iconv, row: Row)
    requires CadreListRun(file, iconv).Ok? && row in CadreListRun(file, iconv).value.rows
    ensures Keys(row) == ["cadre_code", "cadre_type", "cadre_abbr", "cadre_name", "total_post"]
  {
    CadreListTargets();
    PlainRowShape(file, Config(TextOnly, Cp1252, iconv, NoRules, Some(CadreListSelect)),
                  CadreListMap, CadreListTable, row);
  }

  /** The map's targets, in its order, each once. */
  lemma CadreListTargets()
    ensures Targets(CadreListMap) == ["cadre_code", "cadre_type", "cadre_abbr", "cadre_name", "total_post"]
    ensures Distinct(Targets(CadreListMap))
  {
    var ts := Targets(CadreListMap);
    assert ts == ["cadre_code", "cadre_type", "cadre_abbr", "cadre_name", "total_post"];
    DistinctAt(ts, 6, ['c', 't', 'a', 'n', 'p']);
  }

  /** Names that differ at one position are distinct. */
  lemma DistinctAt(s: seq<string>, p: nat, marks: seq<char>)
    requires |marks| == |s| && forall i :: 0 <= i < |s| ==> p < |s[i]| && s[i][p] == marks[i]
    requires Distinct(marks)
    ensures Distinct(s)
  {
    forall i, j | 0 <= i < j < |s| ensures s[i] != s[j] {
      assert marks[i] != marks[j];
    }
  }

  // ---------------------------------------------------------------------------
  // Post options converter: one parse, two tables.

  const CadresTable := "cadres"
  const PostsTable := "posts"

  const CadresMap: FieldMap :=
    [("OPT_CODE", "cadre_code"), ("OPT_DESC", "cadre_abbr"), ("P_NAME", "cadre_name"),
     ("CADRE", "cadre_type")]

  const PostsMap: MultiMap :=
    [("OPT_CODE", ["cadre_code"]), ("POST_NO", ["total_post", "total_post_left"]),
     ("MERIT", ["mq_post", "mq_post_left"]), ("FF_QUOTA", ["cff_post", "cff_post_left"]),
     ("EM_QUOTA", ["em_post", "em_post_left"]), ("PHC_QUOTA", ["phc_post", "phc_post_left"])]

  const PostsNumeric: seq<string> :=
    ["total_post", "total_post_left", "mq_post", "mq_post_left", "cff_post", "cff_post_left",
     "em_post", "em_post_left", "phc_post", "phc_post_left"]

  /** Each count of the posts table with the file field it is read from. */
  const PostsPairs: seq<(string, string)> :=
    [("total_post", "POST_NO"), ("mq_post", "MERIT"), ("cff_post", "FF_QUOTA"),
     ("em_post", "EM_QUOTA"), ("phc_post", "PHC_QUOTA")]

  /** Every field of the file, no rules: this script reads without a select list. */
  function PostOptionsConfig(iconv: Iconv): Config
  {
    Config(TextOnly, Cp1252, iconv, NoRules, None)
  }

  /** The cadres output, then the posts output. */
  function PostOptions(file: seq<byte>, iconv: Iconv): Result<(Written, Written)>
  {
    match ParseDbf(file, PostOptionsConfig(iconv))
    case Err(e) => Err(e)
    case Ok(raw) =>
      var cadres := MapSimpleAll(raw, CadresMap);
      var posts := MapMultiAll(raw, PostsMap, PostsNumeric);
      Ok((Written(Inserts(QuoteAll, CadresTable, cadres), cadres),
          Written(Inserts(QuoteAll, PostsTable, posts), posts)))
  }

  method RunPostOptions(file: seq<byte>, iconv: Iconv) returns (res: Result<(Written, Written)>)
    ensures res == PostOptions(file, iconv)
  {
    var parsed := ParseDbfFile(file, PostOptionsConfig(iconv));
    if parsed.Err? {
      return Err(parsed.error);
    }
    var cadres := MapFieldsSimple(parsed.value, CadresMap);
    var posts := MapFieldsMulti(parsed.value, PostsMap, PostsNumeric);
    var cadresSql := GenerateSqlInserts(QuoteAll, CadresTable, cadres);
    var postsSql := GenerateSqlInserts(QuoteAll, PostsTable, posts);
    res := Ok((Written(cadresSql, cadres), Written(postsSql, posts)));
  }

  /** The last entry listing a target is the one it is read from. */
  lemma {:induction false} SourceOfAt(mm: MultiMap, i: nat, t: string)
    requires i < |mm| && t in mm[i].1
    requires forall j :: i < j < |mm| ==> t !in mm[j].1
    ensures SourceOf(mm, t) == Some(mm[i].0)
  {
    if i < |mm| - 1 {
      SourceOfAt(mm[..|mm| - 1], i, t);
    }
  }

  /** A count and its `_left` twin both come from entry `i + 1` alone: the
      names of the later entries start with other letters. */
  lemma PostsEntry(i: nat)
    requires i < |PostsPairs|
    ensures PostsMap[i + 1] == (PostsPairs[i].1, [PostsPairs[i].0, PostsPairs[i].0 + "_left"])
    ensures forall j :: i + 1 < j < |PostsMap| ==>
      forall y :: y in PostsMap[j].1 ==> y[0] != PostsPairs[i].0[0]
  {
    var names := ["total_post_left", "mq_post_left", "cff_post_left", "em_post_left", "phc_post_left"];
    assert PostsPairs[i].0 + "_left" == names[i];
  }

  /** A count and its `_left` twin come from the same source field. */
  lemma PostsSources(x: string, src: string)
    requires (x, src) in PostsPairs
    ensures x in PostsNumeric && x + "_left" in PostsNumeric
    ensures SourceOf(PostsMap, x) == SourceOf(PostsMap, x + "_left") == Some(src)
  {
    var i :| 0 <= i < |PostsPairs| && PostsPairs[i] == (x, src);
    PostsEntry(i);
    SourceOfAt(PostsMap, i + 1, x);
    SourceOfAt(PostsMap, i + 1, x + "_left");
  }

  /** In every posts row a count equals its `_left` twin, and both are ints. */
  lemma PostsLeftEqualsTotal(raw: seq<Row>, row: Row, x: string, src: string)
    requires row in MapMultiAll(raw, PostsMap, PostsNumeric)
    requires (x, src) in PostsPairs
    ensures Get(row, x) == Get(row, x + "_left")
    ensures Get(row, x).Some? && Get(row, x).value.Int?
  {
    var out := MapMultiAll(raw, PostsMap, PostsNumeric);
    var k :| 0 <= k < |raw| && out[k] == row;
    PostsSources(x, src);
    SameSourceSameValue(raw[k], PostsMap, PostsNumeric, x, x + "_left");
  }

  /** The cadres map names each column once: they differ at position 6. */
  lemma CadresTargets()
    ensures Targets(CadresMap) == ["cadre_code", "cadre_abbr", "cadre_name", "cadre_type"]
    ensures Distinct(Targets(CadresMap))
  {
    var ts := Targets(CadresMap);
    assert ts == ["cadre_code", "cadre_abbr", "cadre_name", "cadre_type"];
    DistinctAt(ts, 6, ['c', 'a', 'n', 't']);
  }

  /** Every cadres row has the four columns in `$field_map_cadres` order, which
      are the columns of the cadres INSERTs. */
  lemma CadresColumns(file: seq<byte>, iconv: Iconv, row: Row)
    requires PostOptions(file, iconv).Ok? && row in PostOptions(file, iconv).value.0.rows
    ensures Keys(row) == ["cadre_code", "cadre_abbr", "cadre_name", "cadre_type"]
  {
    var raw := ParseDbf(file, PostOptionsConfig(iconv)).value;
    var out := MapSimpleAll(raw, CadresMap);
    var k :| 0 <= k < |out| && out[k] == row;
    CadresTargets();
    MapSimpleShape(raw[k], CadresMap);
  }

  /** The eleven posts columns, in the order the fan-out assigns them. */
  const PostsColumnNames: seq<string> :=
    ["cadre_code", "total_post", "total_post_left", "mq_post", "mq_post_left", "cff_post",
     "cff_post_left", "em_post", "em_post_left", "phc_post", "phc_post_left"]

  /** Names that differ in length or first character are distinct. */
  lemma DistinctHeads(s: seq<string>, sigs: seq<int>)
    requires |sigs| == |s|
    requires forall i :: 0 <= i < |s| ==> |s[i]| >= 1 && sigs[i] == |s[i]| * 256 + s[i][0] as int
    requires Distinct(sigs)
    ensures Distinct(s)
  {
    forall i, j | 0 <= i < j < |s| ensures s[i] != s[j] {
      assert sigs[i] != sigs[j];
    }
  }

  /** The fan-out assigns cadre_code, then each count and its `_left` twin. */
  lemma PostsAllTargets()
    ensures AllTargets(PostsMap) == PostsColumnNames
  {
    var mm := PostsMap;
    assert mm[..0] == [] && mm[..6] == mm;
    AllTargetsNext(mm, 0);
    AllTargetsNext(mm, 1);
    AllTargetsNext(mm, 2);
    AllTargetsNext(mm, 3);
    AllTargetsNext(mm, 4);
    AllTargetsNext(mm, 5);
    assert AllTargets(mm) == [] + mm[0].1 + mm[1].1 + mm[2].1 + mm[3].1 + mm[4].1 + mm[5].1;
  }

  lemma PostsColumnsDistinct()
    ensures Distinct(PostsColumnNames)
  {
    var sigs := [2659, 2676, 3956, 1901, 3181, 2147, 3427, 1893, 3173, 2160, 3440];
    assert Distinct(sigs);
    DistinctHeads(PostsColumnNames, sigs);
  }

  /** The posts map gives each column once and lists every count among them. */
  lemma PostsTargets()
    ensures AllTargets(PostsMap) == PostsColumnNames
    ensures MultiColumns(PostsMap, PostsNumeric)
  {
    PostsAllTargets();
    PostsColumnsDistinct();
    assert PostsNumeric == PostsColumnNames[1..];
  }

  /** Every posts row has the eleven columns in fan-out order, which are the
      columns of the posts INSERTs. */
  lemma PostsColumns(file: seq<byte>, iconv: Iconv, row: Row)
    requires PostOptions(file, iconv).Ok? && row in PostOptions(file, iconv).value.1.rows
    ensures Keys(row) == PostsColumnNames
  {
    var raw := ParseDbf(file, PostOptionsConfig(iconv)).value;
    var out := MapMultiAll(raw, PostsMap, PostsNumeric);
    var k :| 0 <= k < |out| && out[k] == row;
    PostsTargets();
    MapMultiKeys(raw[k], PostsMap, PostsNumeric);
  }

  /** In a posts row `cadre_code` is not a count: it stays the trimmed text of
      `OPT_CODE` (the cadres table casts it to int instead). */
  lemma PostsCadreCode(raw: seq<Row>, k: nat)
    requires k < |raw|
    ensures Get(MapMultiAll(raw, PostsMap, PostsNumeric)[k], "cadre_code") ==
      Some(Str(Trim(ToText(Coalesce(raw[k], "OPT_CODE", Str(""))))))
  {
    PostsTargets();
    assert "cadre_code" !in PostsNumeric by {
      assert PostsNumeric == PostsColumnNames[1..];
      assert forall i :: 1 <= i < |PostsColumnNames| ==> PostsColumnNames[i] != PostsColumnNames[0];
    }
    assert forall j :: 0 < j < |PostsMap| ==> "cadre_code" !in PostsMap[j].1 by {
      forall j | 0 < j < |PostsMap| ensures "cadre_code" !in PostsMap[j].1 {
        assert forall y :: y in PostsMap[j].1 ==> y[0] != 'c' || |y| != 10;
      }
    }
    SourceOfAt(PostsMap, 0, "cadre_code");
    FixNumericGet(Build(FanOut(raw[k], PostsMap)), PostsNumeric, "cadre_code");
    FanOutGet(raw[k], PostsMap, "cadre_code");
  }
}
