/** The SQL writers: `generate_sql_inserts` (one INSERT per row, columns taken from
    each row) in its quote-everything and its typed variant, and
    `generate_sql_inserts_batch` (multi-row INSERTs of at most `batchSize` rows,
    columns taken from the first row). A small reader of VALUES lists is the
    partner that shows every value comes back, in order. */
module Sql {
  import opened Bytes
  import opened Text
  import opened Php

  // ---------------------------------------------------------------------------
  // Values.

  /** QuoteAll: every non-null value is quoted (the converters of candidates,
      posts, bcs48 and the cadre list). QuoteText: integers and floats are
      written bare (the preli converter). */
  datatype Quoting = QuoteAll | QuoteText

  /** One SQL value: null is `NULL`; a bare number is its PHP text; anything
      else is its text in single quotes with each quote doubled. */
  function SqlValue(q: Quoting, v: Value): string
  {
    if v == Null then "NULL"
    else if q == QuoteText && (v.Int? || v.Real?) then ToText(v)
    else "'" + Escape(ToText(v)) + "'"
  }

  function SqlValues(q: Quoting, vs: seq<Value>): (r: seq<string>)
    ensures |r| == |vs|
  {
    seq(|vs|, i requires 0 <= i < |vs| => SqlValue(q, vs[i]))
  }

  /** "`a`,`b`,`c`". */
  function ColumnList(cols: seq<string>): string
  {
    "`" + Join(cols, "`,`") + "`"
  }

  // ---------------------------------------------------------------------------
  // Reading a VALUES list back.

  /** What a value reads back as: NULL, a quoted text, or a bare token. */
  datatype SqlField = SqlNull | Quoted(text: string) | Bare(text: string)

  /** The field a value is meant to come back as: null stays null, and every
      other value keeps its PHP text exactly. */
  function Expected(q: Quoting, v: Value): SqlField
  {
    if v == Null then SqlNull
    else if q == QuoteText && (v.Int? || v.Real?) then Bare(ToText(v))
    else Quoted(ToText(v))
  }

  function ExpectedAll(q: Quoting, vs: seq<Value>): (r: seq<SqlField>)
    ensures |r| == |vs|
  {
    seq(|vs|, i requires 0 <= i < |vs| => Expected(q, vs[i]))
  }

  predicate IsDelimiter(c: char) { c == ',' || c == ')' }

  /** A text with no `,` and no `)`. */
  predicate Plain(s: string) { forall k :: 0 <= k < |s| ==> !IsDelimiter(s[k]) }

  /** Length of the bare token at the front: up to the first `,` or `)`. */
  function TokenEnd(t: string): (n: nat)
    ensures n <= |t|
  {
    if t == [] || IsDelimiter(t[0]) then 0 else 1 + TokenEnd(t[1..])
  }

  /** Reads one value at the front of `t`; gives it and what follows. */
  function ReadField(t: string): (r: Option<(SqlField, string)>)
    ensures r.Some? ==> |r.value.1| <= |t|
  {
    if |t| >= 4 && t[..4] == "NULL" then Some((SqlNull, t[4..]))
    else if t != [] && t[0] == '\'' then
      match ReadQuotedBody(t[1..])
      case None => None
      case Some(p) => Some((Quoted(p.0), p.1))
    else
      var n := TokenEnd(t);
      Some((Bare(t[..n]), t[n..]))
  }

  /** Reads a comma-separated list of values closed by `)`; gives the values
      and what follows the `)`. */
  function ReadFields(t: string): Option<(seq<SqlField>, string)>
    decreases |t|
  {
    match ReadField(t)
    case None => None
    case Some(p) =>
      if p.1 != [] && p.1[0] == ')' then Some(([p.0], p.1[1..]))
      else if p.1 != [] && p.1[0] == ',' then
        match ReadFields(p.1[1..])
        case None => None
        case Some(p2) => Some(([p.0] + p2.0, p2.1))
      else None
  }

  lemma {:induction false} TokenEndOf(a: string, rest: string)
    requires Plain(a) && (rest == [] || IsDelimiter(rest[0]))
    ensures TokenEnd(a + rest) == |a|
  {
    if a == [] {
      assert a + rest == rest;
    } else {
      assert (a + rest)[1..] == a[1..] + rest;
      assert (a + rest)[0] == a[0];
      TokenEndOf(a[1..], rest);
    }
  }

  lemma DigitsPlain(s: string)
    requires AllDigits(s)
    ensures Plain(s)
  {
    assert forall k :: 0 <= k < |s| ==> IsDigit(s[k]);
  }

  lemma IntTextPlain(i: int)
    ensures var s := IntToDecimal(i); Plain(s) && s != [] && s[0] != 'N' && s[0] != '\''
  {
    var m := if i < 0 then -i else i;
    NatToDecimalDigits(m);
    DigitsPlain(NatToDecimal(m));
  }

  lemma RealTextPlain(sc: int)
    ensures var s := RealText(sc); Plain(s) && s != [] && s[0] != 'N' && s[0] != '\''
  {
    var a := if sc < 0 then -sc else sc;
    var p := Pad4(a % 10000);
    var frac := RTrim(p, "0");
    RTrimSpec(p, "0");
    assert AllDigits(p);
    assert AllDigits(frac) by {
      forall k | 0 <= k < |frac| ensures IsDigit(frac[k]) {
        assert frac[k] == p[k];
      }
    }
    NatToDecimalDigits(a / 10000);
    DigitsPlain(NatToDecimal(a / 10000));
    DigitsPlain(frac);
  }

  lemma NullRoundTrip(rest: string)
    ensures ReadField("NULL" + rest) == Some((SqlNull, rest))
  {
    var t := "NULL" + rest;
    assert t[..4] == "NULL" && t[4..] == rest;
  }

  lemma BareRoundTrip(x: string, rest: string)
    requires Plain(x) && x != [] && x[0] != 'N' && x[0] != '\''
    requires rest == [] || IsDelimiter(rest[0])
    ensures ReadField(x + rest) == Some((Bare(x), rest))
  {
    var t := x + rest;
    assert t[0] == x[0];
    TokenEndOf(x, rest);
    assert t[..|x|] == x && t[|x|..] == rest;
  }

  lemma QuotedRoundTrip(s: string, rest: string)
    requires rest == [] || IsDelimiter(rest[0])
    ensures ReadField("'" + Escape(s) + "'" + rest) == Some((Quoted(s), rest))
  {
    var t := "'" + Escape(s) + "'" + rest;
    assert t[0] == '\'';
    assert t[1..] == Escape(s) + "'" + rest;
    EscapeRoundTrip(s, rest);
  }

  /** Under either quoting, one value written and read back is the field it is
      meant to be, and reading stops right after it. */
  lemma ReadFieldRoundTrip(q: Quoting, v: Value, rest: string)
    requires rest == [] || IsDelimiter(rest[0])
    ensures ReadField(SqlValue(q, v) + rest) == Some((Expected(q, v), rest))
  {
    if v == Null {
      NullRoundTrip(rest);
    } else if q == QuoteText && v.Int? {
      IntTextPlain(v.i);
      BareRoundTrip(ToText(v), rest);
    } else if q == QuoteText && v.Real? {
      RealTextPlain(v.scaled);
      BareRoundTrip(ToText(v), rest);
    } else {
      QuotedRoundTrip(ToText(v), rest);
    }
  }

  lemma ReadFieldsLast(t: string, f: SqlField, rest: string)
    requires ReadField(t) == Some((f, ")" + rest))
    ensures ReadFields(t) == Some(([f], rest))
  {
    assert (")" + rest)[1..] == rest;
  }

  lemma ReadFieldsCons(t: string, f: SqlField, u: string, fs: seq<SqlField>, rest: string)
    requires ReadField(t) == Some((f, "," + u))
    requires ReadFields(u) == Some((fs, rest))
    ensures ReadFields(t) == Some(([f] + fs, rest))
  {
    assert ("," + u)[1..] == u;
  }

  lemma JoinFront(parts: seq<string>, rest: string)
    requires |parts| > 1
    ensures Join(parts, ",") + ")" + rest == parts[0] + ("," + (Join(parts[1..], ",") + ")" + rest))
  {
    assert Join(parts, ",") == parts[0] + "," + Join(parts[1..], ",");
    Regroup(parts[0], ",", Join(parts[1..], ","), ")", rest);
  }

  lemma Regroup(a: string, b: string, c: string, d: string, e: string)
    ensures a + b + c + d + e == a + (b + (c + d + e))
  {
  }

  lemma ReadFieldsSingle(q: Quoting, vs: seq<Value>, rest: string)
    requires |vs| == 1
    ensures ReadFields(Join(SqlValues(q, vs), ",") + ")" + rest) == Some((ExpectedAll(q, vs), rest))
  {
    var t := Join(SqlValues(q, vs), ",") + ")" + rest;
    assert t == SqlValue(q, vs[0]) + (")" + rest);
    ReadFieldRoundTrip(q, vs[0], ")" + rest);
    ReadFieldsLast(t, Expected(q, vs[0]), rest);
    assert ExpectedAll(q, vs) == [Expected(q, vs[0])];
  }

  lemma ValuesCons(q: Quoting, vs: seq<Value>)
    requires |vs| > 1
    ensures SqlValues(q, vs)[0] == SqlValue(q, vs[0]) && SqlValues(q, vs)[1..] == SqlValues(q, vs[1..])
    ensures ExpectedAll(q, vs) == [Expected(q, vs[0])] + ExpectedAll(q, vs[1..])
  {
    assert SqlValues(q, vs)[1..] == SqlValues(q, vs[1..]);
    assert ExpectedAll(q, vs) == [Expected(q, vs[0])] + ExpectedAll(q, vs[1..]);
  }

  lemma ReadFieldsStep(q: Quoting, vs: seq<Value>, rest: string)
    requires |vs| > 1
    requires ReadFields(Join(SqlValues(q, vs[1..]), ",") + ")" + rest) == Some((ExpectedAll(q, vs[1..]), rest))
    ensures ReadFields(Join(SqlValues(q, vs), ",") + ")" + rest) == Some((ExpectedAll(q, vs), rest))
  {
    var u := Join(SqlValues(q, vs[1..]), ",") + ")" + rest;
    ValuesCons(q, vs);
    JoinFront(SqlValues(q, vs), rest);
    ReadFieldRoundTrip(q, vs[0], "," + u);
    ReadFieldsCons(SqlValue(q, vs[0]) + ("," + u), Expected(q, vs[0]), u, ExpectedAll(q, vs[1..]), rest);
  }

  /** A VALUES list written with `implode(",", ...)` and closed by `)` reads back
      as exactly the fields its values are meant to be, in order. */
  lemma {:induction false} ReadFieldsRoundTrip(q: Quoting, vs: seq<Value>, rest: string)
    requires |vs| > 0
    ensures ReadFields(Join(SqlValues(q, vs), ",") + ")" + rest) == Some((ExpectedAll(q, vs), rest))
  {
    if |vs| == 1 {
      ReadFieldsSingle(q, vs, rest);
    } else {
      ReadFieldsRoundTrip(q, vs[1..], rest);
      ReadFieldsStep(q, vs, rest);
    }
  }

  // ---------------------------------------------------------------------------
  // `generate_sql_inserts`: one statement per row.

  const InsertInto: string := "INSERT INTO `"

  function InsertHead(table: string, cols: seq<string>): string
  {
    InsertInto + table + "` (" + ColumnList(cols) + ") VALUES ("
  }

  /** The statement of one row: its own keys as columns, its values in order. */
  function InsertRow(q: Quoting, table: string, r: Row): string
  {
    InsertHead(table, Keys(r)) + Join(SqlValues(q, Values(r)), ",") + ");\n"
  }

  /** The texts of all elements, one after the other. */
  function ConcatMap<T>(f: T -> string, xs: seq<T>): string
  {
    if xs == [] then "" else ConcatMap(f, xs[..|xs| - 1]) + f(xs[|xs| - 1])
  }

  lemma {:induction false} ConcatMapAppend<T>(f: T -> string, a: seq<T>, b: seq<T>)
    ensures ConcatMap(f, a + b) == ConcatMap(f, a) + ConcatMap(f, b)
  {
    if b == [] {
      assert a + b == a;
    } else {
      var init := b[..|b| - 1];
      ConcatMapAppend(f, a, init);
      assert (a + b)[..|a + b| - 1] == a + init;
      assert (a + b)[|a + b| - 1] == b[|b| - 1];
    }
  }

  /** The statement writer of one table. */
  function InsertWriter(q: Quoting, table: string): Row -> string
  {
    r => InsertRow(q, table, r)
  }

  /** The statements of all rows, one after the other. */
  function Inserts(q: Quoting, table: string, rows: seq<Row>): string
  {
    ConcatMap(InsertWriter(q, table), rows)
  }

  method GenerateSqlInserts(q: Quoting, table: string, rows: seq<Row>) returns (sql: string)
    ensures sql == Inserts(q, table, rows)
  {
    sql := "";
    var i := 0;
    while i < |rows|
      invariant i <= |rows|
      invariant sql == ConcatMap(InsertWriter(q, table), rows[..i])
    {
      assert rows[..i + 1][..i] == rows[..i];
      var r := rows[i];
      var vals := SqlValues(q, Values(r));
      var stmt := InsertHead(table, Keys(r)) + Join(vals, ",") + ");\n";
      assert stmt == InsertWriter(q, table)(r);
      sql := sql + stmt;
      i := i + 1;
    }
    assert rows[..i] == rows;
  }

  lemma ConcatMapOne<T>(f: T -> string, x: T)
    ensures ConcatMap(f, [x]) == f(x)
  {
    assert [x][..0] == [];
  }

  /** The statements of two row lists are those of the first, then those of the
      second: every row is written once, in order. */
  lemma InsertsAppend(q: Quoting, table: string, a: seq<Row>, b: seq<Row>)
    ensures Inserts(q, table, a + b) == Inserts(q, table, a) + Inserts(q, table, b)
  {
    ConcatMapAppend(InsertWriter(q, table), a, b);
  }

  /** One row, one statement. */
  lemma InsertsOne(q: Quoting, table: string, r: Row)
    ensures Inserts(q, table, [r]) == InsertRow(q, table, r)
  {
    ConcatMapOne(InsertWriter(q, table), r);
  }

  /** A row's statement names its own keys and its VALUES list reads back as
      its values, in order, followed by `;` and a newline. */
  lemma InsertRowReadsBack(q: Quoting, table: string, r: Row)
    requires |r| > 0
    ensures var head := InsertHead(table, Keys(r)); var s := InsertRow(q, table, r);
      |head| <= |s| && s[..|head|] == head &&
      ReadFields(s[|head|..]) == Some((ExpectedAll(q, Values(r)), ";\n"))
  {
    var head := InsertHead(table, Keys(r));
    var body := Join(SqlValues(q, Values(r)), ",");
    var s := InsertRow(q, table, r);
    assert s == head + (body + ")" + ";\n");
    assert s[|head|..] == body + ")" + ";\n";
    ReadFieldsRoundTrip(q, Values(r), ";\n");
  }

  // ---------------------------------------------------------------------------
  // `generate_sql_inserts_batch`.

  /** `$row[$col] ?? null` for every column. */
  function Column(cols: seq<string>, row: Row): (r: seq<Value>)
    ensures |r| == |cols|
  {
    seq(|cols|, i requires 0 <= i < |cols| => Lookup(row, cols[i]))
  }

  /** "(v1,v2,...)" with the typed serialiser. */
  function Tuple(cols: seq<string>, row: Row): string
  {
    "(" + Join(SqlValues(QuoteText, Column(cols, row)), ",") + ")"
  }

  function Tuples(cols: seq<string>, rows: seq<Row>): (r: seq<string>)
    ensures |r| == |rows|
  {
    seq(|rows|, i requires 0 <= i < |rows| => Tuple(cols, rows[i]))
  }

  /** Consecutive groups of n, the last one possibly shorter. */
  function Chunks<T>(t: seq<T>, n: nat): seq<seq<T>>
    requires n > 0
    decreases |t|
  {
    if t == [] then [] else if |t| <= n then [t] else [t[..n]] + Chunks(t[n..], n)
  }

  function Flatten<T>(cs: seq<seq<T>>): seq<T>
  {
    if cs == [] then [] else cs[0] + Flatten(cs[1..])
  }

  /** The chunks put back together are the input; each holds between 1 and n
      elements, and all but the last exactly n. */
  lemma {:induction false} ChunksFlatten<T>(t: seq<T>, n: nat)
    requires n > 0
    ensures Flatten(Chunks(t, n)) == t
    ensures forall j :: 0 <= j < |Chunks(t, n)| ==> 0 < |Chunks(t, n)[j]| <= n
    ensures forall j :: 0 <= j < |Chunks(t, n)| - 1 ==> |Chunks(t, n)[j]| == n
  {
    if t != [] && |t| > n {
      ChunksFlatten(t[n..], n);
      var rest := Chunks(t[n..], n);
      assert Chunks(t, n) == [t[..n]] + rest;
      assert Chunks(t, n)[1..] == rest;
      assert t[..n] + t[n..] == t;
      forall j | 0 < j < |Chunks(t, n)| ensures Chunks(t, n)[j] == rest[j - 1] { }
    } else if t != [] {
      assert Chunks(t, n) == [t];
      assert Flatten([t]) == t + Flatten([]);
    }
  }

  /** There are ⌈|t| / n⌉ chunks. */
  lemma {:induction false} ChunkCount<T>(t: seq<T>, n: nat)
    requires n > 0
    ensures |Chunks(t, n)| == (|t| + n - 1) / n
  {
    if t != [] && |t| > n {
      ChunkCount(t[n..], n);
      var m := |t| - n;
      assert (m + n - 1) + n == |t| + n - 1;
      assert (|t| + n - 1) / n == (m + n - 1) / n + 1 by {
        DivAddOne(m + n - 1, n);
      }
    } else if t != [] {
      assert n <= |t| + n - 1 < 2 * n;
      DivRange(|t| + n - 1, n, 1);
    } else {
      DivRange(n - 1, n, 0);
    }
  }

  lemma DivAddOne(x: nat, n: nat)
    requires n > 0
    ensures (x + n) / n == x / n + 1
  {
    var q, r := x / n, x % n;
    assert x + n == (q + 1) * n + r;
    DivUnique(x + n, n, q + 1, r);
  }

  lemma DivRange(x: nat, n: nat, q: nat)
    requires n > 0 && q * n <= x < (q + 1) * n
    ensures x / n == q
  {
    DivUnique(x, n, q, x - q * n);
  }

  /** Quotient and remainder are the only ones. */
  lemma DivUnique(x: nat, n: nat, q: nat, r: nat)
    requires n > 0 && r < n && x == q * n + r
    ensures x / n == q && x % n == r
  {
    var q2, r2 := x / n, x % n;
    assert x == q2 * n + r2;
    if q2 > q {
      assert q2 * n >= (q + 1) * n by { MulMono(q + 1, q2, n); }
    } else if q2 < q {
      assert q * n >= (q2 + 1) * n by { MulMono(q2 + 1, q, n); }
    }
  }

  lemma MulMono(a: nat, b: nat, n: nat)
    requires a <= b
    ensures a * n <= b * n
  {
  }

  /** Chunking a multiple of n and then the rest is chunking the whole. */
  lemma {:induction false} ChunksAppend<T>(a: seq<T>, b: seq<T>, n: nat)
    requires n > 0 && |a| % n == 0
    ensures Chunks(a + b, n) == Chunks(a, n) + Chunks(b, n)
    decreases |a|
  {
    if a == [] {
      assert a + b == b;
    } else {
      assert |a| >= n;
      if |a| == n {
        assert Chunks(a, n) == [a];
      } else {
        assert Chunks(a, n) == [a[..n]] + Chunks(a[n..], n);
        assert |a[n..]| % n == 0 by { DivAddSelf(|a| - n, n); }
        ChunksAppend(a[n..], b, n);
        assert (a + b)[n..] == a[n..] + b;
      }
      if b != [] {
        assert (a + b)[..n] == a[..n];
      } else {
        assert a + b == a;
      }
    }
  }

  lemma DivAddSelf(x: nat, n: nat)
    requires n > 0 && (x + n) % n == 0
    ensures x % n == 0
  {
    var q, r := x / n, x % n;
    assert x + n == (q + 1) * n + r;
    DivUnique(x + n, n, q + 1, r);
  }

  /** One multi-row statement. */
  function BatchStatement(table: string, colSql: string, batch: seq<string>): string
  {
    InsertInto + table + "` (" + colSql + ") VALUES\n" + Join(batch, ",\n") + ";\n\n"
  }

  function BatchWriter(table: string, colSql: string): seq<string> -> string
  {
    batch => BatchStatement(table, colSql, batch)
  }

  /** The statements of all batches, one after the other. */
  function Statements(table: string, colSql: string, cs: seq<seq<string>>): string
  {
    ConcatMap(BatchWriter(table, colSql), cs)
  }

  /** The rows per statement: PHP's `$count % $batchSize === 0` holds for a
      positive count exactly when |batchSize| divides it. */
  function BatchSize(b: int): nat
  {
    if b < 0 then -b else b
  }

  /** "" for no rows; the modulo-by-zero error for a batch size of 0; otherwise the
      statements of the tuples in groups of |batchSize|, with the first row's keys
      as columns. */
  function InsertsBatch(table: string, rows: seq<Row>, b: int): Result<string>
  {
    if rows == [] then Ok("")
    else if b == 0 then Err(ModuloByZero)
    else
      var cols := Keys(rows[0]);
      Ok(Statements(table, ColumnList(cols), Chunks(Tuples(cols, rows), BatchSize(b))))
  }

  /** The inner loop over the columns. */
  method TupleOf(cols: seq<string>, row: Row) returns (t: string)
    ensures t == Tuple(cols, row)
  {
    var values: seq<string> := [];
    var j := 0;
    while j < |cols|
      invariant j <= |cols|
      invariant values == SqlValues(QuoteText, Column(cols, row))[..j]
    {
      var v := Lookup(row, cols[j]);
      if v == Null {
        values := values + ["NULL"];
      } else if v.Int? || v.Real? {
        values := values + [ToText(v)];
      } else {
        values := values + ["'" + Escape(ToText(v)) + "'"];
      }
      j := j + 1;
    }
    assert values == SqlValues(QuoteText, Column(cols, row));
    t := "(" + Join(values, ",") + ")";
  }

  /** The flush test at a full batch: with `done` a multiple of n and the batch
      holding c - done tuples, count c is a multiple of n exactly when the batch
      is full. */
  lemma FlushPoint(done: nat, c: nat, n: nat)
    requires n > 0 && done % n == 0 && done < c <= done + n
    ensures c % n == 0 <==> c == done + n
  {
    var k := done / n;
    assert done == k * n;
    if c == done + n {
      DivUnique(c, n, k + 1, 0);
    } else {
      DivUnique(c, n, k, c - k * n);
    }
  }

  lemma BatchStep(tuples: seq<string>, done: nat, i: nat, n: nat)
    requires n > 0 && done % n == 0 && done + n == i <= |tuples|
    ensures Chunks(tuples[..i], n) == Chunks(tuples[..done], n) + [tuples[done..i]]
    ensures i % n == 0
  {
    assert tuples[..i] == tuples[..done] + tuples[done..i];
    ChunksAppend(tuples[..done], tuples[done..i], n);
    assert Chunks(tuples[done..i], n) == [tuples[done..i]];
    FlushPoint(done, i, n);
  }

  lemma BatchRest(tuples: seq<string>, done: nat, n: nat)
    requires n > 0 && done % n == 0 && done <= |tuples| < done + n
    ensures Chunks(tuples, n) == Chunks(tuples[..done], n) + (if done == |tuples| then [] else [tuples[done..]])
  {
    assert tuples == tuples[..done] + tuples[done..];
    ChunksAppend(tuples[..done], tuples[done..], n);
  }

  lemma StatementsAppend(table: string, colSql: string, cs: seq<seq<string>>, c: seq<string>)
    ensures Statements(table, colSql, cs + [c]) == Statements(table, colSql, cs) + BatchStatement(table, colSql, c)
  {
    assert (cs + [c])[..|cs|] == cs;
    assert BatchWriter(table, colSql)(c) == BatchStatement(table, colSql, c);
  }

  /** The invariant of the batch loop after one more tuple: the batch is full
      exactly when the count is a multiple of n, and then its statement is the
      next one. */
  lemma BatchAdvance(table: string, colSql: string, tuples: seq<string>, batch: seq<string>,
                     sql: string, done: nat, count: nat, n: nat)
    requires n > 0 && done % n == 0 && done < count <= done + n && count <= |tuples|
    requires batch == tuples[done..count]
    requires sql == Statements(table, colSql, Chunks(tuples[..done], n))
    ensures count % n == 0 ==>
      sql + BatchStatement(table, colSql, batch) == Statements(table, colSql, Chunks(tuples[..count], n))
    ensures count % n == 0 <==> count == done + n
  {
    FlushPoint(done, count, n);
    if count % n == 0 {
      BatchStep(tuples, done, count, n);
      StatementsAppend(table, colSql, Chunks(tuples[..done], n), tuples[done..count]);
    }
  }

  method GenerateSqlInsertsBatch(table: string, rows: seq<Row>, b: int) returns (res: Result<string>)
    ensures res == InsertsBatch(table, rows, b)
  {
    if rows == [] {
      return Ok("");
    }
    var cols := Keys(rows[0]);
    var colSql := ColumnList(cols);
    ghost var tuples := Tuples(cols, rows);
    ghost var n: nat := if b == 0 then 1 else BatchSize(b);
    var sql := "";
    var batch: seq<string> := [];
    var count := 0;
    ghost var done: nat := 0;
    while count < |rows|
      invariant done <= count <= |rows|
      invariant count > 0 ==> b != 0
      invariant batch == tuples[done..count]
      invariant done % n == 0 && count - done < n
      invariant sql == Statements(table, colSql, Chunks(tuples[..done], n))
    {
      var t := TupleOf(cols, rows[count]);
      batch := batch + [t];
      count := count + 1;
      if b == 0 {
        return Err(ModuloByZero);
      }
      assert n == BatchSize(b);
      BatchAdvance(table, colSql, tuples, batch, sql, done, count, n);
      if count % BatchSize(b) == 0 {
        sql := sql + BatchStatement(table, colSql, batch);
        batch := [];
        done := count;
      } else {
        assert count < done + n;
      }
    }
    BatchRest(tuples, done, n);
    assert tuples[..count] == tuples;
    if batch != [] {
      StatementsAppend(table, colSql, Chunks(tuples[..done], n), batch);
      sql := sql + BatchStatement(table, colSql, batch);
    }
    return Ok(sql);
  }

  /** No rows give no text, a zero batch size with rows is an error, and
      otherwise the statements are ⌈n / |batchSize|⌉ groups that hold every
      row's tuple once, in order. */
  lemma BatchShape(table: string, rows: seq<Row>, b: int)
    ensures rows == [] ==> InsertsBatch(table, rows, b) == Ok("")
    ensures rows != [] && b == 0 ==> InsertsBatch(table, rows, b) == Err(ModuloByZero)
    ensures rows != [] && b != 0 ==>
      var cols := Keys(rows[0]);
      var cs := Chunks(Tuples(cols, rows), BatchSize(b));
      && InsertsBatch(table, rows, b) == Ok(Statements(table, ColumnList(cols), cs))
      && Flatten(cs) == Tuples(cols, rows)
      && |cs| == (|rows| + BatchSize(b) - 1) / BatchSize(b)
      && forall j :: 0 <= j < |cs| ==> 0 < |cs[j]| <= BatchSize(b)
  {
    if rows != [] && b != 0 {
      var cols := Keys(rows[0]);
      ChunksFlatten(Tuples(cols, rows), BatchSize(b));
      ChunkCount(Tuples(cols, rows), BatchSize(b));
    }
  }

  /** A tuple reads back as the values of the columns the first row named,
      with NULL for a column the row lacks. */
  lemma TupleReadsBack(cols: seq<string>, row: Row)
    requires |cols| > 0
    ensures var t := Tuple(cols, row);
      t[0] == '(' && ReadFields(t[1..]) == Some((ExpectedAll(QuoteText, Column(cols, row)), ""))
  {
    var body := Join(SqlValues(QuoteText, Column(cols, row)), ",");
    assert Tuple(cols, row)[1..] == body + ")" + "";
    ReadFieldsRoundTrip(QuoteText, Column(cols, row), "");
  }
}
