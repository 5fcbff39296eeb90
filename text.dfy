/** PHP string functions used by the converters, on byte strings: a `string` here is
    a PHP string whose every char stands for one byte. */
module Text {
  import opened Bytes

  /** A byte sequence read with `fread`/`substr`, seen as a PHP string. */
  function BytesToText(b: seq<byte>): string
  {
    seq(|b|, k requires 0 <= k < |b| => b[k] as char)
  }

  /** The characters `trim()` removes by default: space, tab, LF, CR, NUL and
      vertical tab. */
  const PhpWhitespace: string := " \t\n\r\0" + [11 as char]

  /** The padding removed from the right of raw field bytes before transcoding. */
  const FieldPadding: string := "\0 \t\r\n"

  /** The padding removed from the right of a descriptor's 11-byte name. */
  const NamePadding: string := "\0 "

  /** `rtrim($s, $cut)`: the longest prefix of `s` not ending in a `cut` char,
      everything removed being `cut` chars. */
  function RTrim(s: string, cut: string): string
  {
    if s == [] || s[|s| - 1] !in cut then s else RTrim(s[..|s| - 1], cut)
  }

  lemma {:induction false} RTrimSpec(s: string, cut: string)
    ensures var r := RTrim(s, cut);
      && r <= s
      && (r == [] || r[|r| - 1] !in cut)
      && (forall k :: |r| <= k < |s| ==> s[k] in cut)
  {
    if s != [] && s[|s| - 1] in cut {
      RTrimSpec(s[..|s| - 1], cut);
    }
  }

  /** `ltrim($s, $cut)`: the longest suffix of `s` not starting with a `cut` char,
      everything removed being `cut` chars. */
  function LTrim(s: string, cut: string): string
  {
    if s == [] || s[0] !in cut then s else LTrim(s[1..], cut)
  }

  lemma {:induction false} LTrimSpec(s: string, cut: string)
    ensures var r := LTrim(s, cut);
      && |r| <= |s| && r == s[|s| - |r|..]
      && (r == [] || r[0] !in cut)
      && (forall k :: 0 <= k < |s| - |r| ==> s[k] in cut)
  {
    if s != [] && s[0] in cut {
      LTrimSpec(s[1..], cut);
      var r := LTrim(s, cut);
      assert s[1..][|s| - 1 - |r|..] == s[|s| - |r|..];
      forall k | 0 < k < |s| - |r| ensures s[k] in cut {
        assert s[1..][k - 1] == s[k];
      }
    }
  }

  /** `trim($s)` with PHP's default character list. */
  function Trim(s: string): string
  {
    LTrim(RTrim(s, PhpWhitespace), PhpWhitespace)
  }

  /** How many leading chars `trim` removes. */
  function TrimOffset(s: string): nat
  {
    LTrimSpec(RTrim(s, PhpWhitespace), PhpWhitespace);
    |RTrim(s, PhpWhitespace)| - |Trim(s)|
  }

  /** `trim` keeps a contiguous piece of its input, with no whitespace at either
      end, and removes whitespace only. */
  lemma TrimShape(s: string)
    ensures var t, i := Trim(s), TrimOffset(s);
      && i + |t| <= |s| && t == s[i..i + |t|]
      && (forall k :: 0 <= k < i ==> s[k] in PhpWhitespace)
      && (forall k :: i + |t| <= k < |s| ==> s[k] in PhpWhitespace)
      && (t == [] || (t[0] !in PhpWhitespace && t[|t| - 1] !in PhpWhitespace))
  {
    var r := RTrim(s, PhpWhitespace);
    var t := LTrim(r, PhpWhitespace);
    RTrimSpec(s, PhpWhitespace);
    LTrimSpec(r, PhpWhitespace);
    var i := |r| - |t|;
    assert t == s[i..i + |t|];
  }

  /** A string without whitespace at its ends is left alone by `trim`. */
  lemma TrimNoop(s: string)
    requires s == [] || (s[0] !in PhpWhitespace && s[|s| - 1] !in PhpWhitespace)
    ensures Trim(s) == s
  {
  }

  /** Trimming twice is trimming once. */
  lemma TrimIdempotent(s: string)
    ensures Trim(Trim(s)) == Trim(s)
  {
    TrimShape(s);
    TrimNoop(Trim(s));
  }

  predicate IsDigit(c: char) { '0' <= c <= '9' }

  /** The letters matched by `[A-Z]` under the `i` flag. */
  predicate IsLetter(c: char) { 'A' <= c <= 'Z' || 'a' <= c <= 'z' }

  /** `\s` of PCRE in byte mode: space, tab, LF, vertical tab, form feed, CR. */
  predicate IsRegexSpace(c: char) { c == ' ' || 9 <= c as int <= 13 }

  predicate AllDigits(s: string) { forall k :: 0 <= k < |s| ==> IsDigit(s[k]) }

  /** ASCII upper-casing of one char (`strtoupper` is locale-insensitive). */
  function UpperChar(c: char): (u: char)
    ensures 'a' <= c <= 'z' ==> u as int == c as int - 32
    ensures !('a' <= c <= 'z') ==> u == c
  {
    if 'a' <= c <= 'z' then (c as int - 32) as char else c
  }

  /** `strtoupper($s)`. */
  function Upper(s: string): string
  {
    seq(|s|, k requires 0 <= k < |s| => UpperChar(s[k]))
  }

  function DigitChar(d: nat): (c: char)
    requires d < 10
    ensures IsDigit(c) && c as int - '0' as int == d
  {
    ('0' as int + d) as char
  }

  /** Value of a decimal digit string, most significant digit first. */
  function DigitsValue(s: string): int
  {
    if s == [] then 0 else 10 * DigitsValue(s[..|s| - 1]) + (s[|s| - 1] as int - '0' as int)
  }

  /** The decimal text PHP prints for a non-negative integer. */
  function NatToDecimal(n: nat): string
  {
    if n < 10 then [DigitChar(n)] else NatToDecimal(n / 10) + [DigitChar(n % 10)]
  }

  /** PHP prints at least one digit, digits only, and no leading zero. */
  lemma {:induction false} NatToDecimalDigits(n: nat)
    ensures var s := NatToDecimal(n);
      |s| >= 1 && AllDigits(s) && (|s| > 1 ==> s[0] != '0')
  {
    if n >= 10 {
      NatToDecimalDigits(n / 10);
    }
  }

  /** The printed decimal reads back as the same number. */
  lemma {:induction false} DecimalRoundTrip(n: nat)
    ensures DigitsValue(NatToDecimal(n)) == n
  {
    if n >= 10 {
      DecimalRoundTrip(n / 10);
      var s := NatToDecimal(n);
      assert s[..|s| - 1] == NatToDecimal(n / 10);
    }
  }

  /** The decimal text PHP prints for an integer (`(string)$i`, `%d`). */
  function IntToDecimal(i: int): string
  {
    if i < 0 then "-" + NatToDecimal(-i) else NatToDecimal(i)
  }

  /** `str_replace("'", "''", $s)`: every single quote doubled. */
  function Escape(s: string): (r: string)
    ensures |r| >= |s|
  {
    if s == [] then [] else (if s[0] == '\'' then "''" else [s[0]]) + Escape(s[1..])
  }

  /** Reads the body of a single-quoted SQL literal whose opening quote is already
      consumed: `''` stands for one quote, a lone `'` closes the literal. Gives the
      text and what follows the closing quote. */
  function ReadQuotedBody(t: string): (r: Option<(string, string)>)
    ensures r.Some? ==> |r.value.1| < |t|
  {
    if t == [] then None
    else if t[0] == '\'' then
      if |t| >= 2 && t[1] == '\'' then
        match ReadQuotedBody(t[2..])
        case None => None
        case Some(p) => Some(("'" + p.0, p.1))
      else Some(("", t[1..]))
    else
      match ReadQuotedBody(t[1..])
      case None => None
      case Some(p) => Some(([t[0]] + p.0, p.1))
  }

  /** A quoted literal built with `Escape` reads back as exactly the original text,
      and ends where the closing quote is, whatever follows it (unless the next
      thing is another quote, which the converters never write). */
  lemma {:induction false} EscapeRoundTrip(s: string, rest: string)
    requires rest == [] || rest[0] != '\''
    ensures ReadQuotedBody(Escape(s) + "'" + rest) == Some((s, rest))
  {
    if s == [] {
      assert Escape(s) + "'" + rest == "'" + rest;
    } else {
      EscapeRoundTrip(s[1..], rest);
      if s[0] == '\'' {
        EscapeQuoteStep(s, rest);
      } else {
        EscapeCharStep(s, rest);
      }
    }
  }

  /** A doubled quote reads back as one quote. */
  lemma EscapeQuoteStep(s: string, rest: string)
    requires s != [] && s[0] == '\''
    requires ReadQuotedBody(Escape(s[1..]) + "'" + rest) == Some((s[1..], rest))
    ensures ReadQuotedBody(Escape(s) + "'" + rest) == Some((s, rest))
  {
    var t := Escape(s) + "'" + rest;
    var x := Escape(s[1..]) + "'" + rest;
    assert t == "''" + x by {
      assert Escape(s) == "''" + Escape(s[1..]);
    }
    assert t[0] == '\'' && t[1] == '\'' && t[2..] == x;
    assert ReadQuotedBody(t) == Some(("'" + s[1..], rest));
    assert "'" + s[1..] == s;
  }

  /** Any other character reads back as itself. */
  lemma EscapeCharStep(s: string, rest: string)
    requires s != [] && s[0] != '\''
    requires ReadQuotedBody(Escape(s[1..]) + "'" + rest) == Some((s[1..], rest))
    ensures ReadQuotedBody(Escape(s) + "'" + rest) == Some((s, rest))
  {
    var t := Escape(s) + "'" + rest;
    var x := Escape(s[1..]) + "'" + rest;
    assert t == [s[0]] + x by {
      assert Escape(s) == [s[0]] + Escape(s[1..]);
    }
    assert t[0] == s[0] && t[1..] == x;
    assert ReadQuotedBody(t) == Some(([s[0]] + s[1..], rest));
    assert [s[0]] + s[1..] == s;
  }

  /** `implode($sep, $parts)`. */
  function Join(parts: seq<string>, sep: string): string
  {
    if |parts| == 0 then ""
    else if |parts| == 1 then parts[0]
    else parts[0] + sep + Join(parts[1..], sep)
  }

  /** Concatenation of a sequence of strings. */
  function Concat(parts: seq<string>): string
  {
    if parts == [] then "" else parts[0] + Concat(parts[1..])
  }

  lemma {:induction false} ConcatAppend(a: seq<string>, b: seq<string>)
    ensures Concat(a + b) == Concat(a) + Concat(b)
  {
    if a != [] {
      assert (a + b)[1..] == a[1..] + b;
      assert (a + b)[0] == a[0];
      ConcatAppend(a[1..], b);
      calc {
        Concat(a + b);
        a[0] + Concat(a[1..] + b);
        a[0] + (Concat(a[1..]) + Concat(b));
        (a[0] + Concat(a[1..])) + Concat(b);
        Concat(a) + Concat(b);
      }
    } else {
      assert a + b == b;
    }
  }

  /** Index of the first `c` in `s`, or |s| when there is none. */
  function IndexOf(s: string, c: char): nat
  {
    if s == [] then 0 else if s[0] == c then 0 else 1 + IndexOf(s[1..], c)
  }

  lemma {:induction false} IndexOfSpec(s: string, c: char)
    ensures IndexOf(s, c) <= |s|
    ensures IndexOf(s, c) < |s| ==> s[IndexOf(s, c)] == c
    ensures forall k :: 0 <= k < IndexOf(s, c) ==> s[k] != c
  {
    if s != [] && s[0] != c {
      IndexOfSpec(s[1..], c);
      forall k | 0 < k < IndexOf(s, c) ensures s[k] != c {
        assert s[1..][k - 1] == s[k];
      }
    }
  }

  /** The first `c` is where IndexOf says. */
  lemma {:induction false} IndexOfIs(s: string, c: char, i: nat)
    requires i <= |s| && (i < |s| ==> s[i] == c)
    requires forall k :: 0 <= k < i ==> s[k] != c
    ensures IndexOf(s, c) == i
  {
    if s != [] && i > 0 {
      IndexOfIs(s[1..], c, i - 1);
    }
  }

  /** `explode($c, $s)` for a one-char delimiter: the pieces between delimiters;
      the empty string gives one empty piece. */
  function Split(s: string, c: char): (parts: seq<string>)
    ensures |parts| >= 1
    decreases |s|
  {
    IndexOfSpec(s, c);
    var i := IndexOf(s, c);
    if i == |s| then [s] else [s[..i]] + Split(s[i + 1..], c)
  }

  /** The first piece ends at the first delimiter. */
  lemma SplitConcat(a: string, c: char, b: string)
    requires c !in a
    ensures Split(a + [c] + b, c) == [a] + Split(b, c)
  {
    var s := a + [c] + b;
    assert s[|a|] == c && s[..|a|] == a && s[|a| + 1..] == b;
    IndexOfIs(s, c, |a|);
  }

  /** Without a delimiter there is one piece, the whole string. */
  lemma SplitNone(s: string, c: char)
    requires c !in s
    ensures Split(s, c) == [s]
  {
    IndexOfIs(s, c, |s|);
  }

  /** `explode` loses nothing: gluing the pieces back with the delimiter gives
      the input, and no piece contains the delimiter. */
  lemma {:induction false} SplitJoin(s: string, c: char)
    ensures Join(Split(s, c), [c]) == s
    ensures forall k :: 0 <= k < |Split(s, c)| ==> c !in Split(s, c)[k]
    decreases |s|
  {
    IndexOfSpec(s, c);
    var i := IndexOf(s, c);
    if i < |s| {
      SplitJoin(s[i + 1..], c);
      var rest := Split(s[i + 1..], c);
      assert Split(s, c) == [s[..i]] + rest;
      assert Split(s, c)[1..] == rest;
      assert s == s[..i] + [c] + s[i + 1..];
      assert c !in s[..i];
    }
  }
}
