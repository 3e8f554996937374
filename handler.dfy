/**
 * framework/api/getRequestsAnomaliesHandler.go: how the anomalies endpoint turns its two
 * comma-separated query parameters into the root-id list and the anomaly-case filter.
 * Go's `strings.Split` and `strconv.Atoi` (on a 64-bit platform) are modelled as functions.
 */
module GetRequestsAnomaliesHandler {
  import opened Wrappers

  const MinInt64: int := -0x8000_0000_0000_0000
  const MaxInt64: int := 0x7fff_ffff_ffff_ffff

  predicate InInt64(x: int) {
    MinInt64 <= x <= MaxInt64
  }

  // ---------------------------------------------------------------------------
  // strings.Split and strings.Join for a one-character separator

  /**
   * strings.Split(s, sep): the pieces of s between the separators, in order. There is always
   * one more piece than there are separators, so even "" gives one (empty) piece.
   */
  function Split(s: string, sep: char): (pieces: seq<string>)
    ensures |pieces| >= 1
    decreases |s|
  {
    if |s| == 0 then [""]
    else if s[0] == sep then [""] + Split(s[1..], sep)
    else
      var rest := Split(s[1..], sep);
      [[s[0]] + rest[0]] + rest[1..]
  }

  /** strings.Join(pieces, sep). */
  function Join(pieces: seq<string>, sep: char): string
    decreases |pieces|
  {
    if |pieces| == 0 then ""
    else if |pieces| == 1 then pieces[0]
    else pieces[0] + [sep] + Join(pieces[1..], sep)
  }

  /** No piece of a split holds the separator. */
  lemma {:induction false} SplitPiecesFree(s: string, sep: char)
    ensures forall i :: 0 <= i < |Split(s, sep)| ==> sep !in Split(s, sep)[i]
    decreases |s|
  {
    if |s| > 0 {
      SplitPiecesFree(s[1..], sep);
    }
  }

  /** Joining the pieces of a split gives the string back. */
  lemma {:induction false} JoinSplit(s: string, sep: char)
    ensures Join(Split(s, sep), sep) == s
    decreases |s|
  {
    if |s| > 0 {
      var rest := Split(s[1..], sep);
      JoinSplit(s[1..], sep);
      if s[0] == sep {
        assert ([""] + rest)[1..] == rest;
        assert s == [sep] + s[1..];
      } else {
        var pieces := [[s[0]] + rest[0]] + rest[1..];
        if |rest| == 1 {
          assert s == [s[0]] + rest[0];
        } else {
          assert pieces[1..] == rest[1..];
          assert Join(rest, sep) == rest[0] + [sep] + Join(rest[1..], sep);
          assert s == [s[0]] + rest[0] + [sep] + Join(rest[1..], sep);
        }
      }
    }
  }

  /** A string without the separator is a single piece. */
  lemma {:induction false} SplitWithoutSep(a: string, sep: char)
    requires sep !in a
    ensures Split(a, sep) == [a]
    decreases |a|
  {
    if |a| > 0 {
      SplitWithoutSep(a[1..], sep);
      assert [a[0]] + a[1..] == a;
    }
  }

  /** The first separator ends the first piece. */
  lemma {:induction false} SplitAtFirstSep(a: string, b: string, sep: char)
    requires sep !in a
    ensures Split(a + [sep] + b, sep) == [a] + Split(b, sep)
    decreases |a|
  {
    var s := a + [sep] + b;
    if |a| == 0 {
      assert s[1..] == b;
    } else {
      assert s[0] == a[0] && s[1..] == a[1..] + [sep] + b;
      SplitAtFirstSep(a[1..], b, sep);
      assert [a[0]] + a[1..] == a;
    }
  }

  /** Splitting a join of separator-free pieces gives the pieces back. */
  lemma {:induction false} SplitJoin(pieces: seq<string>, sep: char)
    requires |pieces| >= 1
    requires forall i :: 0 <= i < |pieces| ==> sep !in pieces[i]
    ensures Split(Join(pieces, sep), sep) == pieces
    decreases |pieces|
  {
    if |pieces| == 1 {
      SplitWithoutSep(pieces[0], sep);
    } else {
      SplitJoin(pieces[1..], sep);
      SplitAtFirstSep(pieces[0], Join(pieces[1..], sep), sep);
      assert [pieces[0]] + pieces[1..] == pieces;
    }
  }

  // ---------------------------------------------------------------------------
  // strconv.Atoi and its decimal rendering

  predicate IsDigit(c: char) {
    '0' <= c <= '9'
  }

  predicate AllDigits(d: string) {
    forall i :: 0 <= i < |d| ==> IsDigit(d[i])
  }

  /** The value of a string of decimal digits, most significant first; leading zeros allowed. */
  function DigitsValue(d: string): nat
    requires AllDigits(d)
  {
    if |d| == 0 then 0
    else DigitsValue(d[..|d| - 1]) * 10 + (d[|d| - 1] as int - '0' as int)
  }

  /**
   * strconv.Atoi with a 64-bit int: an optional '+' or '-', then at least one decimal digit
   * and nothing else, and a value that fits in int64; anything else is an error.
   */
  function Atoi(s: string): (r: Option<int>)
    ensures r.Some? ==> InInt64(r.value)
    ensures r.Some? ==> |s| >= 1 && (IsDigit(s[0]) || s[0] == '+' || s[0] == '-')
  {
    if |s| == 0 then None
    else
      var digits := if s[0] == '+' || s[0] == '-' then s[1..] else s;
      if |digits| == 0 || !AllDigits(digits) then None
      else
        var v: int := if s[0] == '-' then -(DigitsValue(digits) as int) else DigitsValue(digits);
        if InInt64(v) then Some(v) else None
  }

  function DigitChar(d: nat): char
    requires d < 10
  {
    (48 + d) as char
  }

  /** The shortest decimal rendering of n. */
  function NatToDecimal(n: nat): string
    decreases n
  {
    if n < 10 then [DigitChar(n)] else NatToDecimal(n / 10) + [DigitChar(n % 10)]
  }

  /** strconv.Itoa: a '-' for negative values, then the decimal digits. */
  function Itoa(x: int): string {
    if x < 0 then "-" + NatToDecimal(-x) else NatToDecimal(x)
  }

  lemma {:induction false} NatToDecimalValue(n: nat)
    ensures |NatToDecimal(n)| >= 1 && AllDigits(NatToDecimal(n))
    ensures DigitsValue(NatToDecimal(n)) == n
    decreases n
  {
    if n >= 10 {
      NatToDecimalValue(n / 10);
      var s := NatToDecimal(n);
      assert s[..|s| - 1] == NatToDecimal(n / 10);
    }
  }

  /** A rendering is a '-' followed by digits, or digits alone: it never holds a comma. */
  lemma ItoaHasNoComma(x: int)
    ensures ',' !in Itoa(x)
  {
    var n: nat := if x < 0 then -x else x;
    NatToDecimalValue(n);
    var d := NatToDecimal(n);
    assert ',' !in d by {
      forall i | 0 <= i < |d| ensures d[i] != ',' {
        assert IsDigit(d[i]);
      }
    }
    if x < 0 {
      assert Itoa(x) == ['-'] + d;
    }
  }

  /** Atoi reads back what Itoa writes, for every int64. */
  lemma AtoiItoa(x: int)
    requires InInt64(x)
    ensures Atoi(Itoa(x)) == Some(x)
  {
    var s := Itoa(x);
    if x < 0 {
      var d := NatToDecimal(-x);
      NatToDecimalValue(-x);
      assert s == "-" + d && s[0] == '-' && s[1..] == d;
      assert -(DigitsValue(d) as int) == x;
    } else {
      NatToDecimalValue(x);
      assert IsDigit(s[0]);
      assert DigitsValue(s) == x;
    }
  }

  // ---------------------------------------------------------------------------
  // splitToInts

  /** What one piece contributes: its value when it parses, nothing otherwise. */
  function ParsedPiece(piece: string): seq<int> {
    match Atoi(piece)
    case Some(v) => [v]
    case None => []
  }

  /** The values of the pieces that parse, in the order of the pieces. */
  function ParsedInts(pieces: seq<string>): seq<int> {
    if pieces == [] then []
    else ParsedInts(pieces[..|pieces| - 1]) + ParsedPiece(pieces[|pieces| - 1])
  }

  /** splitToInts(s, sep): the loop over the split pieces; a piece that fails to parse is skipped. */
  method SplitToInts(s: string, sep: char) returns (values: seq<int>)
    ensures values == ParsedInts(Split(s, sep))
  {
    var tmp := Split(s, sep);
    values := [];
    for i := 0 to |tmp|
      invariant values == ParsedInts(tmp[..i])
    {
      assert tmp[..i + 1][..i] == tmp[..i];
      var v := Atoi(tmp[i]);
      if v.None? {
        continue;
      }
      values := values + [v.value];
    }
    assert tmp[..|tmp|] == tmp;
  }

  /** No more values than pieces. */
  lemma {:induction false} ParsedIntsLength(pieces: seq<string>)
    ensures |ParsedInts(pieces)| <= |pieces|
  {
    if pieces != [] {
      ParsedIntsLength(pieces[..|pieces| - 1]);
    }
  }

  lemma {:induction false} ParsedIntsAppend(p: seq<string>, q: seq<string>)
    ensures ParsedInts(p + q) == ParsedInts(p) + ParsedInts(q)
    decreases |q|
  {
    if q == [] {
      assert p + q == p;
    } else {
      var q' := q[..|q| - 1];
      assert (p + q)[..|p + q| - 1] == p + q';
      assert (p + q)[|p + q| - 1] == q[|q| - 1];
      ParsedIntsAppend(p, q');
    }
  }

  /** What Atoi makes of each piece. */
  function ParseEach(pieces: seq<string>): (r: seq<Option<int>>)
    ensures |r| == |pieces| && forall i :: 0 <= i < |pieces| ==> r[i] == Atoi(pieces[i])
  {
    seq(|pieces|, i requires 0 <= i < |pieces| => Atoi(pieces[i]))
  }

  /** A value is in the result iff some piece parses to it. */
  lemma {:induction false} ParsedIntsMembers(pieces: seq<string>, v: int)
    ensures v in ParsedInts(pieces) <==> Some(v) in ParseEach(pieces)
  {
    if pieces != [] {
      var init := pieces[..|pieces| - 1];
      var last := pieces[|pieces| - 1];
      ParsedIntsMembers(init, v);
      assert ParseEach(pieces) == ParseEach(init) + [Atoi(last)];
      assert v in ParsedPiece(last) <==> Atoi(last) == Some(v);
    }
  }

  /** When every piece parses, the result has one value per piece, in order. */
  lemma {:induction false} ParsedIntsAllParse(pieces: seq<string>)
    requires forall i :: 0 <= i < |pieces| ==> Atoi(pieces[i]).Some?
    ensures |ParsedInts(pieces)| == |pieces|
    ensures forall i :: 0 <= i < |pieces| ==> ParsedInts(pieces)[i] == Atoi(pieces[i]).value
  {
    if pieces != [] {
      var init := pieces[..|pieces| - 1];
      ParsedIntsAllParse(init);
    }
  }

  /** The empty parameter is one empty piece, which does not parse: no values. */
  lemma EmptyInputNoValues(sep: char)
    ensures ParsedInts(Split("", sep)) == []
  {
    assert Split("", sep) == [""];
    assert ParsedInts([""]) == ParsedInts([]) + ParsedPiece("");
  }

  /** The decimal renderings of the values, in order. */
  function Renderings(xs: seq<int>): (r: seq<string>)
    ensures |r| == |xs| && forall i :: 0 <= i < |xs| ==> r[i] == Itoa(xs[i])
  {
    seq(|xs|, i requires 0 <= i < |xs| => Itoa(xs[i]))
  }

  /** Round trip: int64 values rendered in decimal and joined by commas parse back to themselves. */
  lemma RoundTrip(xs: seq<int>)
    requires forall i :: 0 <= i < |xs| ==> InInt64(xs[i])
    ensures ParsedInts(Split(Join(Renderings(xs), ','), ',')) == xs
  {
    var pieces := Renderings(xs);
    if xs == [] {
      EmptyInputNoValues(',');
    } else {
      forall i | 0 <= i < |pieces|
        ensures Atoi(pieces[i]) == Some(xs[i]) && ',' !in pieces[i]
      {
        AtoiItoa(xs[i]);
        ItoaHasNoComma(xs[i]);
      }
      SplitJoin(pieces, ',');
      ParsedIntsAllParse(pieces);
    }
  }

  // ---------------------------------------------------------------------------
  // The filters of GetRequestsAnomaliesHandler

  datatype Filters = Filters(ids: seq<string>, cases: seq<int>)

  /**
   * The root ids are the comma-split of root_ids; the cases are empty for an empty
   * anomaly_cases and the parsed comma-split otherwise. The "empty root ids" branch of the
   * handler cannot be taken, because a split always has at least one piece.
   */
  method DeriveFilters(rootIds: string, anomalyCases: string) returns (f: Filters)
    ensures f.ids == Split(rootIds, ',') && |f.ids| >= 1
    ensures f.cases == ParsedInts(Split(anomalyCases, ','))
    ensures anomalyCases == "" ==> f.cases == []
  {
    var ids := Split(rootIds, ',');
    var cases: seq<int> := [];
    if anomalyCases != "" {
      cases := SplitToInts(anomalyCases, ',');
    } else {
      EmptyInputNoValues(',');
    }
    if |ids| == 0 {
      assert false;
    }
    f := Filters(ids, cases);
  }
}
