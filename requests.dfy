/**
 * usecase/repository/hcsPostgresRepository.go, the two queries the enrichment job uses:
 * `CountRequestsByClosureTime` and `GetRequestsByClosureTime`. The `requests` table is
 * a sequence of rows; both queries select the rows whose `closure_date` is not null and
 * lies BETWEEN the two bounds (both ends included), and the page query orders them by
 * `root_id` and takes a LIMIT/OFFSET slice.
 */
module RequestSource {
  import opened Wrappers
  import opened Timestamps

  /**
   * A row of `requests` reduced to what the model needs: the key, the closure date
   * (NULL while the request is open), the previous closure date the scoring model reads,
   * and the remaining columns as text.
   */
  datatype Request = Request(
    rootId: string,
    closureDate: Option<Time>,
    previousClosure: Option<Time>,
    attributes: seq<string>)

  datatype QueryError = QueryFailed | RowScanFailed | RowsFailed | NegativeOffset

  /**
   * How a query ends: normally; with an error from `Pool.Query` (sending or starting the
   * query); with a failed row scan; or with an error raised while the result is streamed,
   * after `read` rows. pgx reports that last error only through `rows.Err()`: `rows.Next()`
   * merely returns false. `Pool.Query` itself never returns `pgx.ErrNoRows`. A scan runs only on
   * a row that `rows.Next()` delivered, so `ScanFails` stands for a page with at least one row;
   * the model does not check that, and the job never chooses it.
   */
  datatype QueryFault = NoFault | QueryFails | ScanFails | Interrupted(read: nat)

  /** `closure_date IS NOT NULL AND closure_date BETWEEN from AND to`. */
  predicate InWindow(r: Request, from: Time, to: Time) {
    r.closureDate.Some? && from <= r.closureDate.value <= to
  }

  /** The rows of the table that satisfy the WHERE clause, in table order. */
  function Candidates(table: seq<Request>, from: Time, to: Time): (c: seq<Request>)
    ensures |c| <= |table|
    ensures forall r :: r in c <==> r in table && InWindow(r, from, to)
    ensures multiset(c) <= multiset(table)
  {
    if table == [] then []
    else
      var rest := Candidates(table[1..], from, to);
      assert table == [table[0]] + table[1..];
      if InWindow(table[0], from, to) then [table[0]] + rest else rest
  }

  /** Every row that satisfies the WHERE clause is kept as many times as the table holds it; no other row is. */
  lemma {:induction false} CandidatesCounts(table: seq<Request>, from: Time, to: Time)
    ensures forall x :: multiset(Candidates(table, from, to))[x] == if InWindow(x, from, to) then multiset(table)[x] else 0
  {
    if table != [] {
      CandidatesCounts(table[1..], from, to);
      assert table == [table[0]] + table[1..];
    }
  }

  /** `ORDER BY root_id`, as code-point lexicographic order on the key. */
  predicate RootIdLeq(a: string, b: string)
    decreases |a|
  {
    |a| == 0 || (|b| > 0 && (a[0] < b[0] || (a[0] == b[0] && RootIdLeq(a[1..], b[1..]))))
  }

  lemma {:induction false} RootIdLeqTotal(a: string, b: string)
    ensures RootIdLeq(a, b) || RootIdLeq(b, a)
    decreases |a|
  {
    if |a| > 0 && |b| > 0 && a[0] == b[0] {
      RootIdLeqTotal(a[1..], b[1..]);
    }
  }

  lemma {:induction false} RootIdLeqTransitive(a: string, b: string, c: string)
    requires RootIdLeq(a, b) && RootIdLeq(b, c)
    ensures RootIdLeq(a, c)
    decreases |a|
  {
    if |a| > 0 && a[0] == b[0] && b[0] == c[0] {
      RootIdLeqTransitive(a[1..], b[1..], c[1..]);
    }
  }

  predicate SortedByRootId(s: seq<Request>) {
    forall i, j :: 0 <= i < j < |s| ==> RootIdLeq(s[i].rootId, s[j].rootId)
  }

  function Insert(r: Request, s: seq<Request>): seq<Request> {
    if s == [] then [r]
    else if RootIdLeq(r.rootId, s[0].rootId) then [r] + s
    else [s[0]] + Insert(r, s[1..])
  }

  function SortByRootId(s: seq<Request>): seq<Request> {
    if s == [] then [] else Insert(s[0], SortByRootId(s[1..]))
  }

  lemma {:induction false} InsertMultiset(r: Request, s: seq<Request>)
    ensures multiset(Insert(r, s)) == multiset(s) + multiset{r}
  {
    if s != [] {
      assert s == [s[0]] + s[1..];
      if !RootIdLeq(r.rootId, s[0].rootId) {
        InsertMultiset(r, s[1..]);
      }
    }
  }

  /** A key no greater than every key of a sorted sequence can be put in front of it. */
  lemma SortedCons(x: Request, s: seq<Request>)
    requires SortedByRootId(s)
    requires forall y :: y in s ==> RootIdLeq(x.rootId, y.rootId)
    ensures SortedByRootId([x] + s)
  {
    var res := [x] + s;
    forall i, j | 0 <= i < j < |res| ensures RootIdLeq(res[i].rootId, res[j].rootId) {
      assert res[j] == s[j - 1];
      if i > 0 {
        assert res[i] == s[i - 1];
      }
    }
  }

  lemma {:induction false} InsertSorted(r: Request, s: seq<Request>)
    requires SortedByRootId(s)
    ensures SortedByRootId(Insert(r, s))
  {
    if s == [] {
    } else if RootIdLeq(r.rootId, s[0].rootId) {
      forall y | y in s ensures RootIdLeq(r.rootId, y.rootId) {
        var j :| 0 <= j < |s| && s[j] == y;
        if j > 0 {
          RootIdLeqTransitive(r.rootId, s[0].rootId, s[j].rootId);
        }
      }
      SortedCons(r, s);
    } else {
      var tail := Insert(r, s[1..]);
      InsertSorted(r, s[1..]);
      InsertMultiset(r, s[1..]);
      RootIdLeqTotal(r.rootId, s[0].rootId);
      forall y | y in tail ensures RootIdLeq(s[0].rootId, y.rootId) {
        assert y in multiset(tail);
        if y != r {
          assert y in multiset(s[1..]);
          var j :| 0 <= j < |s[1..]| && s[1..][j] == y;
          assert s[j + 1] == y;
        }
      }
      SortedCons(s[0], tail);
    }
  }

  lemma {:induction false} InsertLength(r: Request, s: seq<Request>)
    ensures |Insert(r, s)| == |s| + 1
  {
    if s != [] && !RootIdLeq(r.rootId, s[0].rootId) {
      InsertLength(r, s[1..]);
    }
  }

  lemma {:induction false} SortMultiset(s: seq<Request>)
    ensures multiset(SortByRootId(s)) == multiset(s)
  {
    if s != [] {
      SortMultiset(s[1..]);
      InsertMultiset(s[0], SortByRootId(s[1..]));
      assert s == [s[0]] + s[1..];
    }
  }

  lemma {:induction false} SortLength(s: seq<Request>)
    ensures |SortByRootId(s)| == |s|
  {
    if s != [] {
      SortLength(s[1..]);
      InsertLength(s[0], SortByRootId(s[1..]));
    }
  }

  lemma {:induction false} SortSorted(s: seq<Request>)
    ensures SortedByRootId(SortByRootId(s))
  {
    if s != [] {
      SortSorted(s[1..]);
      InsertSorted(s[0], SortByRootId(s[1..]));
    }
  }

  /** Sorting keeps exactly the same rows (as a multiset) and orders them by key. */
  lemma SortCorrect(s: seq<Request>)
    ensures multiset(SortByRootId(s)) == multiset(s)
    ensures |SortByRootId(s)| == |s|
    ensures SortedByRootId(SortByRootId(s))
  {
    SortMultiset(s);
    SortLength(s);
    SortSorted(s);
  }

  /** The ordered result set of the page query before LIMIT/OFFSET. */
  function Window(table: seq<Request>, from: Time, to: Time): seq<Request> {
    SortByRootId(Candidates(table, from, to))
  }

  /** The window holds exactly the candidate rows, ordered by key. */
  lemma WindowCharacterised(table: seq<Request>, from: Time, to: Time)
    ensures multiset(Window(table, from, to)) == multiset(Candidates(table, from, to))
    ensures |Window(table, from, to)| == |Candidates(table, from, to)|
    ensures SortedByRootId(Window(table, from, to))
    ensures forall r :: r in Window(table, from, to) <==> r in table && InWindow(r, from, to)
  {
    var c := Candidates(table, from, to);
    SortCorrect(c);
    forall r ensures r in Window(table, from, to) <==> r in c {
      assert r in Window(table, from, to) <==> r in multiset(Window(table, from, to));
    }
  }

  /** `SELECT count(*) ... WHERE closure_date IS NOT NULL AND closure_date BETWEEN $1 AND $2`. */
  function CountRequestsByClosureTime(table: seq<Request>, from: Time, to: Time, fail: bool): (r: Result<nat, QueryError>)
    ensures fail <==> r.Failure?
    ensures r.Success? ==> r.value == |Candidates(table, from, to)| == |Window(table, from, to)|
  {
    if fail then Failure(QueryFailed)
    else
      SortCorrect(Candidates(table, from, to));
      Success(|Candidates(table, from, to)|)
  }

  /** `LIMIT limit OFFSET offset` over a sequence: the rows at positions offset .. offset+limit-1 that exist. */
  function Slice(w: seq<Request>, limit: nat, offset: nat): (p: seq<Request>)
    ensures |p| == if offset >= |w| then 0 else Min(limit, |w| - offset)
    ensures offset >= |w| ==> p == []
    ensures offset < |w| ==> p == w[offset..offset + |p|]
  {
    w[Min(offset, |w|)..Min(offset + limit, |w|)]
  }

  /** The first n rows of s, or all of them when there are fewer. */
  function Prefix(s: seq<Request>, n: nat): (p: seq<Request>)
    ensures |p| == Min(n, |s|)
  {
    s[..Min(n, |s|)]
  }

  /** The first n rows of a page are the page with the smaller limit. */
  lemma PrefixOfSlice(w: seq<Request>, limit: nat, offset: nat, n: nat)
    ensures Prefix(Slice(w, limit, offset), n) == Slice(w, Min(n, limit), offset)
  {
    var a, b := Min(offset, |w|), Min(offset + limit, |w|);
    assert w[a..b][..Min(n, b - a)] == w[a..a + Min(n, b - a)];
  }

  /**
   * The page query as written. The result slice is allocated with capacity `limit` before any
   * query is sent, and Go's `make` panics on a negative capacity, so callers must pass a
   * non-negative limit. An error from the query call or from a row scan gives an error and no
   * rows. PostgreSQL rejects a negative OFFSET only when the statement runs, and the loop over
   * `rows.Next()` never consults `rows.Err()`: that rejection, like any error while the rows are
   * streamed, just ends the loop, and the rows read so far come back as a successful page (none
   * at all for a negative offset).
   */
  function GetRequestsByClosureTime(
    table: seq<Request>, from: Time, to: Time, limit: int, offset: int, fault: QueryFault): (r: Result<seq<Request>, QueryError>)
    requires limit >= 0
    ensures r.Success? <==> !fault.QueryFails? && (offset < 0 || !fault.ScanFails?)
    ensures r.Success? && offset < 0 ==> r.value == []
    ensures r.Success? && offset >= 0 ==> |r.value| <= limit && r.value <= Slice(Window(table, from, to), limit, offset)
    ensures r.Success? && offset >= 0 && fault == NoFault ==> r.value == Slice(Window(table, from, to), limit, offset)
    ensures r.Success? && offset >= 0 && fault.Interrupted? ==> r.value == Prefix(Slice(Window(table, from, to), limit, offset), fault.read)
  {
    match fault
    case QueryFails => Failure(QueryFailed)
    case ScanFails => if offset < 0 then Success([]) else Failure(RowScanFailed)
    case Interrupted(read) =>
      if offset < 0 then Success([]) else Success(Prefix(Slice(Window(table, from, to), limit, offset), read))
    case NoFault => if offset < 0 then Success([]) else Success(Slice(Window(table, from, to), limit, offset))
  }

  /**
   * The page query with the check of `rows.Err()` after the loop that the code leaves out: the
   * rejection of a negative offset and an error while streaming are then reported, so a page
   * that comes back is always whole.
   */
  function GetRequestsByClosureTimeChecked(
    table: seq<Request>, from: Time, to: Time, limit: int, offset: int, fault: QueryFault): (r: Result<seq<Request>, QueryError>)
    requires limit >= 0
    ensures r.Success? <==> offset >= 0 && fault == NoFault
    ensures r.Success? ==> r.value == Slice(Window(table, from, to), limit, offset)
    ensures offset < 0 && !fault.QueryFails? ==> r == Failure(NegativeOffset)
  {
    match GetRequestsByClosureTime(table, from, to, limit, offset, fault)
    case Failure(e) => Failure(e)
    case Success(rows) =>
      if offset < 0 then Failure(NegativeOffset)
      else if fault.Interrupted? then Failure(RowsFailed)
      else Success(rows)
  }

  /**
   * An error after `read` rows of a page of more than `read` rows: the query as written returns
   * the shorter page with no error, where the checked query reports the error.
   */
  lemma InterruptedPageIsShort(table: seq<Request>, from: Time, to: Time, limit: nat, offset: nat, read: nat)
    requires read < |Slice(Window(table, from, to), limit, offset)|
    ensures var r := GetRequestsByClosureTime(table, from, to, limit, offset, Interrupted(read));
      r.Success? && |r.value| == read < |Slice(Window(table, from, to), limit, offset)|
    ensures GetRequestsByClosureTimeChecked(table, from, to, limit, offset, Interrupted(read)) == Failure(RowsFailed)
  {
  }

  /**
   * A negative offset on a non-empty window: the query as written reports success with no rows,
   * as if the window were empty, where the checked query reports the rejection.
   */
  lemma NegativeOffsetLooksEmpty(table: seq<Request>, from: Time, to: Time, limit: nat, offset: int)
    requires offset < 0
    ensures GetRequestsByClosureTime(table, from, to, limit, offset, NoFault) == Success([])
    ensures GetRequestsByClosureTimeChecked(table, from, to, limit, offset, NoFault) == Failure(NegativeOffset)
  {
  }

  /** Ceiling division, for the number of pages the job walks through. */
  function CeilDiv(n: nat, d: nat): (q: nat)
    requires d > 0
    ensures (q - 1) * d < n <= q * d || (n == 0 && q == 0)
  {
    (n + d - 1) / d
  }

  /** The pages at offsets lim*i, lim*(i+1), ..., lim*(k-1), concatenated. */
  function ConcatPages(w: seq<Request>, lim: nat, i: nat, k: nat): seq<Request>
    decreases k - i
  {
    if i >= k then [] else Slice(w, lim, lim * i) + ConcatPages(w, lim, i + 1, k)
  }

  function Min(a: nat, b: nat): nat {
    if a < b then a else b
  }

  lemma MulStep(lim: nat, i: nat)
    ensures lim * (i + 1) == lim * i + lim
  {
  }

  lemma MulMonotone(lim: nat, i: nat, k: nat)
    requires i <= k
    ensures lim * i <= lim * k
  {
  }

  /** A page followed by the rows after it up to position hi is the range from the page's offset to hi. */
  lemma SliceThenRest(w: seq<Request>, lim: nat, lo: nat, hi: nat)
    requires lo + lim <= hi
    ensures Slice(w, lim, lo) + w[Min(lo + lim, |w|)..Min(hi, |w|)] == w[Min(lo, |w|)..Min(hi, |w|)]
  {
    var a, b, c := Min(lo, |w|), Min(lo + lim, |w|), Min(hi, |w|);
    assert w[a..c] == w[a..b] + w[b..c];
  }

  lemma {:induction false} ConcatPagesRange(w: seq<Request>, lim: nat, i: nat, k: nat)
    requires i <= k
    ensures lim * i <= lim * k
    ensures ConcatPages(w, lim, i, k) == w[Min(lim * i, |w|)..Min(lim * k, |w|)]
    decreases k - i
  {
    MulMonotone(lim, i, k);
    if i < k {
      var lo, hi := lim * i, lim * k;
      MulStep(lim, i);
      MulMonotone(lim, i + 1, k);
      calc {
        ConcatPages(w, lim, i, k);
        Slice(w, lim, lo) + ConcatPages(w, lim, i + 1, k);
        { ConcatPagesRange(w, lim, i + 1, k); }
        Slice(w, lim, lo) + w[Min(lo + lim, |w|)..Min(hi, |w|)];
        { SliceThenRest(w, lim, lo, hi); }
        w[Min(lo, |w|)..Min(hi, |w|)];
      }
    }
  }

  lemma CeilDivCovers(n: nat, lim: nat)
    requires lim > 0
    ensures lim * CeilDiv(n, lim) >= n
  {
  }

  /**
   * Counting and paging use the same predicate, so the pages at offsets 0, L, ...,
   * (ceil(n/L)-1)*L of an unchanged table are exactly the ordered window: every
   * counted row once, in order, none twice.
   */
  lemma PagesCoverWindow(table: seq<Request>, from: Time, to: Time, lim: nat)
    requires lim > 0
    ensures var w := Window(table, from, to);
      ConcatPages(w, lim, 0, CeilDiv(|Candidates(table, from, to)|, lim)) == w
  {
    var w := Window(table, from, to);
    SortCorrect(Candidates(table, from, to));
    var k := CeilDiv(|w|, lim);
    ConcatPagesRange(w, lim, 0, k);
    CeilDivCovers(|w|, lim);
  }
}
