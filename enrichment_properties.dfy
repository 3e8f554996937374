/**
 * What a run of the enrichment job guarantees, stated about Enrichment.Expected, the
 * function that Execute is proved to follow.
 */
module EnrichmentProperties {
  import opened Wrappers
  import opened Timestamps
  import opened LastAnomalyCheckJob
  import opened RequestSource
  import opened AnomalyStore
  import opened Enrichment

  /** How many releases of the checkpoint row a trace holds. */
  function ReleaseCount(calls: seq<Call>): nat {
    if calls == [] then 0
    else (if calls[0].SetInactive? then 1 else 0) + ReleaseCount(calls[1..])
  }

  /** The page fetches of a trace, in order. */
  function Fetches(calls: seq<Call>): seq<Call> {
    if calls == [] then []
    else (if calls[0].FetchPage? then [calls[0]] else []) + Fetches(calls[1..])
  }

  /** Everything sent to the model in a trace, in order. */
  function Predicted(calls: seq<Call>): seq<ModelRequest> {
    if calls == [] then []
    else (if calls[0].Predict? then calls[0].inputs else []) + Predicted(calls[1..])
  }

  lemma {:induction false} ReleaseCountAppend(a: seq<Call>, b: seq<Call>)
    ensures ReleaseCount(a + b) == ReleaseCount(a) + ReleaseCount(b)
  {
    if a == [] {
      assert a + b == b;
    } else {
      var c := a[0];
      assert (a + b)[0] == c && (a + b)[1..] == a[1..] + b;
      assert ReleaseCount(a + b) == (if c.SetInactive? then 1 else 0) + ReleaseCount(a[1..] + b);
      ReleaseCountAppend(a[1..], b);
    }
  }

  lemma {:induction false} FetchesAppend(a: seq<Call>, b: seq<Call>)
    ensures Fetches(a + b) == Fetches(a) + Fetches(b)
  {
    if a == [] {
      assert a + b == b;
    } else {
      var c := a[0];
      assert (a + b)[0] == c && (a + b)[1..] == a[1..] + b;
      assert Fetches(a + b) == (if c.FetchPage? then [c] else []) + Fetches(a[1..] + b);
      FetchesAppend(a[1..], b);
    }
  }

  lemma {:induction false} PredictedAppend(a: seq<Call>, b: seq<Call>)
    ensures Predicted(a + b) == Predicted(a) + Predicted(b)
  {
    if a == [] {
      assert a + b == b;
    } else {
      var c := a[0];
      assert (a + b)[0] == c && (a + b)[1..] == a[1..] + b;
      assert Predicted(a + b) == (if c.Predict? then c.inputs else []) + Predicted(a[1..] + b);
      PredictedAppend(a[1..], b);
    }
  }

  lemma TraceAppend(a: seq<Call>, b: seq<Call>)
    ensures ReleaseCount(a + b) == ReleaseCount(a) + ReleaseCount(b)
    ensures Fetches(a + b) == Fetches(a) + Fetches(b)
    ensures Predicted(a + b) == Predicted(a) + Predicted(b)
  {
    ReleaseCountAppend(a, b);
    FetchesAppend(a, b);
    PredictedAppend(a, b);
  }

  lemma Single(c: Call)
    ensures ReleaseCount([c]) == (if c.SetInactive? then 1 else 0)
    ensures Fetches([c]) == (if c.FetchPage? then [c] else [])
    ensures Predicted([c]) == (if c.Predict? then c.inputs else [])
  {
    assert [c][1..] == [];
  }

  /** What page i sends to the model: the rows its fetch returned, unless the fetch reported an error. */
  function PageSent(j: JobWindow, i: nat): seq<ModelRequest> {
    if i in j.faults.fetchFails then [] else ModelInputs(FetchedRows(j, i))
  }

  /** One page's calls: one fetch, no release, the fetched rows sent to the model unless the fetch failed. */
  lemma PageCallsTrace(j: JobWindow, i: nat)
    ensures Fetches(PageCalls(j, i)) == [FetchPage(j.from, j.to, PageSize, PageSize * i)]
    ensures ReleaseCount(PageCalls(j, i)) == 0
    ensures Predicted(PageCalls(j, i)) == PageSent(j, i)
  {
    var fetch := FetchPage(j.from, j.to, PageSize, PageSize * i);
    var inputs := ModelInputs(FetchedRows(j, i));
    var batch := PageBatch(j, i);
    Single(fetch);
    if i !in j.faults.fetchFails {
      assert [] + inputs == inputs;
      Single(Predict(inputs));
      TraceAppend([fetch], [Predict(inputs)]);
      assert [fetch] + [Predict(inputs)] == [fetch, Predict(inputs)];
      if i !in j.faults.predictFails {
        Single(Upsert(batch));
        TraceAppend([fetch, Predict(inputs)], [Upsert(batch)]);
        assert [fetch, Predict(inputs)] + [Upsert(batch)] == [fetch, Predict(inputs), Upsert(batch)];
      }
    }
  }

  /** The calls of each page of the window, as a function of the page index. */
  function PageCallsOf(j: JobWindow): nat -> seq<Call> {
    (m: nat) => PageCalls(j, m)
  }

  /** Every page's calls: one fetch, no release, the fetched rows sent to the model unless the fetch failed. */
  lemma PageCallsOfTrace(j: JobWindow)
    ensures forall m: nat :: Fetches(PageCallsOf(j)(m)) == [FetchPage(j.from, j.to, PageSize, PageSize * m)]
    ensures forall m: nat :: ReleaseCount(PageCallsOf(j)(m)) == 0
    ensures forall m: nat :: Predicted(PageCallsOf(j)(m)) == PageSent(j, m)
  {
    forall m: nat
      ensures Fetches(PageCallsOf(j)(m)) == [FetchPage(j.from, j.to, PageSize, PageSize * m)]
      ensures ReleaseCount(PageCallsOf(j)(m)) == 0
      ensures Predicted(PageCallsOf(j)(m)) == PageSent(j, m)
    {
      PageCallsTrace(j, m);
    }
  }

  /**
   * The calls of the paging loop from page i on, where page m makes the calls pc(m). They do
   * not depend on the verdict table, so this follows the loop without it: every page up to
   * and including the first failing one.
   */
  function PagesCalls(j: JobWindow, pc: nat -> seq<Call>, i: nat, pages: nat): seq<Call>
    decreases pages - i
  {
    if i >= pages then []
    else if PageFails(j.faults, i) then pc(i)
    else pc(i) + PagesCalls(j, pc, i + 1, pages)
  }

  lemma {:induction false} RunPagesCalls(j: JobWindow, v: map<string, StoredVerdict>, i: nat, pages: nat)
    ensures RunPages(j, v, i, pages).calls == PagesCalls(j, PageCallsOf(j), i, pages)
    decreases pages - i
  {
    if i < pages && !PageFails(j.faults, i) {
      RunPagesCalls(j, RunPage(j, v, i).verdicts, i + 1, pages);
    }
  }

  /** The fetches of pages i .. k-1: window [from, to], limit 20000, offset 20000 * page. */
  function FetchCalls(j: JobWindow, i: nat, k: nat): seq<Call>
    decreases k - i
  {
    if i >= k then [] else [FetchPage(j.from, j.to, PageSize, PageSize * i)] + FetchCalls(j, i + 1, k)
  }

  /** The m-th fetch of pages i .. k-1 is page i+m: offset 20000 * (i+m), limit 20000. */
  lemma {:induction false} FetchCallsAt(j: JobWindow, i: nat, k: nat)
    ensures |FetchCalls(j, i, k)| == if i < k then k - i else 0
    ensures forall m :: 0 <= m < |FetchCalls(j, i, k)| ==>
      FetchCalls(j, i, k)[m] == FetchPage(j.from, j.to, PageSize, PageSize * (i + m))
    decreases k - i
  {
    if i < k {
      FetchCallsAt(j, i + 1, k);
      forall m | 0 < m < |FetchCalls(j, i, k)|
        ensures FetchCalls(j, i, k)[m] == FetchPage(j.from, j.to, PageSize, PageSize * (i + m))
      {
        assert FetchCalls(j, i, k)[m] == FetchCalls(j, i + 1, k)[m - 1];
      }
    }
  }

  /** The first failing page at or after i, or `pages` when none fails. */
  function FirstFailure(faults: Faults, i: nat, pages: nat): nat
    decreases pages - i
  {
    if i >= pages then pages
    else if PageFails(faults, i) then i
    else FirstFailure(faults, i + 1, pages)
  }

  lemma {:induction false} FirstFailureBounds(faults: Faults, i: nat, pages: nat)
    requires i <= pages
    ensures i <= FirstFailure(faults, i, pages) <= pages
    decreases pages - i
  {
    if i < pages && !PageFails(faults, i) {
      FirstFailureBounds(faults, i + 1, pages);
    }
  }

  /** FirstFailure is the least failing page from i on, or `pages` exactly when none fails. */
  lemma {:induction false} FirstFailureFacts(faults: Faults, i: nat, pages: nat)
    requires i <= pages
    ensures i <= FirstFailure(faults, i, pages) <= pages
    ensures FirstFailure(faults, i, pages) == pages <==> forall m :: i <= m < pages ==> !PageFails(faults, m)
    ensures FirstFailure(faults, i, pages) < pages ==> PageFails(faults, FirstFailure(faults, i, pages))
    ensures forall m :: i <= m < FirstFailure(faults, i, pages) ==> !PageFails(faults, m)
    decreases pages - i
  {
    if i < pages && !PageFails(faults, i) {
      FirstFailureFacts(faults, i + 1, pages);
    }
  }

  /** The verdict table after the batches of pages i .. k-1 are upserted one after the other. */
  function CommitPages(j: JobWindow, v: map<string, StoredVerdict>, i: nat, k: nat): map<string, StoredVerdict>
    decreases k - i
  {
    if i >= k then v else CommitPages(j, UpsertAll(v, PageBatch(j, i)), i + 1, k)
  }

  /** Every step of a started run succeeds: the count and every page of the window. */
  predicate AllSucceeded(j: JobWindow) {
    !j.faults.countFails && forall m :: 0 <= m < PageCount(j) ==> !PageFails(j.faults, m)
  }

  /** The paging loop from page i succeeds iff no page from i on fails. */
  lemma {:induction false} RunPagesOk(j: JobWindow, v: map<string, StoredVerdict>, i: nat, pages: nat)
    requires i <= pages
    ensures RunPages(j, v, i, pages).ok <==> FirstFailure(j.faults, i, pages) == pages
    decreases pages - i
  {
    if i < pages && !PageFails(j.faults, i) {
      RunPagesOk(j, RunPage(j, v, i).verdicts, i + 1, pages);
    }
  }

  /** It leaves committed exactly the verdicts of the pages before the first failure. */
  lemma {:induction false} RunPagesVerdicts(j: JobWindow, v: map<string, StoredVerdict>, i: nat, pages: nat)
    requires i <= pages
    ensures RunPages(j, v, i, pages).verdicts == CommitPages(j, v, i, FirstFailure(j.faults, i, pages))
    decreases pages - i
  {
    if i < pages && !PageFails(j.faults, i) {
      var v1 := RunPage(j, v, i).verdicts;
      var f := FirstFailure(j.faults, i + 1, pages);
      assert RunPages(j, v, i, pages).verdicts == RunPages(j, v1, i + 1, pages).verdicts;
      assert RunPages(j, v1, i + 1, pages).verdicts == CommitPages(j, v1, i + 1, f) by {
        RunPagesVerdicts(j, v1, i + 1, pages);
      }
      assert CommitPages(j, v, i, f) == CommitPages(j, v1, i + 1, f) by {
        FirstFailureBounds(j.faults, i + 1, pages);
      }
    }
  }

  /** The paging loop never releases the row. */
  lemma {:induction false} PagesCallsReleaseFree(j: JobWindow, pc: nat -> seq<Call>, i: nat, pages: nat)
    requires forall m: nat :: ReleaseCount(pc(m)) == 0
    ensures ReleaseCount(PagesCalls(j, pc, i, pages)) == 0
    decreases pages - i
  {
    if i < pages && !PageFails(j.faults, i) {
      PagesCallsReleaseFree(j, pc, i + 1, pages);
      ReleaseCountAppend(pc(i), PagesCalls(j, pc, i + 1, pages));
    }
  }

  /** It fetches pages i, i+1, ... up to and including the first failing page. */
  lemma {:induction false} PagesCallsFetches(j: JobWindow, pc: nat -> seq<Call>, i: nat, pages: nat)
    requires i <= pages
    requires forall m: nat :: Fetches(pc(m)) == [FetchPage(j.from, j.to, PageSize, PageSize * m)]
    ensures Fetches(PagesCalls(j, pc, i, pages)) == FetchCalls(j, i, Min(FirstFailure(j.faults, i, pages) + 1, pages))
    decreases pages - i
  {
    if i < pages {
      var fetch := FetchPage(j.from, j.to, PageSize, PageSize * i);
      if !PageFails(j.faults, i) {
        var rest := PagesCalls(j, pc, i + 1, pages);
        var m := Min(FirstFailure(j.faults, i + 1, pages) + 1, pages);
        assert Fetches(PagesCalls(j, pc, i, pages)) == [fetch] + Fetches(rest) by {
          FetchesAppend(pc(i), rest);
        }
        assert Fetches(rest) == FetchCalls(j, i + 1, m) by {
          PagesCallsFetches(j, pc, i + 1, pages);
        }
        assert FetchCalls(j, i, m) == [fetch] + FetchCalls(j, i + 1, m) by {
          FirstFailureBounds(j.faults, i + 1, pages);
        }
      } else {
        assert FetchCalls(j, i, i + 1) == [fetch] + FetchCalls(j, i + 1, i + 1);
      }
    }
  }

  /** The model inputs of pages i .. k-1, each as its fetch returned it, concatenated. */
  function SentPages(j: JobWindow, i: nat, k: nat): seq<ModelRequest>
    decreases k - i
  {
    if i >= k then [] else ModelInputs(FetchedRows(j, i)) + SentPages(j, i + 1, k)
  }

  /** What the paging loop from page i sends: the pages before the first failure, then what the failing page sent. */
  function SentUpTo(j: JobWindow, i: nat, pages: nat): seq<ModelRequest> {
    var f := FirstFailure(j.faults, i, pages);
    SentPages(j, i, f) + (if f < pages then PageSent(j, f) else [])
  }

  /** A page that succeeds sends its rows and hands over to the next page. */
  lemma SentUpToStep(j: JobWindow, i: nat, pages: nat)
    requires i < pages && !PageFails(j.faults, i)
    ensures SentUpTo(j, i, pages) == PageSent(j, i) + SentUpTo(j, i + 1, pages)
  {
    FirstFailureBounds(j.faults, i + 1, pages);
    var f := FirstFailure(j.faults, i + 1, pages);
    var head, mid := PageSent(j, i), SentPages(j, i + 1, f);
    var tail := if f < pages then PageSent(j, f) else [];
    assert SentPages(j, i, f) == head + mid;
    AppendAssoc(head, mid, tail);
  }

  lemma AppendAssoc<T>(a: seq<T>, b: seq<T>, c: seq<T>)
    ensures (a + b) + c == a + (b + c)
  {
  }

  /** The paging loop sends the model the pages before the first failing page, and that page's rows if it fetched them. */
  lemma {:induction false} PagesCallsPredicted(j: JobWindow, pc: nat -> seq<Call>, i: nat, pages: nat)
    requires i <= pages
    requires forall m: nat :: Predicted(pc(m)) == PageSent(j, m)
    ensures Predicted(PagesCalls(j, pc, i, pages)) == SentUpTo(j, i, pages)
    decreases pages - i
  {
    if i < pages {
      if !PageFails(j.faults, i) {
        PagesCallsPredicted(j, pc, i + 1, pages);
        PredictedAppend(pc(i), PagesCalls(j, pc, i + 1, pages));
        SentUpToStep(j, i, pages);
      } else {
        assert SentUpTo(j, i, pages) == [] + PageSent(j, i);
      }
    } else {
      assert SentUpTo(j, i, pages) == [] + [];
    }
  }

  /** No page of the window came back cut short. */
  predicate PagesComplete(j: JobWindow) {
    forall m :: 0 <= m < PageCount(j) ==> FetchedRows(j, m) == PageRows(j, m)
  }

  /** Pages that came back whole send exactly the window rows they cover. */
  lemma {:induction false} SentPagesWhole(j: JobWindow, i: nat, k: nat)
    requires i <= k
    requires forall m :: i <= m < k ==> FetchedRows(j, m) == PageRows(j, m)
    ensures SentPages(j, i, k) == ModelInputs(ConcatPages(j.rows, PageSize, i, k))
    decreases k - i
  {
    if i < k {
      SentPagesWhole(j, i + 1, k);
      ModelInputsAppend(PageRows(j, i), ConcatPages(j.rows, PageSize, i + 1, k));
    }
  }

  /** Every step succeeded and no page was cut short: the model was sent the whole window. */
  lemma WholeRunSendsWindow(j: JobWindow)
    requires AllSucceeded(j) && PagesComplete(j)
    ensures SentUpTo(j, 0, PageCount(j)) == ModelInputs(j.rows)
  {
    var k := PageCount(j);
    FirstFailureFacts(j.faults, 0, k);
    SentPagesWhole(j, 0, k);
    ConcatPagesRange(j.rows, PageSize, 0, k);
    CeilDivCovers(|j.rows|, PageSize);
    assert j.rows[0..|j.rows|] == j.rows;
    assert SentUpTo(j, 0, k) == SentPages(j, 0, k) + [];
  }

  /** The paging loop's trace: the fetches and model calls of the pages up to the first failure, and no release. */
  lemma RunPagesTrace(j: JobWindow, v: map<string, StoredVerdict>, i: nat, pages: nat)
    requires i <= pages
    ensures var r := RunPages(j, v, i, pages);
      && Fetches(r.calls) == FetchCalls(j, i, Min(FirstFailure(j.faults, i, pages) + 1, pages))
      && Predicted(r.calls) == SentUpTo(j, i, pages)
      && ReleaseCount(r.calls) == 0
  {
    RunPagesCalls(j, v, i, pages);
    PageCallsOfTrace(j);
    PagesCallsFetches(j, PageCallsOf(j), i, pages);
    PagesCallsPredicted(j, PageCallsOf(j), i, pages);
    PagesCallsReleaseFree(j, PageCallsOf(j), i, pages);
  }

  /** A window with at least one request and a successful count: the paging loop over all its pages. */
  lemma PagedWindowFacts(j: JobWindow, v: map<string, StoredVerdict>)
    requires !j.faults.countFails && RequestCount(j) != 0
    ensures var w := ProcessWindowSpec(j, v);
      && w.newTs == (if AllSucceeded(j) then Some(j.to) else None)
      && w.verdicts == CommitPages(j, v, 0, FirstFailure(j.faults, 0, PageCount(j)))
      && Fetches(w.calls) == FetchCalls(j, 0, Min(FirstFailure(j.faults, 0, PageCount(j)) + 1, PageCount(j)))
      && Predicted(w.calls) == SentUpTo(j, 0, PageCount(j))
  {
    var count := CountWindow(j.from, j.to);
    var k := PageCount(j);
    var r := RunPages(j, v, 0, k);
    var w := ProcessWindowSpec(j, v);
    assert w.calls == [count] + r.calls;
    assert Fetches(w.calls) == Fetches(r.calls) && Predicted(w.calls) == Predicted(r.calls) by {
      Single(count);
      TraceAppend([count], r.calls);
    }
    RunPagesOk(j, v, 0, k);
    FirstFailureFacts(j.faults, 0, k);
    RunPagesVerdicts(j, v, 0, k);
    RunPagesTrace(j, v, 0, k);
  }

  /** The window's calls start with the count and never release the row. */
  lemma WindowReleaseFree(j: JobWindow, v: map<string, StoredVerdict>)
    ensures var w := ProcessWindowSpec(j, v);
      && |w.calls| >= 1 && w.calls[0] == CountWindow(j.from, j.to)
      && ReleaseCount(w.calls) == 0
  {
    var count := CountWindow(j.from, j.to);
    Single(count);
    if !j.faults.countFails && RequestCount(j) != 0 {
      var r := RunPages(j, v, 0, PageCount(j));
      RunPagesCalls(j, v, 0, PageCount(j));
      PageCallsOfTrace(j);
      PagesCallsReleaseFree(j, PageCallsOf(j), 0, PageCount(j));
      ReleaseCountAppend([count], r.calls);
    }
  }

  /** The count and the paging loop together, as the release sees them. */
  lemma WindowFacts(j: JobWindow, v: map<string, StoredVerdict>)
    ensures var w := ProcessWindowSpec(j, v);
      && ReleaseCount(w.calls) == 0
      && w.newTs == (if AllSucceeded(j) then Some(j.to) else None)
      && w.verdicts == (if j.faults.countFails then v else CommitPages(j, v, 0, FirstFailure(j.faults, 0, PageCount(j))))
      && Fetches(w.calls) == (if j.faults.countFails then []
                              else FetchCalls(j, 0, Min(FirstFailure(j.faults, 0, PageCount(j)) + 1, PageCount(j))))
      && Predicted(w.calls) == (if j.faults.countFails then [] else SentUpTo(j, 0, PageCount(j)))
  {
    WindowReleaseFree(j, v);
    Single(CountWindow(j.from, j.to));
    if !j.faults.countFails {
      if RequestCount(j) != 0 {
        PagedWindowFacts(j, v);
      } else {
        assert PageCount(j) == 0;
        FirstFailureFacts(j.faults, 0, 0);
        assert j.rows == [];
        assert SentUpTo(j, 0, 0) == [] + [];
      }
    }
  }

  /** The calls a started run wraps around the window's calls `wc`, and the release with `t`. */
  lemma FrameTrace(wc: seq<Call>, t: Option<Time>)
    ensures ReleaseCount([ReadState, SetActive] + wc + [SetInactive(t)]) == ReleaseCount(wc) + 1
    ensures Fetches([ReadState, SetActive] + wc + [SetInactive(t)]) == Fetches(wc)
    ensures Predicted([ReadState, SetActive] + wc + [SetInactive(t)]) == Predicted(wc)
    ensures var calls := [ReadState, SetActive] + wc + [SetInactive(t)];
      |calls| == |wc| + 3 && calls[..2] == [ReadState, SetActive] && calls[|calls| - 1] == SetInactive(t)
  {
    Single(ReadState);
    Single(SetActive);
    Single(SetInactive(t));
    TraceAppend([ReadState], [SetActive]);
    assert [ReadState] + [SetActive] == [ReadState, SetActive];
    TraceAppend([ReadState, SetActive], wc);
    TraceAppend([ReadState, SetActive] + wc, [SetInactive(t)]);
  }

  /** A started run's trace: read, activate, the window's calls, then the release. */
  lemma StartedTrace(s0: CheckpointState, table: seq<Request>, v0: map<string, StoredVerdict>, now: Time, faults: Faults, predict: Predictor)
    requires Started(s0, faults)
    ensures var e := Expected(s0, table, v0, now, faults, predict);
      var w := ProcessWindowSpec(WindowOf(s0, table, now, faults, predict), v0);
      && e.calls == [ReadState, SetActive] + w.calls + [SetInactive(w.newTs)]
      && ReleaseCount(e.calls) == ReleaseCount(w.calls) + 1
      && Fetches(e.calls) == Fetches(w.calls)
      && Predicted(e.calls) == Predicted(w.calls)
  {
    var w := ProcessWindowSpec(WindowOf(s0, table, now, faults, predict), v0);
    FrameTrace(w.calls, w.newTs);
  }

  /**
   * A failed checkpoint read, an active row, or a failed activation end the run at once:
   * the row and the verdicts are unchanged, only "already active" returns true, and the
   * row is never released.
   */
  lemma EarlyExits(s0: CheckpointState, table: seq<Request>, v0: map<string, StoredVerdict>, now: Time, faults: Faults, predict: Predictor)
    requires !Started(s0, faults)
    ensures var e := Expected(s0, table, v0, now, faults, predict);
      && e.checkpoint == s0 && e.verdicts == v0
      && ReleaseCount(e.calls) == 0
      && (e.alreadyActive <==> !faults.readFails && s0.isActive)
      && e.calls == (if faults.readFails || s0.isActive then [ReadState] else [ReadState, SetActive])
  {
    var e := Expected(s0, table, v0, now, faults, predict);
    assert ReleaseCount(e.calls[1..]) == 0;
  }

  /**
   * Once the activation succeeded, the row is released exactly once, as the last call, and
   * the first two calls are the read and the activation.
   */
  lemma ReleaseExactlyOnce(s0: CheckpointState, table: seq<Request>, v0: map<string, StoredVerdict>, now: Time, faults: Faults, predict: Predictor)
    requires Started(s0, faults)
    ensures var e := Expected(s0, table, v0, now, faults, predict);
      && !e.alreadyActive
      && |e.calls| >= 4
      && e.calls[..2] == [ReadState, SetActive]
      && e.calls[|e.calls| - 1].SetInactive?
      && ReleaseCount(e.calls) == 1
  {
    var w := ProcessWindowSpec(WindowOf(s0, table, now, faults, predict), v0);
    assert Expected(s0, table, v0, now, faults, predict) == Activated(s0, w, faults.releaseFails);
    WindowReleaseFree(WindowOf(s0, table, now, faults, predict), v0);
    FrameTrace(w.calls, w.newTs);
  }

  /**
   * The release passes `now` iff the count and every page succeeded, and nil otherwise.
   * The watermark therefore advances to `now` iff every step succeeded (and the release
   * itself went through); a failed release leaves the row active with its old watermark.
   */
  lemma WatermarkAdvancesIffAllSucceeded(s0: CheckpointState, table: seq<Request>, v0: map<string, StoredVerdict>, now: Time, faults: Faults, predict: Predictor)
    requires Started(s0, faults)
    ensures var e := Expected(s0, table, v0, now, faults, predict);
      var j := WindowOf(s0, table, now, faults, predict);
      && e.calls[|e.calls| - 1] == SetInactive(if AllSucceeded(j) then Some(now) else None)
      && e.checkpoint == (if faults.releaseFails then CheckpointState(s0.ts, true)
                          else CheckpointState(if AllSucceeded(j) then now else s0.ts, false))
  {
    WindowFacts(WindowOf(s0, table, now, faults, predict), v0);
  }

  /**
   * Nothing closed in the window: no page is fetched, the model is not called, the
   * verdicts are untouched, and the watermark still advances to `now`.
   */
  lemma ZeroCountAdvances(s0: CheckpointState, table: seq<Request>, v0: map<string, StoredVerdict>, now: Time, faults: Faults, predict: Predictor)
    requires Started(s0, faults) && !faults.countFails
    requires |Candidates(table, s0.ts, now)| == 0
    ensures var e := Expected(s0, table, v0, now, faults, predict);
      && e.calls == [ReadState, SetActive, CountWindow(s0.ts, now), SetInactive(Some(now))]
      && e.verdicts == v0
      && (!faults.releaseFails ==> e.checkpoint == CheckpointState(now, false))
  {
    SortCorrect(Candidates(table, s0.ts, now));
  }

  /**
   * The loop fetches pages 0, 1, ... in order with window [watermark, now], limit 20000
   * and offset 20000 * page, where the watermark is what the activation returned; it runs
   * ceil(count / 20000) times unless a page fails, and the failing page is the last one fetched.
   */
  lemma PagesFetched(s0: CheckpointState, table: seq<Request>, v0: map<string, StoredVerdict>, now: Time, faults: Faults, predict: Predictor)
    requires Started(s0, faults) && !faults.countFails
    ensures var e := Expected(s0, table, v0, now, faults, predict);
      var j := WindowOf(s0, table, now, faults, predict);
      Fetches(e.calls) == FetchCalls(j, 0, Min(FirstFailure(faults, 0, PageCount(j)) + 1, PageCount(j)))
  {
    WindowFacts(WindowOf(s0, table, now, faults, predict), v0);
    StartedTrace(s0, table, v0, now, faults, predict);
  }

  /**
   * The first failing page stops the loop: the verdicts are those of the pages before it,
   * upserted in order, and no later page is upserted. The model is sent the pages before
   * it and, unless its fetch failed, the failing page's rows, and no later page. A failed
   * count changes no verdict and sends nothing.
   */
  lemma FirstFailureStops(s0: CheckpointState, table: seq<Request>, v0: map<string, StoredVerdict>, now: Time, faults: Faults, predict: Predictor)
    requires Started(s0, faults)
    ensures var e := Expected(s0, table, v0, now, faults, predict);
      var j := WindowOf(s0, table, now, faults, predict);
      var f := FirstFailure(faults, 0, PageCount(j));
      && e.verdicts == (if faults.countFails then v0 else CommitPages(j, v0, 0, f))
      && Predicted(e.calls) == (if faults.countFails then []
                                else SentPages(j, 0, f) + (if f < PageCount(j) && f !in faults.fetchFails
                                                           then ModelInputs(FetchedRows(j, f)) else []))
  {
    WindowFacts(WindowOf(s0, table, now, faults, predict), v0);
    StartedTrace(s0, table, v0, now, faults, predict);
  }

  /**
   * On full success, and when no page came back cut short by an unreported streaming error,
   * the model has been sent every request of the window once, in root_id order.
   */
  lemma FullSuccessCoversWindow(s0: CheckpointState, table: seq<Request>, v0: map<string, StoredVerdict>, now: Time, faults: Faults, predict: Predictor)
    requires Started(s0, faults)
    requires AllSucceeded(WindowOf(s0, table, now, faults, predict))
    requires PagesComplete(WindowOf(s0, table, now, faults, predict))
    ensures var e := Expected(s0, table, v0, now, faults, predict);
      Predicted(e.calls) == ModelInputs(Window(table, s0.ts, now))
  {
    var j := WindowOf(s0, table, now, faults, predict);
    WindowFacts(j, v0);
    StartedTrace(s0, table, v0, now, faults, predict);
    WholeRunSendsWindow(j);
  }

  /**
   * The page query as written: a one-page window whose streaming fails after n of its rows.
   * The job sees no error, sends only n rows to the model, and still moves the watermark to
   * `now`, so the remaining rows of the window are never scored.
   */
  lemma SilentCutAdvancesWatermark(s0: CheckpointState, table: seq<Request>, v0: map<string, StoredVerdict>, now: Time, faults: Faults, predict: Predictor)
    requires Started(s0, faults) && !faults.releaseFails
    requires AllSucceeded(WindowOf(s0, table, now, faults, predict))
    requires |Window(table, s0.ts, now)| <= PageSize
    requires 0 in faults.fetchCut && faults.fetchCut[0] < |Window(table, s0.ts, now)|
    ensures var e := Expected(s0, table, v0, now, faults, predict);
      && e.calls[|e.calls| - 1] == SetInactive(Some(now))
      && e.checkpoint == CheckpointState(now, false)
      && |Predicted(e.calls)| == faults.fetchCut[0] < |Window(table, s0.ts, now)|
  {
    var j := WindowOf(s0, table, now, faults, predict);
    WatermarkAdvancesIffAllSucceeded(s0, table, v0, now, faults, predict);
    FirstFailureStops(s0, table, v0, now, faults, predict);
    assert PageCount(j) == 1;
    FirstFailureFacts(faults, 0, 1);
    assert SentPages(j, 0, 1) == ModelInputs(FetchedRows(j, 0)) + [];
    assert |PageRows(j, 0)| == |j.rows|;
  }

  /**
   * The faults as a job that checks `rows.Err()` after each page would meet them: a page
   * whose streaming failed is a failed fetch, and no page comes back cut short.
   */
  function CheckedFaults(faults: Faults): (c: Faults)
    ensures c.fetchCut == map[]
    ensures forall i :: i in c.fetchFails <==> i in faults.fetchFails || i in faults.fetchCut
  {
    faults.(fetchFails := faults.fetchFails + faults.fetchCut.Keys, fetchCut := map[])
  }

  /** The checked page query under the faults is the query as written under CheckedFaults: same success, same rows. */
  lemma CheckedFetchAgrees(table: seq<Request>, from: Time, to: Time, offset: nat, faults: Faults, i: nat)
    ensures var checked := GetRequestsByClosureTimeChecked(table, from, to, PageSize, offset, FetchFault(faults, i));
      var written := GetRequestsByClosureTime(table, from, to, PageSize, offset, FetchFault(CheckedFaults(faults), i));
      && (checked.Success? <==> written.Success?)
      && (checked.Success? ==> checked.value == written.value)
  {
  }

  /**
   * The job with `rows.Err()` checked: whenever the release passes `now`, the model has been
   * sent every request of the window once, in root_id order, whatever the faults were.
   */
  lemma CheckedFullSuccessCoversWindow(s0: CheckpointState, table: seq<Request>, v0: map<string, StoredVerdict>, now: Time, faults: Faults, predict: Predictor)
    requires Started(s0, faults)
    ensures var e := Expected(s0, table, v0, now, CheckedFaults(faults), predict);
      e.calls[|e.calls| - 1] == SetInactive(Some(now)) ==> Predicted(e.calls) == ModelInputs(Window(table, s0.ts, now))
  {
    var c := CheckedFaults(faults);
    var j := WindowOf(s0, table, now, c, predict);
    WatermarkAdvancesIffAllSucceeded(s0, table, v0, now, c, predict);
    if AllSucceeded(j) {
      FullSuccessCoversWindow(s0, table, v0, now, c, predict);
    }
  }
}
