/**
 * usecase/enrichRequestsWithAnomaliesUsecase.go: the daily batch job that scores newly
 * closed requests. One run reads the checkpoint row, gives up if another run holds it,
 * takes it, counts the requests closed in [watermark, now], walks them in pages of
 * 20000 (predict, then upsert each page), and in a deferred call releases the row,
 * advancing the watermark to `now` only when no step failed.
 */
module Enrichment {
  import opened Wrappers
  import opened Timestamps
  import opened LastAnomalyCheckJob
  import opened RequestSource
  import opened AnomalyStore

  /** maxPaginationLimit. */
  const PageSize: nat := 20000

  /** dto.GetAnomalyFromModelRequestDto: a conversion of entity.Request, so the same fields. */
  datatype ModelRequest = ModelRequest(
    rootId: string,
    closureDate: Option<Time>,
    previousClosure: Option<Time>,
    attributes: seq<string>)

  /** dto.GetAnomalyFromModelResponseDto: a conversion of entity.RequestAnomaly, so the same fields. */
  datatype ModelResponse = ModelResponse(
    rootId: string,
    isAnomaly: bool,
    anomalyCases: seq<int>,
    isCustom: bool,
    netProbability: Option<real>)

  /** The prediction service's answer to a batch (the HTTP call itself is not modelled). */
  type Predictor = seq<ModelRequest> -> seq<ModelResponse>

  function ToModelRequest(r: Request): ModelRequest {
    ModelRequest(r.rootId, r.closureDate, r.previousClosure, r.attributes)
  }

  function FromModelRequest(d: ModelRequest): Request {
    Request(d.rootId, d.closureDate, d.previousClosure, d.attributes)
  }

  function ToRequestAnomaly(d: ModelResponse): RequestAnomaly {
    RequestAnomaly(d.rootId, d.isAnomaly, d.anomalyCases, d.isCustom, d.netProbability)
  }

  function FromRequestAnomaly(a: RequestAnomaly): ModelResponse {
    ModelResponse(a.rootId, a.isAnomaly, a.anomalyCases, a.isCustom, a.netProbability)
  }

  /** The element conversions lose nothing: each is undone by its inverse, both ways round. */
  lemma ConversionsAreInverse(r: Request, d: ModelRequest, a: RequestAnomaly, p: ModelResponse)
    ensures FromModelRequest(ToModelRequest(r)) == r && ToModelRequest(FromModelRequest(d)) == d
    ensures FromRequestAnomaly(ToRequestAnomaly(p)) == p && ToRequestAnomaly(FromRequestAnomaly(a)) == a
  {
  }

  /** The batch sent to the model for a page of requests. */
  function ModelInputs(es: seq<Request>): (ds: seq<ModelRequest>)
    ensures |ds| == |es|
  {
    seq(|es|, i requires 0 <= i < |es| => ToModelRequest(es[i]))
  }

  /** The verdicts upserted for a model answer. */
  function Verdicts(ds: seq<ModelResponse>): (es: seq<RequestAnomaly>)
    ensures |es| == |ds|
  {
    seq(|ds|, i requires 0 <= i < |ds| => ToRequestAnomaly(ds[i]))
  }

  lemma ModelInputsAppend(a: seq<Request>, b: seq<Request>)
    ensures ModelInputs(a + b) == ModelInputs(a) + ModelInputs(b)
  {
  }

  /** requestEntitiesToDtos: a preallocated slice filled index by index. */
  method RequestEntitiesToDtos(es: seq<Request>) returns (dtos: seq<ModelRequest>)
    ensures |dtos| == |es|
    ensures forall i :: 0 <= i < |es| ==> FromModelRequest(dtos[i]) == es[i]
    ensures dtos == ModelInputs(es)
  {
    var a := new ModelRequest[|es|];
    for i := 0 to |es|
      invariant forall k :: 0 <= k < i ==> a[k] == ToModelRequest(es[k])
    {
      a[i] := ToModelRequest(es[i]);
    }
    dtos := a[..];
  }

  /** responseDtosToEntities: a preallocated slice filled index by index. */
  method ResponseDtosToEntities(dtos: seq<ModelResponse>) returns (es: seq<RequestAnomaly>)
    ensures |es| == |dtos|
    ensures forall i :: 0 <= i < |dtos| ==> FromRequestAnomaly(es[i]) == dtos[i]
    ensures es == Verdicts(dtos)
  {
    var a := new RequestAnomaly[|dtos|];
    for i := 0 to |dtos|
      invariant forall k :: 0 <= k < i ==> a[k] == ToRequestAnomaly(dtos[k])
    {
      a[i] := ToRequestAnomaly(dtos[i]);
    }
    es := a[..];
  }

  /**
   * Which calls to the collaborators fail in one run: the checkpoint read, the activation,
   * the release and the count, and the page indices at which the fetch, the prediction or
   * the upsert transaction fails. `fetchCut` maps a page index to the number of rows read
   * before an error ended the streaming of that page, an error the page query does not report.
   */
  datatype Faults = Faults(
    readFails: bool,
    activateFails: bool,
    countFails: bool,
    releaseFails: bool,
    fetchFails: set<nat>,
    fetchCut: map<nat, nat>,
    predictFails: set<nat>,
    upsertFails: set<nat>)

  predicate PageFails(faults: Faults, i: nat) {
    i in faults.fetchFails || i in faults.predictFails || i in faults.upsertFails
  }

  /** One call made by a run to the checkpoint row, the request source, the model or the store. */
  datatype Call =
    | ReadState
    | SetActive
    | CountWindow(from: Time, to: Time)
    | FetchPage(from: Time, to: Time, limit: int, offset: int)
    | Predict(inputs: seq<ModelRequest>)
    | Upsert(batch: seq<RequestAnomaly>)
    | SetInactive(newTs: Option<Time>)

  /**
   * What one run works on: the ordered rows the page query sees for [from, to] (the table
   * does not change during a run), its faults and the model's answers.
   */
  datatype JobWindow = JobWindow(rows: seq<Request>, from: Time, to: Time, faults: Faults, predict: Predictor)

  /** How the fetch of page i ends. */
  function FetchFault(faults: Faults, i: nat): QueryFault {
    if i in faults.fetchFails then QueryFails
    else if i in faults.fetchCut then Interrupted(faults.fetchCut[i])
    else NoFault
  }

  /** The rows of page i of the window. */
  function PageRows(j: JobWindow, i: nat): seq<Request> {
    Slice(j.rows, PageSize, PageSize * i)
  }

  /**
   * The rows the fetch of page i returns when it reports no error: the page, or, when its
   * streaming was cut after n rows, its first n rows (the page with limit min(n, 20000)).
   */
  function FetchedRows(j: JobWindow, i: nat): seq<Request> {
    var limit := if i in j.faults.fetchCut then Min(j.faults.fetchCut[i], PageSize) else PageSize;
    Slice(j.rows, limit, PageSize * i)
  }

  /** The verdicts upserted for page i, when fetch and prediction succeed. */
  function PageBatch(j: JobWindow, i: nat): seq<RequestAnomaly> {
    Verdicts(j.predict(ModelInputs(FetchedRows(j, i))))
  }

  datatype PagesOutcome = PagesOutcome(verdicts: map<string, StoredVerdict>, calls: seq<Call>, ok: bool)

  /** The calls of one iteration of the paging loop: fetch page i, predict it, upsert its verdicts, up to the first failing step. */
  function PageCalls(j: JobWindow, i: nat): seq<Call> {
    var fetch := FetchPage(j.from, j.to, PageSize, PageSize * i);
    if i in j.faults.fetchFails then [fetch]
    else
      var inputs := ModelInputs(FetchedRows(j, i));
      if i in j.faults.predictFails then [fetch, Predict(inputs)]
      else [fetch, Predict(inputs), Upsert(PageBatch(j, i))]
  }

  /** One iteration of the paging loop; only a page whose every step succeeds commits its verdicts. */
  function RunPage(j: JobWindow, v: map<string, StoredVerdict>, i: nat): PagesOutcome {
    if PageFails(j.faults, i) then PagesOutcome(v, PageCalls(j, i), false)
    else PagesOutcome(UpsertAll(v, PageBatch(j, i)), PageCalls(j, i), true)
  }

  /** The paging loop from page i on, starting from verdict table v; the first failing page ends it. */
  function RunPages(j: JobWindow, v: map<string, StoredVerdict>, i: nat, pages: nat): PagesOutcome
    decreases pages - i
  {
    if i >= pages then PagesOutcome(v, [], true)
    else
      var p := RunPage(j, v, i);
      if !p.ok then p
      else
        var rest := RunPages(j, p.verdicts, i + 1, pages);
        PagesOutcome(rest.verdicts, p.calls + rest.calls, rest.ok)
  }

  datatype WindowOutcome = WindowOutcome(newTs: Option<Time>, verdicts: map<string, StoredVerdict>, calls: seq<Call>)

  /** Number of requests in the window and number of pages. */
  function RequestCount(j: JobWindow): nat {
    |j.rows|
  }

  function PageCount(j: JobWindow): nat {
    CeilDiv(RequestCount(j), PageSize)
  }

  /** Everything after the deferred release is registered: count, then the pages. */
  function ProcessWindowSpec(j: JobWindow, v: map<string, StoredVerdict>): WindowOutcome {
    var count := CountWindow(j.from, j.to);
    if j.faults.countFails then WindowOutcome(None, v, [count])
    else if RequestCount(j) == 0 then WindowOutcome(Some(j.to), v, [count])
    else
      var r := RunPages(j, v, 0, PageCount(j));
      WindowOutcome(if r.ok then Some(j.to) else None, r.verdicts, [count] + r.calls)
  }

  datatype ExecuteOutcome = ExecuteOutcome(
    alreadyActive: bool,
    checkpoint: CheckpointState,
    verdicts: map<string, StoredVerdict>,
    calls: seq<Call>)

  /** A run took the checkpoint row: its read and its activation succeeded and it was not active. */
  predicate Started(s0: CheckpointState, faults: Faults) {
    !faults.readFails && !s0.isActive && !faults.activateFails
  }

  /** The window a run that started from checkpoint s0 at time now works on. */
  function WindowOf(s0: CheckpointState, table: seq<Request>, now: Time, faults: Faults, predict: Predictor): JobWindow {
    JobWindow(Window(table, s0.ts, now), s0.ts, now, faults, predict)
  }

  /** The whole of Execute, from the checkpoint row s0 and the verdict table v0. */
  function Expected(s0: CheckpointState, table: seq<Request>, v0: map<string, StoredVerdict>, now: Time, faults: Faults, predict: Predictor): ExecuteOutcome {
    if faults.readFails then ExecuteOutcome(false, s0, v0, [ReadState])
    else if s0.isActive then ExecuteOutcome(true, s0, v0, [ReadState])
    else if faults.activateFails then ExecuteOutcome(false, s0, v0, [ReadState, SetActive])
    else Activated(s0, ProcessWindowSpec(WindowOf(s0, table, now, faults, predict), v0), faults.releaseFails)
  }

  /** The outcome once the flag was raised: the window `w` was processed and the deferred release ran. */
  function Activated(s0: CheckpointState, w: WindowOutcome, releaseFails: bool): ExecuteOutcome {
    var s1 := MarkActive(s0);
    var s2 := if releaseFails then s1 else MarkInactive(s1, w.newTs);
    ExecuteOutcome(false, s2, w.verdicts, [ReadState, SetActive] + w.calls + [SetInactive(w.newTs)])
  }

  class EnrichRequestsWithAnomalies {
    const checkpoint: CheckpointRow
    const store: AnomalyStore
    /** The `requests` table the request source reads; the job never writes it. */
    const requests: seq<Request>

    constructor (checkpoint: CheckpointRow, store: AnomalyStore, requests: seq<Request>)
      ensures this.checkpoint == checkpoint && this.store == store && this.requests == requests
    {
      this.checkpoint := checkpoint;
      this.store := store;
      this.requests := requests;
    }

    /** The body of the paging loop for page i; false where the Go loop breaks. */
    method ProcessPage(from: Time, to: Time, i: nat, faults: Faults, predict: Predictor) returns (ok: bool, calls: seq<Call>)
      modifies store
      ensures store.custom == old(store.custom)
      ensures var p := RunPage(JobWindow(Window(requests, from, to), from, to, faults, predict), old(store.verdicts), i);
        ok == p.ok && calls == p.calls && store.verdicts == p.verdicts
    {
      var offset := PageSize * i;
      calls := [FetchPage(from, to, PageSize, offset)];
      ghost var j := JobWindow(Window(requests, from, to), from, to, faults, predict);
      var reqs := GetRequestsByClosureTime(requests, from, to, PageSize, offset, FetchFault(faults, i));
      if reqs.Failure? {
        assert i in faults.fetchFails;
        return false, calls;
      }
      if i in faults.fetchCut {
        PrefixOfSlice(j.rows, PageSize, offset, faults.fetchCut[i]);
      }
      assert reqs.value == FetchedRows(j, i);
      var inputs := RequestEntitiesToDtos(reqs.value);
      calls := calls + [Predict(inputs)];
      if i in faults.predictFails {
        return false, calls;
      }
      var predictions := predict(inputs);
      var batch := ResponseDtosToEntities(predictions);
      calls := calls + [Upsert(batch)];
      var err := store.UpsertAnomalies(batch, if i in faults.upsertFails then CommitFails else TxOk);
      ok := err.None?;
    }

    /**
     * The statements of Execute after the deferred release is registered. The result is the
     * value of `t2` when the body returns: `to` unless a step failed, nil otherwise.
     */
    method ProcessWindow(from: Time, to: Time, faults: Faults, predict: Predictor) returns (t2: Option<Time>, calls: seq<Call>)
      modifies store
      ensures store.custom == old(store.custom)
      ensures var w := ProcessWindowSpec(JobWindow(Window(requests, from, to), from, to, faults, predict), old(store.verdicts));
        t2 == w.newTs && store.verdicts == w.verdicts && calls == w.calls
    {
      ghost var rows := Window(requests, from, to);
      ghost var j := JobWindow(rows, from, to, faults, predict);
      t2 := Some(to);
      calls := [CountWindow(from, to)];
      var reqCount := CountRequestsByClosureTime(requests, from, to, faults.countFails);
      if reqCount.Failure? {
        t2 := None;
        return;
      }
      if reqCount.value == 0 {
        return;
      }
      assert reqCount.value == |rows| == RequestCount(j);
      var pages := CeilDiv(reqCount.value, PageSize);
      assert pages == PageCount(j);
      ghost var total := RunPages(j, store.verdicts, 0, pages);
      var i := 0;
      while i < pages
        invariant 0 <= i <= pages
        invariant t2 == Some(to)
        invariant store.custom == old(store.custom)
        invariant var rest := RunPages(j, store.verdicts, i, pages);
          && rest.verdicts == total.verdicts
          && rest.ok == total.ok
          && calls + rest.calls == [CountWindow(from, to)] + total.calls
      {
        var ok, pageCalls := ProcessPage(from, to, i, faults, predict);
        calls := calls + pageCalls;
        if !ok {
          t2 := None;
          break;
        }
        i := i + 1;
      }
    }

    /**
     * Execute. `now` is taken before the checkpoint is read. The read, the check of the flag
     * and the activation are separate steps. Once the activation succeeded the release runs
     * exactly once, after the window is processed, with `now` or with nil.
     */
    method Execute(now: Time, faults: Faults, predict: Predictor) returns (alreadyActive: bool, calls: seq<Call>)
      modifies checkpoint, store
      ensures store.custom == old(store.custom)
      ensures ExecuteOutcome(alreadyActive, checkpoint.State(), store.verdicts, calls)
           == Expected(old(checkpoint.State()), requests, old(store.verdicts), now, faults, predict)
    {
      ghost var s0 := checkpoint.State();
      ghost var v0 := store.verdicts;
      var t2: Option<Time> := Some(now);
      calls := [ReadState];
      var ts0, isActive, err := checkpoint.GetLastTimestamp(faults.readFails);
      if err.Some? {
        assert checkpoint.State() == s0 && store.verdicts == v0;
        return false, calls;
      }
      assert !faults.readFails && isActive == s0.isActive;
      if isActive {
        assert checkpoint.State() == s0 && store.verdicts == v0;
        return true, calls;
      }
      calls := [ReadState, SetActive];
      var lastJobTime, err2 := checkpoint.SetJobAsActive(faults.activateFails);
      if err2.Some? {
        assert checkpoint.State() == s0 && store.verdicts == v0;
        return false, calls;
      }
      assert lastJobTime == s0.ts && checkpoint.State() == MarkActive(s0) && store.verdicts == v0;
      ghost var w := ProcessWindowSpec(WindowOf(s0, requests, now, faults, predict), v0);
      var windowCalls;
      t2, windowCalls := ProcessWindow(lastJobTime, now, faults, predict);
      assert t2 == w.newTs && windowCalls == w.calls && store.verdicts == w.verdicts;
      // the deferred release
      calls := calls + windowCalls + [SetInactive(t2)];
      var releasedTs, err3 := checkpoint.SetJobAsInactive(t2, faults.releaseFails);
      alreadyActive := false;
      assert ExecuteOutcome(alreadyActive, checkpoint.State(), store.verdicts, calls) == Activated(s0, w, faults.releaseFails);
    }
  }
}
