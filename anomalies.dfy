/**
 * usecase/repository/requestAnomaliesPostgresRepository.go, the non-aggregate part:
 * the model verdicts table `requests_anomalies` and the operator override table
 * `custom_requests_anomalies`, both keyed by `root_id`.
 */
module AnomalyStore {
  import opened Wrappers

  /** entity.RequestAnomaly: a verdict as produced by the model or returned to the dashboard. */
  datatype RequestAnomaly = RequestAnomaly(
    rootId: string,
    isAnomaly: bool,
    anomalyCases: seq<int>,
    isCustom: bool,
    netProbability: Option<real>)

  /** The non-key columns of a `requests_anomalies` row. */
  datatype StoredVerdict = StoredVerdict(isAnomaly: bool, anomalyCases: seq<int>, netProbability: Option<real>)

  /** How a transaction ends: committed, or failing at begin, at the batch close or at the commit. */
  datatype TxFault = TxOk | BeginFails | CloseFails | CommitFails

  /**
   * How the joined read ends: normally, with an error from the query call, with a failed row
   * scan, or with an error while the rows are streamed after the keys in `delivered` arrived.
   * A scan runs only on a row that `rows.Next()` delivered, so `ReadScanFails` stands for a read
   * that selected at least one row; the model does not check that.
   */
  datatype ReadFault = ReadOk | ReadQueryFails | ReadScanFails | ReadInterrupted(delivered: set<string>)

  datatype StoreError =
    | TxStartFailed
    | BatchCloseFailed
    | CommitFailed
    | ArgumentCountMismatch(expected: nat, got: nat)
    | ExecFailed

  /** The columns `upsertAnomalyStmt` writes for one entry: `is_custom` is not among them. */
  function Row(a: RequestAnomaly): StoredVerdict {
    StoredVerdict(a.isAnomaly, a.anomalyCases, a.netProbability)
  }

  /** `INSERT ... ON CONFLICT (root_id) DO UPDATE SET ...` for each entry, in batch order. */
  function UpsertAll(m: map<string, StoredVerdict>, batch: seq<RequestAnomaly>): map<string, StoredVerdict> {
    if batch == [] then m
    else
      var last := batch[|batch| - 1];
      UpsertAll(m, batch[..|batch| - 1])[last.rootId := Row(last)]
  }

  /** The keys a batch mentions. */
  function BatchIds(batch: seq<RequestAnomaly>): (ids: set<string>)
    ensures forall j :: 0 <= j < |batch| ==> batch[j].rootId in ids
    ensures forall id :: id in ids ==> exists j :: 0 <= j < |batch| && batch[j].rootId == id
  {
    if batch == [] then {}
    else BatchIds(batch[..|batch| - 1]) + {batch[|batch| - 1].rootId}
  }

  /** The position of the last entry of the batch with key `id`. */
  function LastIndex(batch: seq<RequestAnomaly>, id: string): (j: nat)
    requires id in BatchIds(batch)
    ensures j < |batch| && batch[j].rootId == id
    ensures forall k :: j < k < |batch| ==> batch[k].rootId != id
  {
    if batch[|batch| - 1].rootId == id then |batch| - 1
    else LastIndex(batch[..|batch| - 1], id)
  }

  /**
   * After an upsert every key of the batch holds the row of its LAST entry (last writer
   * wins, and the old row is fully replaced, never merged); every other row is unchanged.
   */
  lemma {:induction false} UpsertAllAt(m: map<string, StoredVerdict>, batch: seq<RequestAnomaly>)
    ensures UpsertAll(m, batch).Keys == m.Keys + BatchIds(batch)
    ensures forall id :: id in BatchIds(batch) ==> UpsertAll(m, batch)[id] == Row(batch[LastIndex(batch, id)])
    ensures forall id :: id in m && id !in BatchIds(batch) ==> UpsertAll(m, batch)[id] == m[id]
  {
    if batch != [] {
      var init := batch[..|batch| - 1];
      UpsertAllAt(m, init);
      forall id | id in BatchIds(batch)
        ensures UpsertAll(m, batch)[id] == Row(batch[LastIndex(batch, id)])
      {
        if batch[|batch| - 1].rootId != id {
          assert id in BatchIds(init);
          assert LastIndex(batch, id) == LastIndex(init, id);
        }
      }
    }
  }

  /** Upserting the same batch twice leaves the same table as upserting it once. */
  lemma UpsertAllIdempotent(m: map<string, StoredVerdict>, batch: seq<RequestAnomaly>)
    ensures UpsertAll(UpsertAll(m, batch), batch) == UpsertAll(m, batch)
  {
    var once := UpsertAll(m, batch);
    UpsertAllAt(m, batch);
    UpsertAllAt(once, batch);
    var twice := UpsertAll(once, batch);
    assert twice.Keys == once.Keys;
    forall id | id in once ensures twice[id] == once[id] {
    }
  }

  /** What a batch writes for its keys does not depend on what the table held before. */
  lemma UpsertAllReplaces(m1: map<string, StoredVerdict>, m2: map<string, StoredVerdict>, batch: seq<RequestAnomaly>, id: string)
    requires id in BatchIds(batch)
    ensures id in UpsertAll(m1, batch) && id in UpsertAll(m2, batch)
    ensures UpsertAll(m1, batch)[id] == UpsertAll(m2, batch)[id]
  {
    UpsertAllAt(m1, batch);
    UpsertAllAt(m2, batch);
  }

  /** Upserting two batches one after the other is upserting their concatenation. */
  lemma {:induction false} UpsertAllAppend(m: map<string, StoredVerdict>, a: seq<RequestAnomaly>, b: seq<RequestAnomaly>)
    ensures UpsertAll(UpsertAll(m, a), b) == UpsertAll(m, a + b)
    decreases |b|
  {
    if b != [] {
      UpsertAllAppend(m, a, b[..|b| - 1]);
      assert (a + b)[..|a + b| - 1] == a + b[..|b| - 1];
      assert (a + b)[|a + b| - 1] == b[|b| - 1];
    } else {
      assert a + b == a;
    }
  }

  /** `a.anomaly_cases && $2`: the two arrays share an element. */
  predicate Overlaps(stored: seq<int>, filter: seq<int>) {
    exists c :: c in stored && c in filter
  }

  /** `array_length($2, 1) IS NULL OR a.anomaly_cases && ($2)`: an empty filter selects everything. */
  predicate CaseFilter(stored: seq<int>, filter: seq<int>) {
    |filter| == 0 || Overlaps(stored, filter)
  }

  class AnomalyStore {
    var verdicts: map<string, StoredVerdict>
    var custom: map<string, bool>

    constructor (verdicts: map<string, StoredVerdict>, custom: map<string, bool>)
      ensures this.verdicts == verdicts && this.custom == custom
    {
      this.verdicts := verdicts;
      this.custom := custom;
    }

    /**
     * UpsertAnomalies: all statements are queued in one batch inside one transaction. They
     * take effect together on commit; a failure at begin, at the batch close or at the commit
     * rolls back, so the tables are then exactly as before.
     */
    method UpsertAnomalies(batch: seq<RequestAnomaly>, fault: TxFault) returns (err: Option<StoreError>)
      modifies this
      ensures custom == old(custom)
      ensures fault == TxOk ==> err == None && verdicts == UpsertAll(old(verdicts), batch)
      ensures fault != TxOk ==> err.Some? && verdicts == old(verdicts)
    {
      if fault == BeginFails {
        return Some(TxStartFailed);
      }
      var pending := verdicts;
      for i := 0 to |batch|
        invariant pending == UpsertAll(verdicts, batch[..i])
      {
        assert batch[..i + 1][..i] == batch[..i];
        pending := pending[batch[i].rootId := Row(batch[i])];
      }
      assert batch[..|batch|] == batch;
      if fault == CloseFails {
        return Some(BatchCloseFailed);
      }
      if fault == CommitFails {
        return Some(CommitFailed);
      }
      verdicts := pending;
      err := None;
    }

    /**
     * UpsertAnomaly binds three arguments (root_id, is_anomaly, anomaly_cases) to a statement
     * with four placeholders, so the driver rejects every call and nothing is written.
     */
    method UpsertAnomaly(a: RequestAnomaly) returns (err: Option<StoreError>)
      ensures err == Some(ArgumentCountMismatch(4, 3))
    {
      var placeholders, supplied := 4, 3;
      err := Some(ArgumentCountMismatch(placeholders, supplied));
    }

    /** Insert-or-replace of the override for one key; the model verdicts are not touched. */
    method SetCustomRequestAnomaly(rootId: string, isAnomaly: bool, fail: bool) returns (err: Option<StoreError>)
      modifies this
      ensures verdicts == old(verdicts)
      ensures fail ==> err == Some(ExecFailed) && custom == old(custom)
      ensures !fail ==> err == None && custom == old(custom)[rootId := isAnomaly]
      ensures !fail ==> rootId in custom && custom[rootId] == isAnomaly
    {
      if fail {
        return Some(ExecFailed);
      }
      custom := custom[rootId := isAnomaly];
      err := None;
    }

    /** The rows the statement selects: the requested keys with a verdict whose stored cases meet the filter. */
    function Selected(ids: seq<string>, cases: seq<int>): (sel: map<string, RequestAnomaly>)
      reads this
      ensures forall id :: id in sel <==> id in ids && id in verdicts && CaseFilter(verdicts[id].anomalyCases, cases)
    {
      map id | id in ids && id in verdicts && CaseFilter(verdicts[id].anomalyCases, cases) :: JoinRow(id)
    }

    /**
     * GetAnomaliesByRootIds as written: the LEFT JOIN of the verdicts with the overrides,
     * restricted to the requested keys and, for a non-empty filter, to verdicts whose STORED
     * model cases overlap it. The statement has no ORDER BY, so the rows are returned keyed by
     * root_id. An error from the query call or a row scan gives an error. The loop over
     * `rows.Next()` never consults `rows.Err()`, so an error while the rows are streamed returns
     * the rows delivered so far (any subset, the order being unspecified) with no error.
     */
    function GetAnomaliesByRootIds(ids: seq<string>, cases: seq<int>, fault: ReadFault): (r: Result<map<string, RequestAnomaly>, StoreError>)
      reads this
      ensures r.Success? <==> !fault.ReadQueryFails? && !fault.ReadScanFails?
      ensures r.Success? && fault == ReadOk ==>
        (forall id :: id in r.value <==> id in ids && id in verdicts && CaseFilter(verdicts[id].anomalyCases, cases))
      ensures r.Success? && fault.ReadInterrupted? ==>
        (forall id :: id in r.value <==> id in fault.delivered && id in ids && id in verdicts && CaseFilter(verdicts[id].anomalyCases, cases))
      ensures r.Success? ==> forall id :: id in r.value ==>
        var row := r.value[id];
        && id in verdicts
        && row.rootId == id
        && row.isCustom == (id in custom)
        && row.isAnomaly == (if id in custom then custom[id] else verdicts[id].isAnomaly)
        && row.anomalyCases == (if id in custom && !custom[id] then [] else verdicts[id].anomalyCases)
        && row.netProbability == verdicts[id].netProbability
    {
      var sel := Selected(ids, cases);
      match fault
      case ReadQueryFails => Failure(ExecFailed)
      case ReadScanFails => Failure(ExecFailed)
      case ReadInterrupted(delivered) => Success(map id | id in sel && id in delivered :: sel[id])
      case ReadOk => Success(sel)
    }

    /**
     * The read with the check of `rows.Err()` after the loop that the code leaves out: an
     * error while streaming is reported, so a result that comes back holds every selected row.
     */
    function GetAnomaliesByRootIdsChecked(ids: seq<string>, cases: seq<int>, fault: ReadFault): (r: Result<map<string, RequestAnomaly>, StoreError>)
      reads this
      ensures r.Success? <==> fault == ReadOk
      ensures r.Success? ==> forall id :: id in r.value <==> id in ids && id in verdicts && CaseFilter(verdicts[id].anomalyCases, cases)
    {
      if fault.ReadInterrupted? then Failure(ExecFailed) else GetAnomaliesByRootIds(ids, cases, fault)
    }

    /**
     * A selected row that was not delivered before an error: the read as written succeeds
     * without it, where the checked read reports the error.
     */
    lemma InterruptedReadDropsRow(ids: seq<string>, cases: seq<int>, delivered: set<string>, id: string)
      requires id in ids && id in verdicts && CaseFilter(verdicts[id].anomalyCases, cases) && id !in delivered
      ensures var r := GetAnomaliesByRootIds(ids, cases, ReadInterrupted(delivered));
        r.Success? && id !in r.value
      ensures GetAnomaliesByRootIdsChecked(ids, cases, ReadInterrupted(delivered)).Failure?
    {
    }

    /** One row of the join, with the SELECT list's expressions over the nullable `ca` columns. */
    function JoinRow(id: string): RequestAnomaly
      reads this
      requires id in verdicts
    {
      var a := verdicts[id];
      var ca: Option<bool> := if id in custom then Some(custom[id]) else None;
      RequestAnomaly(
        id,
        (ca.None? && a.isAnomaly) || (ca.Some? && ca.value),
        if ca.Some? && !ca.value then [] else a.anomalyCases,
        ca.Some?,
        a.netProbability)
    }
  }
}
