/**
 * usecase/repository/lastAnomalyCheckJobPostgresRepository.go: the single row
 * `last_anomaly_check_job(ts, is_active)` and its three SQL statements.
 */
module LastAnomalyCheckJob {
  import opened Wrappers
  import opened Timestamps

  datatype StoreError = ScanFailed

  /** The value of the row: the watermark and the active flag. */
  datatype CheckpointState = CheckpointState(ts: Time, isActive: bool)

  /** `UPDATE ... SET is_active = true`: the timestamp is kept, the previous flag is not consulted. */
  function MarkActive(s: CheckpointState): CheckpointState {
    s.(isActive := true)
  }

  /** `UPDATE ... SET is_active = false, ts = COALESCE($1, ts)`. */
  function MarkInactive(s: CheckpointState, newTs: Option<Time>): CheckpointState {
    CheckpointState(newTs.GetOr(s.ts), false)
  }

  /** Setting the flag twice is the same as setting it once. */
  lemma MarkActiveIdempotent(s: CheckpointState)
    ensures MarkActive(MarkActive(s)) == MarkActive(s)
    ensures MarkActive(s).isActive && MarkActive(s).ts == s.ts
  {
  }

  /** Releasing with nil after activating restores the original watermark and clears the flag. */
  lemma ActivateThenReleaseNil(s: CheckpointState)
    ensures MarkInactive(MarkActive(s), None) == CheckpointState(s.ts, false)
  {
  }

  /** Releasing with a timestamp replaces the watermark by it, whatever the row held. */
  lemma ReleaseWithTime(s: CheckpointState, t: Time)
    ensures MarkInactive(s, Some(t)) == CheckpointState(t, false)
  {
  }

  class CheckpointRow {
    var ts: Time
    var isActive: bool

    function State(): CheckpointState
      reads this
    {
      CheckpointState(ts, isActive)
    }

    constructor (ts: Time, isActive: bool)
      ensures State() == CheckpointState(ts, isActive)
    {
      this.ts := ts;
      this.isActive := isActive;
    }

    /**
     * `SELECT ts, is_active ... LIMIT 1`. `fail` stands for a failed query or scan
     * (for instance a missing row), which yields the zero time, false and an error.
     */
    method GetLastTimestamp(fail: bool) returns (t: Time, active: bool, err: Option<StoreError>)
      ensures fail ==> t == ZeroTime && !active && err == Some(ScanFailed)
      ensures !fail ==> t == ts && active == isActive && err == None
    {
      if fail {
        return ZeroTime, false, Some(ScanFailed);
      }
      t, active, err := ts, isActive, None;
    }

    /** `SET is_active = true RETURNING ts`; a failed statement changes nothing. */
    method SetJobAsActive(fail: bool) returns (t: Time, err: Option<StoreError>)
      modifies this
      ensures fail ==> t == ZeroTime && err == Some(ScanFailed) && State() == old(State())
      ensures !fail ==> err == None && State() == MarkActive(old(State())) && t == old(ts)
    {
      if fail {
        return ZeroTime, Some(ScanFailed);
      }
      isActive := true;
      t, err := ts, None;
    }

    /** `SET is_active = false, ts = COALESCE($1, ts) RETURNING ts`; a failed statement changes nothing. */
    method SetJobAsInactive(newTs: Option<Time>, fail: bool) returns (t: Time, err: Option<StoreError>)
      modifies this
      ensures fail ==> t == ZeroTime && err == Some(ScanFailed) && State() == old(State())
      ensures !fail ==> err == None && State() == MarkInactive(old(State()), newTs) && t == ts
      ensures !fail ==> !isActive && ts == (if newTs.Some? then newTs.value else old(ts))
    {
      if fail {
        return ZeroTime, Some(ScanFailed);
      }
      isActive := false;
      if newTs.Some? {
        ts := newTs.value;
      }
      t, err := ts, None;
    }
  }
}
