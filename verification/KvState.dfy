// Job cursors kept in the append-only run log.
module KvState {
  import opened Store

  // A row of ingest_runs; rows that are not cursor saves carry no state.
  datatype LogRow = LogRow(ts: int, job: string, state: Option<int>)

  predicate IsSave(row: LogRow, job: string) { row.job == job && row.state.Some? }

  // ORDER BY ts DESC LIMIT 1 over the saves of a job: any newest save may be the one returned.
  predicate IsLatest(log: seq<LogRow>, job: string, i: nat) {
    i < |log| && IsSave(log[i], job) && forall j :: 0 <= j < |log| && IsSave(log[j], job) ==> log[j].ts <= log[i].ts
  }

  predicate NoSave(log: seq<LogRow>, job: string) { forall i :: 0 <= i < |log| ==> !IsSave(log[i], job) }

  predicate Loads(log: seq<LogRow>, job: string, v: Option<int>) {
    if NoSave(log, job) then v == None
    else exists i :: 0 <= i < |log| && IsLatest(log, job, i) && v == log[i].state
  }

  // What a register would hold: the state appended last.
  function LastSaved(log: seq<LogRow>, job: string): Option<int> {
    if log == [] then None
    else if IsSave(log[|log| - 1], job) then log[|log| - 1].state
    else LastSaved(log[..|log| - 1], job)
  }

  predicate SavedInOrder(log: seq<LogRow>, job: string) {
    forall i, j :: 0 <= i < j < |log| && IsSave(log[i], job) && IsSave(log[j], job) ==> log[i].ts < log[j].ts
  }

  lemma {:induction false} LastSavedAt(log: seq<LogRow>, job: string) returns (i: nat)
    ensures NoSave(log, job) ==> LastSaved(log, job) == None
    ensures !NoSave(log, job) ==> i < |log| && IsSave(log[i], job) && LastSaved(log, job) == log[i].state
    ensures !NoSave(log, job) ==> forall j :: i < j < |log| ==> !IsSave(log[j], job)
  {
    i := 0;
    if log == [] {
    } else {
      var front := log[..|log| - 1];
      if IsSave(log[|log| - 1], job) {
        i := |log| - 1;
      } else {
        i := LastSavedAt(front, job);
        assert forall j :: 0 <= j < |front| ==> front[j] == log[j];
        if !NoSave(log, job) {
          var k :| 0 <= k < |log| && IsSave(log[k], job);
          assert IsSave(front[k], job);
        }
      }
    }
  }

  // With row times that increase, the log is a register: a load gives exactly the last save.
  lemma LogIsRegister(log: seq<LogRow>, job: string, v: Option<int>)
    requires SavedInOrder(log, job)
    ensures Loads(log, job, v) <==> v == LastSaved(log, job)
  {
    var i := LastSavedAt(log, job);
    if !NoSave(log, job) {
      assert IsLatest(log, job, i);
      forall k | 0 <= k < |log| && IsLatest(log, job, k) ensures k == i {
      }
    }
  }

  lemma {:induction false} LatestExists(log: seq<LogRow>, job: string) returns (i: nat)
    requires !NoSave(log, job)
    ensures IsLatest(log, job, i)
  {
    var front, row := log[..|log| - 1], log[|log| - 1];
    assert forall j :: 0 <= j < |front| ==> front[j] == log[j];
    if NoSave(front, job) {
      i := |front|;
    } else {
      i := LatestExists(front, job);
      if IsSave(row, job) && front[i].ts < row.ts {
        i := |front|;
      }
    }
  }

  lemma LoadsSomething(log: seq<LogRow>, job: string) returns (v: Option<int>)
    ensures Loads(log, job, v)
  {
    v := None;
    if !NoSave(log, job) {
      var i := LatestExists(log, job);
      v := log[i].state;
    }
  }

  // Saves of one state outlast another save when one of them is strictly later.
  predicate Outlasted(log: seq<LogRow>, job: string, other: LogRow, ts: int, state: int) {
    other.ts < ts || exists j :: 0 <= j < |log| && IsSave(log[j], job) && log[j].state == Some(state) && other.ts < log[j].ts
  }

  // In any log, however its times run, a save is sure to be what the next load returns
  // exactly when it, or an earlier save of the same state, is later than every save of another state.
  lemma LoadsTheSaveIff(log: seq<LogRow>, job: string, ts: int, state: int)
    ensures (forall v :: Loads(log + [LogRow(ts, job, Some(state))], job, v) ==> v == Some(state)) <==>
            (forall i :: 0 <= i < |log| && IsSave(log[i], job) && log[i].state != Some(state) ==>
               Outlasted(log, job, log[i], ts, state))
  {
    var row := LogRow(ts, job, Some(state));
    var all := log + [row];
    assert all[|log|] == row && IsSave(row, job) && forall i :: 0 <= i < |log| ==> all[i] == log[i];
    if i :| 0 <= i < |log| && IsSave(log[i], job) && log[i].state != Some(state) && !Outlasted(log, job, log[i], ts, state) {
      var k := LatestExists(all, job);
      if all[k].state == Some(state) {
        assert IsLatest(all, job, i);
        assert Loads(all, job, all[i].state);
      } else {
        assert Loads(all, job, all[k].state);
      }
    } else {
      forall v | Loads(all, job, v) ensures v == Some(state) {
        var k :| 0 <= k < |all| && IsLatest(all, job, k) && v == all[k].state;
      }
    }
  }

  // A row of one job changes nothing of what another may load.
  lemma OthersUnmoved(log: seq<LogRow>, row: LogRow, other: string, v: Option<int>)
    requires row.job != other
    ensures Loads(log + [row], other, v) <==> Loads(log, other, v)
  {
    var all := log + [row];
    assert all[|log|] == row && !IsSave(row, other);
    assert forall i :: 0 <= i < |log| ==> all[i] == log[i];
    assert NoSave(all, other) <==> NoSave(log, other) by {
      if i :| 0 <= i < |log| && IsSave(log[i], other) {
        assert IsSave(all[i], other);
      }
    }
    forall i | 0 <= i < |log| ensures IsLatest(all, other, i) <==> IsLatest(log, other, i) {
      if IsLatest(all, other, i) {
        forall j | 0 <= j < |log| && IsSave(log[j], other) ensures log[j].ts <= log[i].ts {
          assert IsSave(all[j], other);
        }
      }
    }
    if Loads(log, other, v) && !NoSave(log, other) {
      var i :| 0 <= i < |log| && IsLatest(log, other, i) && v == log[i].state;
      assert IsLatest(all, other, i);
    }
  }

  class RunLog {
    var rows: seq<LogRow>

    constructor ()
      ensures rows == []
    {
      rows := [];
    }

    // load_kv_state: None is the empty dict.
    method Load(job: string) returns (v: Option<int>)
      ensures Loads(rows, job, v)
      ensures SavedInOrder(rows, job) ==> v == LastSaved(rows, job)
      ensures v == None <==> forall i :: 0 <= i < |rows| && rows[i].job == job ==> rows[i].state == None
      ensures v.Some? ==> exists i ::
                && 0 <= i < |rows| && rows[i].job == job && rows[i].state == v
                && forall j :: 0 <= j < |rows| && rows[j].job == job && rows[j].state.Some? ==> rows[j].ts <= rows[i].ts
    {
      v := None;
      ghost var best := 0;
      var newest := 0;
      var i := 0;
      while i < |rows|
        invariant 0 <= i <= |rows|
        invariant v.None? ==> forall j :: 0 <= j < i ==> !IsSave(rows[j], job)
        invariant v.Some? ==> best < i && IsSave(rows[best], job) && rows[best].state == v && rows[best].ts == newest
        invariant v.Some? ==> forall j :: 0 <= j < i && IsSave(rows[j], job) ==> rows[j].ts <= newest
      {
        if IsSave(rows[i], job) && (v.None? || newest < rows[i].ts) {
          v, newest := rows[i].state, rows[i].ts;
          best := i;
        }
        i := i + 1;
      }
      if v.Some? {
        assert IsLatest(rows, job, best);
      }
      if SavedInOrder(rows, job) {
        LogIsRegister(rows, job, v);
      }
    }

    // save_kv_state.
    method Save(job: string, now: int, state: int)
      modifies this
      ensures rows == old(rows) + [LogRow(now, job, Some(state))]
      ensures LastSaved(rows, job) == Some(state)
      ensures forall other, v :: other != job ==> (Loads(rows, other, v) <==> Loads(old(rows), other, v))
    {
      forall other, v | other != job
        ensures Loads(rows + [LogRow(now, job, Some(state))], other, v) <==> Loads(rows, other, v)
      {
        OthersUnmoved(rows, LogRow(now, job, Some(state)), other, v);
      }
      rows := rows + [LogRow(now, job, Some(state))];
      assert rows[..|rows| - 1] == old(rows);
    }
  }
}
