// Several writers on one candle table: live flushes, backfill pages, gap fills and the
// divergence check, in any interleaving.
module Writers {
  import opened Store
  import opened Market
  import opened Gap
  import opened LiveCandles

  // A stored close that the check found to differ from a REST close.
  datatype Check = Check(key: Key, restClose: real)

  // Committed rows, checks that have read a close but not yet updated the row, and all
  // checks that ever found a divergence.
  datatype State = State(table: Candles, pending: set<Check>, found: set<Check>)

  datatype Event =
    | Candles(symbol: string, bars: seq<(int, Bar)>)
    | FillGap(symbol: string, lo: int, hi: int, step: int, source: Source)
    | Compare(key: Key, restClose: real)
    | Mark(check: Check)

  function Abs(x: real): real { if x < 0.0 then -x else x }

  predicate Diverges(wsClose: real, restClose: real) {
    restClose != 0.0 && Abs(wsClose - restClose) / restClose > 0.005
  }

  lemma QuotientAbove(a: real, r: real, c: real)
    requires r > 0.0
    ensures a / r > c <==> a > c * r
  {
    var q := a / r;
    assert q * r == a;
    if q > c {
      assert (q - c) * r > 0.0;
    } else {
      assert (c - q) * r >= 0.0;
    }
  }

  // Closes diverge when the stored one is more than half a percent below or above a positive
  // reference; a reference of zero or less convicts nothing.
  lemma DivergesMeans(wsClose: real, restClose: real)
    ensures restClose > 0.0 ==> (Diverges(wsClose, restClose) <==> wsClose < 0.995 * restClose || wsClose > 1.005 * restClose)
    ensures restClose <= 0.0 ==> !Diverges(wsClose, restClose)
  {
    var d := Abs(wsClose - restClose);
    if restClose > 0.0 {
      QuotientAbove(d, restClose, 0.005);
    } else if restClose < 0.0 {
      var q := d / restClose;
      assert q * restClose == d;
    }
  }

  // UPDATE ... SET quality_flag='ws_rest_divergence' WHERE key AND quality_flag='ok'.
  function MarkRow(t: Market.Candles, k: Key): Market.Candles {
    if k in t && t[k].flag == Ok then t[k := t[k].(flag := WsRestDivergence)] else t
  }

  // The conditional update: no row appears, vanishes or changes its candle or source, and
  // the only flag that may change is that of k, from ok.
  method MarkDivergence(table: Hypertable<Key, Row>, k: Key)
    modifies table
    ensures table.rows.Keys == old(table.rows).Keys
    ensures forall j :: j in table.rows ==>
              && table.rows[j].bar == old(table.rows)[j].bar && table.rows[j].source == old(table.rows)[j].source
              && table.rows[j].flag ==
                 if j == k && old(table.rows)[j].flag == Ok then WsRestDivergence else old(table.rows)[j].flag
  {
    if k in table.rows && table.rows[k].flag == Ok {
      table.rows := table.rows[k := table.rows[k].(flag := WsRestDivergence)];
    }
  }

  // One of the REST candles of a symbol convicts the row of key j: it is the last but one,
  // it lies in that minute, and its close differs from the stored one by more than the threshold.
  predicate Convicts(symbol: string, rest: seq<(int, Bar)>, j: Key, stored: Row) {
    && |rest| >= 2 && j == Key(symbol, Minute(rest[|rest| - 2].0))
    && Diverges(stored.bar.close, rest[|rest| - 2].1.close)
  }

  // One turn of _cross_rest_divergence_check whose REST call succeeds: it flags exactly the
  // ok row its reference candle convicts, and does nothing without two candles, without a
  // row for that minute, or with a zero reference close.
  method CrossRestCheck(table: Hypertable<Key, Row>, symbol: string, rest: seq<(int, Bar)>)
    modifies table
    ensures table.rows.Keys == old(table.rows).Keys
    ensures forall j :: j in table.rows ==>
              && table.rows[j].bar == old(table.rows)[j].bar && table.rows[j].source == old(table.rows)[j].source
              && table.rows[j].flag ==
                 if old(table.rows)[j].flag == Ok && Convicts(symbol, rest, j, old(table.rows)[j])
                 then WsRestDivergence else old(table.rows)[j].flag
    // In figures: the reference is the last candle but one, of a minute of 60 000 ms, and the
    // threshold half a percent of it.
    ensures |rest| >= 2 && rest[|rest| - 2].1.close > 0.0 ==>
              var ts, r := rest[|rest| - 2].0, rest[|rest| - 2].1.close;
              forall j :: j in table.rows && j.symbol == symbol && j.ts % 60_000 == 0 && j.ts <= ts < j.ts + 60_000
                          && old(table.rows)[j].flag == Ok ==>
                (table.rows[j].flag == WsRestDivergence <==>
                 old(table.rows)[j].bar.close < 0.995 * r || old(table.rows)[j].bar.close > 1.005 * r)
    ensures |rest| < 2 || rest[|rest| - 2].1.close <= 0.0 ==> table.rows == old(table.rows)
    ensures |rest| >= 2 ==>
              forall j :: j in table.rows && !(j.symbol == symbol && j.ts % 60_000 == 0 &&
                                               j.ts <= rest[|rest| - 2].0 < j.ts + 60_000) ==>
                table.rows[j] == old(table.rows)[j]
  {
    hide Minute;
    if |rest| < 2 {
      return;
    }
    var reference := rest[|rest| - 2];
    MinuteBounds(reference.0);
    var bucket := Key(symbol, Minute(reference.0));
    if bucket !in table.rows {
      return;
    }
    var wsClose, refClose := table.rows[bucket].bar.close, reference.1.close;
    DivergesMeans(wsClose, refClose);
    if refClose == 0.0 {
      return;
    }
    if Abs(wsClose - refClose) / refClose > 0.005 {
      MarkDivergence(table, bucket);
    }
  }

  // Such a turn, uninterrupted, is the two events of the transition system below.
  lemma CheckIsTwoEvents(t: Market.Candles, k: Key, restClose: real)
    ensures var after := Run(State(t, {}, {}), [Compare(k, restClose), Mark(Check(k, restClose))]).table;
            && after.Keys == t.Keys
            && forall j :: j in t ==>
                 && after[j].bar == t[j].bar && after[j].source == t[j].source
                 && after[j].flag ==
                    if j == k && t[j].flag == Ok && Diverges(t[j].bar.close, restClose) then WsRestDivergence else t[j].flag
  {
    hide Diverges;
    var compare, mark := Compare(k, restClose), Mark(Check(k, restClose));
    var s := State(t, {}, {});
    assert [compare, mark][..1] == [compare] && [compare][..0] == [];
    assert Run(s, []) == s;
    assert Run(s, [compare]) == Apply(s, compare);
    assert Run(s, [compare, mark]) == Apply(Apply(s, compare), mark);
  }

  function OkRecords(symbol: string, bars: seq<(int, Bar)>): seq<CandleRecord> {
    seq(|bars|, i requires 0 <= i < |bars| => Record(Key(symbol, bars[i].0), OkRow(bars[i].1)))
  }

  function Apply(s: State, e: Event): State {
    match e
    case Candles(symbol, bars) => s.(table := InsertAll(s.table, OkRecords(symbol, bars)))
    case FillGap(symbol, lo, hi, step, source) => s.(table := Flagged(s.table, symbol, lo, hi, step, source))
    case Compare(key, restClose) =>
      if key in s.table && Diverges(s.table[key].bar.close, restClose)
      then s.(pending := s.pending + {Check(key, restClose)}, found := s.found + {Check(key, restClose)})
      else s
    case Mark(check) =>
      if check in s.pending then s.(table := MarkRow(s.table, check.key), pending := s.pending - {check}) else s
  }

  function Run(s: State, events: seq<Event>): State {
    if events == [] then s else Apply(Run(s, events[..|events| - 1]), events[|events| - 1])
  }

  // A row stays, with its bar and source; its flag may go from ok to ws_rest_divergence.
  predicate RowEvolves(a: Market.Candles, b: Market.Candles, k: Key)
    requires k in a
  {
    && k in b && b[k].bar == a[k].bar && b[k].source == a[k].source
    && (b[k].flag == a[k].flag || (a[k].flag == Ok && b[k].flag == WsRestDivergence))
  }

  lemma WriteKeeps(t: Market.Candles, recs: seq<CandleRecord>, k: Key)
    requires k in t
    ensures k in InsertAll(t, recs) && InsertAll(t, recs)[k] == t[k]
  {
    MergeMeaning(t, recs, k);
  }

  lemma StepEvolves(s: State, e: Event, k: Key)
    requires k in s.table
    ensures RowEvolves(s.table, Apply(s, e).table, k)
    ensures Apply(s, e).table[k].flag != s.table[k].flag ==>
              e.Mark? && e.check in s.pending && e.check.key == k
  {
    hide InsertAll;
    match e
    case Candles(symbol, bars) => WriteKeeps(s.table, OkRecords(symbol, bars), k);
    case FillGap(symbol, lo, hi, step, source) => WriteKeeps(s.table, GapRecords(symbol, lo, hi, step, source), k);
    case Compare(_, _) =>
    case Mark(_) =>
  }

  // Over any run, no stored row disappears or changes its candle or its source.
  lemma {:induction false} RunEvolves(s: State, events: seq<Event>, k: Key)
    requires k in s.table
    ensures RowEvolves(s.table, Run(s, events).table, k)
  {
    if events == [] {
    } else {
      var front := events[..|events| - 1];
      RunEvolves(s, front, k);
      StepEvolves(Run(s, front), events[|events| - 1], k);
    }
  }

  lemma {:induction false} RunConcat(s: State, a: seq<Event>, b: seq<Event>)
    ensures Run(s, a + b) == Run(Run(s, a), b)
    decreases |b|
  {
    if b == [] {
      assert a + b == a;
    } else {
      var front := b[..|b| - 1];
      RunConcat(s, a, front);
      assert (a + b)[..|a + b| - 1] == a + front;
    }
  }

  // A flag changes at most once: if event i changes it, it was ok before, event i is the
  // update of a found divergence of that key, and the flag never changes again.
  lemma FlagChangesOnce(s: State, before: seq<Event>, e: Event, after: seq<Event>, k: Key)
    requires k in Run(s, before).table && k in Run(s, before + [e]).table
    requires Run(s, before + [e]).table[k].flag != Run(s, before).table[k].flag
    ensures Run(s, before).table[k].flag == Ok
    ensures e.Mark? && e.check.key == k
    ensures k in Run(s, before + [e] + after).table && Run(s, before + [e] + after).table[k].flag == WsRestDivergence
  {
    var mid := Run(s, before);
    assert (before + [e])[..|before|] == before;
    StepEvolves(mid, e, k);
    RunConcat(s, before + [e], after);
    RunEvolves(Run(s, before + [e]), after, k);
  }

  // The read and the update of the divergence check are separate transactions, yet the
  // decision taken on the read still holds at the update, and no row is flagged without one.
  ghost predicate Justified(start: Market.Candles, s: State) {
    && (forall c :: c in s.pending ==>
          c in s.found && c.key in s.table && Diverges(s.table[c.key].bar.close, c.restClose))
    && (forall k :: k in s.table && s.table[k].flag == WsRestDivergence ==> Accused(start, s, k))
  }

  ghost predicate Accused(start: Market.Candles, s: State, k: Key)
    requires k in s.table
  {
    || (k in start && start[k].flag == WsRestDivergence)
    || exists c :: c in s.found && c.key == k && Diverges(s.table[k].bar.close, c.restClose)
  }

  lemma StepJustified(start: Market.Candles, s: State, e: Event)
    requires Justified(start, s)
    ensures Justified(start, Apply(s, e))
  {
    var t := Apply(s, e);
    hide InsertAll, Diverges, Flagged;
    assert forall c :: c in s.found ==> c in t.found by { hide MarkRow; }
    forall c | c in t.pending ensures c in t.found && c.key in t.table && Diverges(t.table[c.key].bar.close, c.restClose) {
      if c in s.pending {
        StepEvolves(s, e, c.key);
      }
    }
    forall k | k in t.table && t.table[k].flag == WsRestDivergence ensures Accused(start, t, k) {
      if k in s.table {
        StepEvolves(s, e, k);
        if s.table[k].flag == WsRestDivergence {
          assert Accused(start, s, k);
        } else {
          assert e.check in t.found && e.check.key == k;
        }
      } else {
        NewRows(s, e, k);
      }
    }
  }

  // A new row is a candle of the writer as it was given, from mexc_native and ok, or a zero
  // row of the filler, marked gap_detected, on the grid of its window.
  lemma NewRows(s: State, e: Event, k: Key)
    requires k !in s.table && k in Apply(s, e).table
    ensures var row := Apply(s, e).table[k];
            || (e.Candles? && k.symbol == e.symbol &&
                exists i :: 0 <= i < |e.bars| && e.bars[i].0 == k.ts && row == Row(e.bars[i].1, MexcNative, Ok))
            || (e.FillGap? && k.symbol == e.symbol && e.step > 0 && e.lo <= k.ts < e.hi && (k.ts - e.lo) % e.step == 0
                && row == Row(Bar(0.0, 0.0, 0.0, 0.0, 0.0), e.source, GapDetected))
  {
    hide InsertAll;
    match e
    case Candles(symbol, bars) =>
      var recs := OkRecords(symbol, bars);
      MergeMeaning(s.table, recs, k);
      var i :| 0 <= i < |recs| && recs[i] == Record(k, FirstFor(recs, k));
    case FillGap(symbol, lo, hi, step, source) =>
      if step > 0 {
        FlagCompletes(s.table, symbol, lo, hi, step, source, k);
      } else {
        NothingInserted(s.table);
      }
    case Compare(_, _) =>
    case Mark(_) =>
  }

  // And each of these has its row.
  lemma AllWritten(s: State, symbol: string, bars: seq<(int, Bar)>, i: nat)
    requires i < |bars|
    ensures Key(symbol, bars[i].0) in Apply(s, Candles(symbol, bars)).table
  {
    var recs := OkRecords(symbol, bars);
    AllPresent(s.table, recs);
    hide InsertAll;
    assert recs[i].key == Key(symbol, bars[i].0);
  }

  lemma {:induction false} FlagsJustified(start: Market.Candles, events: seq<Event>)
    ensures Justified(start, Run(State(start, {}, {}), events))
  {
    if events != [] {
      var front := events[..|events| - 1];
      FlagsJustified(start, front);
      StepJustified(start, Run(State(start, {}, {}), front), events[|events| - 1]);
    } else {
      assert Justified(start, State(start, {}, {}));
    }
  }
}
