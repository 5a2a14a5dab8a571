// Gap injection: one row on every grid point of a window, never over an existing row.
module Gap {
  import opened Store
  import opened Market
  import opened Grid
  import opened Backfill

  function GapRecords(symbol: string, lo: int, hi: int, step: int, source: Source): seq<CandleRecord>
    decreases hi - lo
  {
    if lo >= hi || step <= 0 then []
    else [Record(Key(symbol, lo), GapRow(source))] + GapRecords(symbol, lo + step, hi, step, source)
  }

  method FlagGap(
    conn: Connection<Key, Row>, table: Hypertable<Key, Row>, symbol: string,
    gapStart: int, gapEnd: int, step: int, source: Source) returns (n: nat)
    modifies conn, table
    ensures table.rows == InsertAll(old(table.rows), GapRecords(symbol, gapStart, gapEnd, step, source))
    ensures n == |GapRecords(symbol, gapStart, gapEnd, step, source)|
    // Field by field: rows that were there stay, and the new ones are zero candles marked
    // gap_detected, one on every free point of the window's grid and nowhere else.
    ensures forall k :: k in old(table.rows) ==> k in table.rows && table.rows[k] == old(table.rows)[k]
    ensures forall k :: k in table.rows && k !in old(table.rows) ==>
              var r := table.rows[k];
              && r.flag == GapDetected && r.source == source
              && r.bar.open == 0.0 && r.bar.high == 0.0 && r.bar.low == 0.0 && r.bar.close == 0.0 && r.bar.volume == 0.0
    ensures forall k :: k in table.rows <==>
              || k in old(table.rows)
              || (step > 0 && k.symbol == symbol && gapStart <= k.ts < gapEnd && (k.ts - gapStart) % step == 0)
  {
    hide InsertAll, GapRecords;
    if gapStart >= gapEnd || step <= 0 {
      NothingFlagged(table.rows, symbol, gapStart, gapEnd, step, source);
      return 0;
    }
    FlagInFigures(table.rows, symbol, gapStart, gapEnd, step, source);
    var records := GridRecords(symbol, gapStart, gapEnd, step, source);
    n := CopyIntoHypertable(conn, table, records);
  }

  method GridRecords(symbol: string, gapStart: int, gapEnd: int, step: int, source: Source)
    returns (records: seq<CandleRecord>)
    requires gapStart < gapEnd && step > 0
    ensures records == GapRecords(symbol, gapStart, gapEnd, step, source)
  {
    records := [];
    var cursor := gapStart;
    while cursor < gapEnd
      invariant records + GapRecords(symbol, cursor, gapEnd, step, source)
                == GapRecords(symbol, gapStart, gapEnd, step, source)
      decreases gapEnd - cursor
    {
      records := records + [Record(Key(symbol, cursor), GapRow(source))];
      cursor := cursor + step;
    }
  }

  lemma NothingFlagged(t: Candles, symbol: string, lo: int, hi: int, step: int, source: Source)
    requires lo >= hi || step <= 0
    ensures GapRecords(symbol, lo, hi, step, source) == [] && InsertAll(t, GapRecords(symbol, lo, hi, step, source)) == t
  {
  }

  lemma FlagInFigures(t: Candles, symbol: string, lo: int, hi: int, step: int, source: Source)
    requires step > 0
    ensures var f := InsertAll(t, GapRecords(symbol, lo, hi, step, source));
            && (forall k :: k in t ==> k in f && f[k] == t[k])
            && (forall k :: k in f <==> k in t || (k.symbol == symbol && lo <= k.ts < hi && (k.ts - lo) % step == 0))
            && (forall k :: k in f && k !in t ==>
                  var r := f[k];
                  && r.flag == GapDetected && r.source == source
                  && r.bar.open == 0.0 && r.bar.high == 0.0 && r.bar.low == 0.0 && r.bar.close == 0.0 && r.bar.volume == 0.0)
  {
    hide InsertAll;
    forall k
      ensures var f := Flagged(t, symbol, lo, hi, step, source);
              && (k in f <==> k in t || (k.symbol == symbol && GridPoint(lo, hi, step, k.ts)))
              && (k in t ==> f[k] == t[k])
              && (k in f && k !in t ==> f[k] == GapRow(source))
    {
      FlagCompletes(t, symbol, lo, hi, step, source, k);
    }
  }

  lemma NothingInserted(t: Candles)
    ensures InsertAll(t, []) == t
  {
  }

  predicate GridPoint(lo: int, hi: int, step: int, ts: int)
    requires step > 0
  {
    lo <= ts < hi && OnGrid(ts - lo, step)
  }

  lemma GridPointStep(lo: int, hi: int, step: int, ts: int)
    requires step > 0
    ensures GridPoint(lo, hi, step, ts) <==> (ts == lo < hi) || GridPoint(lo + step, hi, step, ts)
  {
    hide OnGrid;
    assert ts - lo - step == ts - (lo + step);
    GridShift(ts - lo, step);
    if 0 < ts - lo < step {
      OffGrid(0, ts - lo, step);
    }
  }

  lemma {:induction false} GapKeys(symbol: string, lo: int, hi: int, step: int, source: Source, k: Key)
    requires step > 0
    ensures Mentions(GapRecords(symbol, lo, hi, step, source), k) <==> k.symbol == symbol && GridPoint(lo, hi, step, k.ts)
    ensures forall i :: 0 <= i < |GapRecords(symbol, lo, hi, step, source)| ==>
                          GapRecords(symbol, lo, hi, step, source)[i].val == GapRow(source)
    decreases hi - lo
  {
    if lo < hi {
      var recs, rest := GapRecords(symbol, lo, hi, step, source), GapRecords(symbol, lo + step, hi, step, source);
      GapKeys(symbol, lo + step, hi, step, source, k);
      GridPointStep(lo, hi, step, k.ts);
      hide GridPoint;
      assert Mentions(recs, k) <==> k == Key(symbol, lo) || Mentions(rest, k) by {
        if Mentions(rest, k) {
          var i :| 0 <= i < |rest| && rest[i].key == k;
          assert recs[i + 1].key == k;
        }
        assert recs[0].key == Key(symbol, lo);
        assert forall i :: 1 <= i < |recs| ==> recs[i] == rest[i - 1];
      }
    }
  }

  function Flagged(t: Candles, symbol: string, lo: int, hi: int, step: int, source: Source): Candles {
    InsertAll(t, GapRecords(symbol, lo, hi, step, source))
  }

  // After flagging, every grid point of the window has a row; it is a gap row exactly
  // where there was none, and nothing else in the table changes.
  lemma FlagCompletes(t: Candles, symbol: string, lo: int, hi: int, step: int, source: Source, k: Key)
    requires step > 0
    ensures var f := Flagged(t, symbol, lo, hi, step, source);
            && (k in f <==> k in t || (k.symbol == symbol && GridPoint(lo, hi, step, k.ts)))
            && (k in t ==> f[k] == t[k])
            && (k in f && k !in t ==> f[k] == Row(Bar(0.0, 0.0, 0.0, 0.0, 0.0), source, GapDetected))
            && (k in f && f[k].flag == GapDetected ==> (k in t && t[k].flag == GapDetected) || (k !in t && k.symbol == symbol))
  {
    var recs := GapRecords(symbol, lo, hi, step, source);
    GapKeys(symbol, lo, hi, step, source, k);
    MergeMeaning(t, recs, k);
    hide GridPoint, InsertAll;
    if Mentions(recs, k) {
      var i :| 0 <= i < |recs| && recs[i] == Record(k, FirstFor(recs, k));
    }
  }

  // The count returned is the number of rows inserted exactly when no grid point of the
  // window had a row; it never falls below it.
  lemma CountIsInsertedIff(t: Candles, symbol: string, lo: int, hi: int, step: int, source: Source)
    requires step > 0
    ensures |Flagged(t, symbol, lo, hi, step, source)| <= |t| + |GapRecords(symbol, lo, hi, step, source)|
    ensures |Flagged(t, symbol, lo, hi, step, source)| == |t| + |GapRecords(symbol, lo, hi, step, source)|
            <==> forall ts :: GridPoint(lo, hi, step, ts) ==> Key(symbol, ts) !in t
  {
    var recs := GapRecords(symbol, lo, hi, step, source);
    GapTimesIncrease(symbol, lo, hi, step, source);
    InsertedCount(t, recs);
    hide InsertAll, GapRecords, GridPoint;
    forall ts ensures GridPoint(lo, hi, step, ts) <==> Mentions(recs, Key(symbol, ts)) {
      GapKeys(symbol, lo, hi, step, source, Key(symbol, ts));
    }
    forall i | 0 <= i < |recs| ensures recs[i].key == Key(symbol, recs[i].key.ts) && GridPoint(lo, hi, step, recs[i].key.ts) {
      GapKeys(symbol, lo, hi, step, source, recs[i].key);
      assert Mentions(recs, recs[i].key);
    }
  }

  predicate Increasing(recs: seq<CandleRecord>, from: int) {
    && (forall i :: 0 <= i < |recs| ==> from <= recs[i].key.ts)
    && (forall i, j :: 0 <= i < j < |recs| ==> recs[i].key.ts < recs[j].key.ts)
  }

  lemma {:induction false} GapTimesIncrease(symbol: string, lo: int, hi: int, step: int, source: Source)
    requires step > 0
    ensures Increasing(GapRecords(symbol, lo, hi, step, source), lo)
    decreases hi - lo
  {
    if lo >= hi {
    } else {
      GapTimesIncrease(symbol, lo + step, hi, step, source);
      ConsIncreasing(Record(Key(symbol, lo), GapRow(source)), GapRecords(symbol, lo + step, hi, step, source), lo + step);
      hide Increasing;
    }
  }

  lemma ConsIncreasing(first: CandleRecord, rest: seq<CandleRecord>, from: int)
    requires Increasing(rest, from) && first.key.ts < from
    ensures Increasing([first] + rest, first.key.ts)
  {
  }

  // Flagging twice is flagging once.
  lemma FlagTwice(t: Candles, symbol: string, lo: int, hi: int, step: int, source: Source)
    ensures Flagged(Flagged(t, symbol, lo, hi, step, source), symbol, lo, hi, step, source) == Flagged(t, symbol, lo, hi, step, source)
  {
    var recs := GapRecords(symbol, lo, hi, step, source);
    ReplayPrefix(t, recs, []);
    assert recs + [] == recs;
  }

  // In any table, two adjacent windows flag what their union flags exactly when every point
  // that is on one of the two grids only has a row already.
  lemma FlagComposes(t: Candles, symbol: string, lo: int, mid: int, hi: int, step: int, source: Source)
    requires step > 0 && lo <= mid <= hi
    ensures Flagged(Flagged(t, symbol, lo, mid, step, source), symbol, mid, hi, step, source) == Flagged(t, symbol, lo, hi, step, source)
            <==> forall ts :: mid <= ts < hi && (GridPoint(mid, hi, step, ts) <==> !GridPoint(lo, hi, step, ts)) ==>
                                Key(symbol, ts) in t
  {
    hide Flagged, OnGrid;
    var first := Flagged(t, symbol, lo, mid, step, source);
    var two, one := Flagged(first, symbol, mid, hi, step, source), Flagged(t, symbol, lo, hi, step, source);
    forall k ensures k in two <==> k in t || (k.symbol == symbol && (GridPoint(lo, mid, step, k.ts) || GridPoint(mid, hi, step, k.ts)))
             ensures k in one <==> k in t || (k.symbol == symbol && GridPoint(lo, hi, step, k.ts))
             ensures k in two && k in one ==> two[k] == one[k]
    {
      FlagCompletes(t, symbol, lo, mid, step, source, k);
      FlagCompletes(first, symbol, mid, hi, step, source, k);
      FlagCompletes(t, symbol, lo, hi, step, source, k);
    }
    assert two == one <==> forall k :: k in two <==> k in one;
    if two == one {
      forall ts | mid <= ts < hi && (GridPoint(mid, hi, step, ts) <==> !GridPoint(lo, hi, step, ts))
        ensures Key(symbol, ts) in t
      {
        assert Key(symbol, ts) in two <==> Key(symbol, ts) in one;
      }
    }
  }

  // In particular they compose when the second window starts on the grid of the first.
  lemma AlignedComposes(t: Candles, symbol: string, lo: int, mid: int, hi: int, step: int, source: Source)
    requires step > 0 && lo <= mid <= hi && OnGrid(mid - lo, step)
    ensures Flagged(Flagged(t, symbol, lo, mid, step, source), symbol, mid, hi, step, source) == Flagged(t, symbol, lo, hi, step, source)
  {
    GapSplit(symbol, lo, mid, hi, step, source);
    Split(t, GapRecords(symbol, lo, mid, step, source), GapRecords(symbol, mid, hi, step, source));
  }

  lemma {:induction false} GapSplit(symbol: string, lo: int, mid: int, hi: int, step: int, source: Source)
    requires step > 0 && lo <= mid <= hi && OnGrid(mid - lo, step)
    ensures GapRecords(symbol, lo, hi, step, source)
            == GapRecords(symbol, lo, mid, step, source) + GapRecords(symbol, mid, hi, step, source)
    decreases mid - lo
  {
    if lo < mid {
      GridPointStep(lo, mid + 1, step, mid);
      hide OnGrid;
      GapSplit(symbol, lo + step, mid, hi, step, source);
    }
  }

  // Backfilling a window and then flagging it leaves a row on every grid point. When the
  // backfill covered the window, the gap rows are exactly the points for which neither
  // the table nor the exchange had a candle.
  lemma BackfillThenFlag(
    t: Candles, feed: seq<Raw>, serve: int -> PageLen, symbol: string, since: int, until: int, step: int, source: Source, k: Key)
    requires step > 0 && Spaced(feed, step)
    requires forall i :: 0 <= i < |feed| && since <= feed[i].ts < until && Valid(feed[i]) ==>
                           feed[i].ts < Reached(feed, serve, since, until, step)
    requires k.symbol == symbol && GridPoint(since, until, step, k.ts)
    ensures var f := Flagged(Backfilled(t, feed, serve, symbol, since, until, step), symbol, since, until, step, source);
            && k in f
            && (k in t ==> f[k] == t[k])
            && (k !in t ==>
                  if exists i :: Offers(feed, i, k.ts)
                  then exists i :: Offers(feed, i, k.ts) && f[k] == Row(feed[i].bar.value, MexcNative, Ok)
                  else f[k] == Row(Bar(0.0, 0.0, 0.0, 0.0, 0.0), source, GapDetected))
  {
    var c := Reached(feed, serve, since, until, step);
    var recs := RecordsBetween(feed, symbol, since, c);
    FlagCompletes(InsertAll(t, recs), symbol, since, until, step, source, k);
    WritesOnlyTheFeed(feed, symbol, since, c, step, k);
    MergeMeaning(t, recs, k);
    hide InsertAll, Reached, RecordsBetween, Mentions, FirstFor, Flagged, Spaced, OnGrid;
  }
}
