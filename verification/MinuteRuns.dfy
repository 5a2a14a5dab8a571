// For any order of trades: what a symbol's candles are made of, that no volume is lost
// on the way out of the aggregator, and when they come out in time order.
module MinuteRuns {
  import opened Store
  import opened Market
  import opened LiveCandles

  function OfSymbol(trades: seq<Trade>, s: string): seq<Trade> {
    if trades == [] then [] else
      var front, t := trades[..|trades| - 1], trades[|trades| - 1];
      if t.symbol == s then OfSymbol(front, s) + [t] else OfSymbol(front, s)
  }

  function RunMinute(run: seq<Trade>): int
    requires run != []
  {
    Minute(run[0].ts)
  }

  // Cut a symbol's trades wherever the minute changes.
  function RunsOf(trades: seq<Trade>, s: string): (runs: seq<seq<Trade>>)
    ensures forall i :: 0 <= i < |runs| ==> runs[i] != []
  {
    if trades == [] then [] else
      var runs, t := RunsOf(trades[..|trades| - 1], s), trades[|trades| - 1];
      if t.symbol != s then runs
      else if runs != [] && RunMinute(runs[|runs| - 1]) == Minute(t.ts) then
        runs[..|runs| - 1] + [runs[|runs| - 1] + [t]]
      else runs + [[t]]
  }

  function Flatten(runs: seq<seq<Trade>>): seq<Trade> {
    if runs == [] then [] else Flatten(runs[..|runs| - 1]) + runs[|runs| - 1]
  }

  // Maximal runs of some trades of one symbol: nothing is lost or reordered, each run lies
  // in one minute, and neighbouring runs lie in different minutes.
  predicate Maximal(runs: seq<seq<Trade>>, trades: seq<Trade>, s: string)
    requires forall i :: 0 <= i < |runs| ==> runs[i] != []
  {
    && Flatten(runs) == trades
    && (forall i, t :: 0 <= i < |runs| && t in runs[i] ==> KeyOf(t) == Key(s, RunMinute(runs[i])))
    && (forall i :: 0 <= i < |runs| - 1 ==> RunMinute(runs[i]) != RunMinute(runs[i + 1]))
  }

  lemma ExtendRun(runs: seq<seq<Trade>>, trades: seq<Trade>, s: string, t: Trade)
    requires forall i :: 0 <= i < |runs| ==> runs[i] != []
    requires Maximal(runs, trades, s) && runs != [] && t.symbol == s && RunMinute(runs[|runs| - 1]) == Minute(t.ts)
    ensures Maximal(runs[..|runs| - 1] + [runs[|runs| - 1] + [t]], trades + [t], s)
  {
    hide Minute;
    var last, longer := runs[|runs| - 1], runs[|runs| - 1] + [t];
    var all := runs[..|runs| - 1] + [longer];
    assert all[..|all| - 1] == runs[..|runs| - 1] && longer[0] == last[0];
    assert Flatten(runs) == Flatten(runs[..|runs| - 1]) + last;
    assert Flatten(all) == Flatten(runs[..|runs| - 1]) + longer;
  }

  lemma StartRun(runs: seq<seq<Trade>>, trades: seq<Trade>, s: string, t: Trade)
    requires forall i :: 0 <= i < |runs| ==> runs[i] != []
    requires Maximal(runs, trades, s) && t.symbol == s && (runs != [] ==> RunMinute(runs[|runs| - 1]) != Minute(t.ts))
    ensures Maximal(runs + [[t]], trades + [t], s)
  {
    hide Minute;
    var all := runs + [[t]];
    assert all[..|all| - 1] == runs;
  }

  // The cut is the one into maximal runs.
  lemma {:induction false} RunsAreMaximal(trades: seq<Trade>, s: string)
    ensures Maximal(RunsOf(trades, s), OfSymbol(trades, s), s)
  {
    if trades == [] {
    } else {
      var front, t := trades[..|trades| - 1], trades[|trades| - 1];
      RunsAreMaximal(front, s);
      hide Maximal, Minute, RunMinute;
      var prev := RunsOf(front, s);
      if t.symbol == s {
        if prev != [] && RunMinute(prev[|prev| - 1]) == Minute(t.ts) {
          ExtendRun(prev, OfSymbol(front, s), s, t);
        } else {
          StartRun(prev, OfSymbol(front, s), s, t);
        }
      }
    }
  }

  function EmittedFor(rs: seq<CandleRecord>, s: string): seq<CandleRecord> {
    if rs == [] then [] else
      var front, r := rs[..|rs| - 1], rs[|rs| - 1];
      if r.key.symbol == s then EmittedFor(front, s) + [r] else EmittedFor(front, s)
  }

  function CandleOf(s: string, run: seq<Trade>): CandleRecord
    requires run != []
  {
    Record(Key(s, RunMinute(run)), OkRow(BarOf(run)))
  }

  // A symbol's finalized candles are the bars of its runs but the last, in order, and
  // its open bucket is the bar of the last.
  ghost predicate CandlesMatch(runs: seq<seq<Trade>>, s: string, p: map<string, Partial>, out: seq<CandleRecord>)
    requires forall i :: 0 <= i < |runs| ==> runs[i] != []
  {
    && (s in p <==> runs != [])
    && (runs == [] ==> out == [])
    && (runs != [] ==>
          && p[s] == Partial(RunMinute(runs[|runs| - 1]), BarOf(runs[|runs| - 1]))
          && |out| == |runs| - 1
          && forall i :: 0 <= i < |out| ==> out[i] == CandleOf(s, runs[i]))
  }

  lemma {:induction false} RunsAreCandles(trades: seq<Trade>, s: string)
    ensures CandlesMatch(RunsOf(trades, s), s, PartialAfter(trades), EmittedFor(Emitted(trades), s))
  {
    if trades == [] {
    } else {
      var front, t := trades[..|trades| - 1], trades[|trades| - 1];
      RunsAreCandles(front, s);
      var p, x := PartialAfter(front), Emission(PartialAfter(front), t);
      EmittedForConcat(Emitted(front), x, s);
      assert Emitted(trades) == Emitted(front) + x;
      hide Emitted, Emission, EmittedFor;
      EmissionKey(p, t);
      if t.symbol != s {
        SkipOther(RunsOf(front, s), s, p, EmittedFor(Emitted(front), s), t);
      } else if s in p && p[s].ts == Minute(t.ts) {
        SameRun(RunsOf(front, s), s, p, EmittedFor(Emitted(front), s), t);
      } else {
        NewRun(RunsOf(front, s), s, p, EmittedFor(Emitted(front), s), t);
      }
      hide CandlesMatch;
    }
  }

  lemma EmissionKey(p: map<string, Partial>, t: Trade)
    ensures |Emission(p, t)| <= 1
    ensures Emission(p, t) != [] ==> Emission(p, t)[0].key.symbol == t.symbol
    ensures t.symbol in p && p[t.symbol].ts == Minute(t.ts) ==> Emission(p, t) == []
  {
  }

  lemma SkipOther(runs: seq<seq<Trade>>, s: string, p: map<string, Partial>, out: seq<CandleRecord>, t: Trade)
    requires forall i :: 0 <= i < |runs| ==> runs[i] != []
    requires CandlesMatch(runs, s, p, out) && t.symbol != s
    ensures CandlesMatch(runs, s, Advance(p, t), out)
  {
  }

  lemma SameRun(runs: seq<seq<Trade>>, s: string, p: map<string, Partial>, out: seq<CandleRecord>, t: Trade)
    requires forall i :: 0 <= i < |runs| ==> runs[i] != []
    requires CandlesMatch(runs, s, p, out)
    requires t.symbol == s && s in p && p[s].ts == Minute(t.ts)
    ensures CandlesMatch(runs[..|runs| - 1] + [runs[|runs| - 1] + [t]], s, Advance(p, t), out)
  {
    BarSnoc(runs[|runs| - 1], t);
  }

  lemma NewRun(runs: seq<seq<Trade>>, s: string, p: map<string, Partial>, out: seq<CandleRecord>, t: Trade)
    requires forall i :: 0 <= i < |runs| ==> runs[i] != []
    requires CandlesMatch(runs, s, p, out)
    requires t.symbol == s && (s in p ==> p[s].ts != Minute(t.ts))
    ensures CandlesMatch(runs + [[t]], s, Advance(p, t), out + Emission(p, t))
  {
    BarSnoc([], t);
    assert [] + [t] == [t];
  }

  lemma EmittedForConcat(e: seq<CandleRecord>, x: seq<CandleRecord>, s: string)
    requires |x| <= 1
    ensures EmittedFor(e + x, s) == EmittedFor(e, s) + if x != [] && x[0].key.symbol == s then x else []
  {
    if x == [] {
      assert e + x == e;
    } else {
      assert (e + x)[..|e + x| - 1] == e;
      assert x == [x[0]];
    }
  }

  function SumVolume(rs: seq<CandleRecord>): real {
    if rs == [] then 0.0 else SumVolume(rs[..|rs| - 1]) + rs[|rs| - 1].val.bar.volume
  }

  // Every trade of a symbol is counted exactly once: the volume that left the aggregator
  // plus the volume it still holds is the volume traded, late trades included.
  lemma {:induction false} VolumeConserved(trades: seq<Trade>, s: string)
    ensures SumQty(OfSymbol(trades, s)) ==
            SumVolume(EmittedFor(Emitted(trades), s)) + Held(PartialAfter(trades), s)
  {
    if trades == [] {
    } else {
      var front, t := trades[..|trades| - 1], trades[|trades| - 1];
      VolumeConserved(front, s);
      var p, x := PartialAfter(front), Emission(PartialAfter(front), t);
      EmittedForConcat(Emitted(front), x, s);
      assert Emitted(trades) == Emitted(front) + x;
      BarSnoc(OfSymbol(front, s), t);
      if t.symbol == s {
        assert EmittedFor(Emitted(trades), s) == EmittedFor(Emitted(front), s) + x;
        VolumeStep(p, EmittedFor(Emitted(front), s), t);
      } else {
        assert EmittedFor(Emitted(trades), s) == EmittedFor(Emitted(front), s);
      }
    }
  }

  function Held(p: map<string, Partial>, s: string): real {
    if s in p then p[s].bar.volume else 0.0
  }

  lemma VolumeStep(p: map<string, Partial>, out: seq<CandleRecord>, t: Trade)
    ensures SumVolume(out + Emission(p, t)) + Held(Advance(p, t), t.symbol) == SumVolume(out) + Held(p, t.symbol) + t.qty
  {
    var x := Emission(p, t);
    if x == [] {
      assert out + x == out;
    } else {
      assert (out + x)[..|out + x| - 1] == out;
    }
  }

  // Every finalized candle passes the Candle validator.
  lemma CandlesAreOhlc(trades: seq<Trade>, s: string, i: nat)
    requires forall t :: t in trades ==> t.qty >= 0.0
    requires i < |EmittedFor(Emitted(trades), s)|
    ensures var b := EmittedFor(Emitted(trades), s)[i].val.bar;
            b.low <= b.open && b.low <= b.close && b.open <= b.high && b.close <= b.high && 0.0 <= b.volume
  {
    RunsAreCandles(trades, s);
    RunTrades(trades, s, i);
    BarMeaning(RunsOf(trades, s)[i]);
  }

  lemma {:induction false} RunTrades(trades: seq<Trade>, s: string, i: nat)
    requires i < |RunsOf(trades, s)|
    ensures forall t :: t in RunsOf(trades, s)[i] ==> t in trades
  {
    var front, t := trades[..|trades| - 1], trades[|trades| - 1];
    assert trades == front + [t];
    if i < |RunsOf(front, s)| {
      RunTrades(front, s, i);
    }
  }

  // A symbol's minutes never go backwards.
  ghost predicate Monotone(trades: seq<Trade>) {
    forall i, j :: 0 <= i < j < |trades| && trades[i].symbol == trades[j].symbol
                   ==> Minute(trades[i].ts) <= Minute(trades[j].ts)
  }

  lemma MonotoneNeverReopens(trades: seq<Trade>)
    requires Monotone(trades)
    ensures NoReopen(trades)
  {
    forall i, j, l | 0 <= i < j < l < |trades| && trades[i].symbol == trades[j].symbol
                     && KeyOf(trades[i]) == KeyOf(trades[l])
      ensures KeyOf(trades[j]) == KeyOf(trades[i])
    {
      assert Minute(trades[i].ts) <= Minute(trades[j].ts) <= Minute(trades[l].ts);
    }
  }

  lemma {:induction false} RunsIncrease(trades: seq<Trade>, s: string)
    requires Monotone(trades)
    ensures forall i, j :: 0 <= i < j < |RunsOf(trades, s)| ==>
                             RunMinute(RunsOf(trades, s)[i]) < RunMinute(RunsOf(trades, s)[j])
  {
    hide Minute;
    if trades == [] {
    } else {
      var front, t := trades[..|trades| - 1], trades[|trades| - 1];
      assert forall i :: 0 <= i < |front| ==> front[i] == trades[i];
      RunsIncrease(front, s);
      if t.symbol == s && RunsOf(front, s) != [] {
        LastRunBefore(trades, s);
      }
    }
  }

  lemma LastRunBefore(trades: seq<Trade>, s: string)
    requires Monotone(trades) && trades != []
    requires trades[|trades| - 1].symbol == s && RunsOf(trades[..|trades| - 1], s) != []
    ensures var runs := RunsOf(trades[..|trades| - 1], s);
            RunMinute(runs[|runs| - 1]) <= Minute(trades[|trades| - 1].ts)
  {
    hide Minute;
    var front := trades[..|trades| - 1];
    var runs := RunsOf(front, s);
    var n := |runs| - 1;
    var last := runs[n];
    RunTrades(front, s, n);
    RunsAreMaximal(front, s);
    assert last[0] in runs[n] && last[0] in front;
    assert KeyOf(last[0]) == Key(s, RunMinute(runs[n]));
    var i :| 0 <= i < |front| && front[i] == last[0];
    assert trades[i] == last[0];
  }

  // Then its candles come out in strictly increasing time, all before the open bucket.
  lemma CandlesInOrder(trades: seq<Trade>, s: string)
    requires Monotone(trades)
    ensures var out := EmittedFor(Emitted(trades), s);
            && (forall i, j :: 0 <= i < j < |out| ==> out[i].key.ts < out[j].key.ts)
            && (s in PartialAfter(trades) ==>
                  forall i :: 0 <= i < |out| ==> out[i].key.ts < PartialAfter(trades)[s].ts)
  {
    RunsAreCandles(trades, s);
    RunsIncrease(trades, s);
  }
}
