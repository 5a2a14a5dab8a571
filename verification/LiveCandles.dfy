// The client-side 1m candle aggregator: what it emits for any order of trades, and
// when the streaming form agrees with a plain group-by.
module LiveCandles {
  import opened Grid
  import opened Store
  import opened Market

  const MINUTE_MS := 60_000

  datatype Trade = Trade(symbol: string, ts: int, price: real, qty: real)

  // An open 1m bucket.
  datatype Partial = Partial(ts: int, bar: Bar)

  function Minute(ts: int): int { FloorTo(ts, MINUTE_MS) }

  // A minute starts on a multiple of 60 000 ms and lasts 60 000 ms.
  lemma MinuteBounds(ts: int)
    ensures Minute(ts) % 60_000 == 0 && Minute(ts) <= ts < Minute(ts) + 60_000
    ensures forall b :: (b % 60_000 == 0 && b <= ts < b + 60_000) <==> b == Minute(ts)
  {
    hide FloorTo;
    Floor(ts, MINUTE_MS);
    forall b | b % 60_000 == 0 && b <= ts < b + 60_000 ensures b == Minute(ts) {
      FloorUnique(b, ts, MINUTE_MS);
    }
  }

  function KeyOf(t: Trade): Key { Key(t.symbol, Minute(t.ts)) }

  // --- The aggregator ---------------------------------------------------------

  function Single(price: real, qty: real): Bar { Bar(price, price, price, price, qty) }

  function Max(a: real, b: real): real { if b > a then b else a }
  function Min(a: real, b: real): real { if b < a then b else a }

  // The bar of two stretches of trades, the first before the second.
  function Merge(a: Bar, b: Bar): Bar {
    Bar(a.open, Max(a.high, b.high), Min(a.low, b.low), b.close, a.volume + b.volume)
  }

  function Advance(p: map<string, Partial>, t: Trade): map<string, Partial> {
    if t.symbol in p && p[t.symbol].ts == Minute(t.ts) then
      p[t.symbol := Partial(Minute(t.ts), Merge(p[t.symbol].bar, Single(t.price, t.qty)))]
    else
      p[t.symbol := Partial(Minute(t.ts), Single(t.price, t.qty))]
  }

  function Finalized(p: map<string, Partial>, t: Trade): Option<Partial> {
    if t.symbol in p && p[t.symbol].ts != Minute(t.ts) then Some(p[t.symbol]) else None
  }

  class MinuteAggregator {
    var partial: map<string, Partial>

    constructor ()
      ensures partial == map[]
    {
      partial := map[];
    }

    method OnTrade(symbol: string, ts: int, price: real, qty: real) returns (finalized: Option<Partial>)
      modifies this
      ensures partial == Advance(old(partial), Trade(symbol, ts, price, qty))
      ensures finalized == Finalized(old(partial), Trade(symbol, ts, price, qty))
      // The open bucket is that of the trade's minute, and no other symbol is touched.
      ensures symbol in partial && partial == old(partial)[symbol := partial[symbol]]
      ensures partial[symbol].ts % 60_000 == 0 && partial[symbol].ts <= ts < partial[symbol].ts + 60_000
      // A bucket is finalized, unchanged, exactly when it was open for another minute.
      ensures symbol !in old(partial) ==> finalized.None?
      ensures symbol in old(partial) && old(partial)[symbol].ts % 60_000 == 0 ==>
                (finalized.Some? <==> !(old(partial)[symbol].ts <= ts < old(partial)[symbol].ts + 60_000))
      ensures finalized.Some? ==> finalized.value == old(partial)[symbol]
      // Otherwise the trade is added to it.
      ensures symbol !in old(partial) || finalized.Some? ==> partial[symbol].bar == Bar(price, price, price, price, qty)
      ensures symbol in old(partial) && finalized.None? ==>
                var was, now := old(partial)[symbol].bar, partial[symbol].bar;
                && now.open == was.open && now.close == price && now.volume == was.volume + qty
                && now.high == (if price > was.high then price else was.high)
                && now.low == (if price < was.low then price else was.low)
    {
      MinuteBounds(ts);
      var bucketTs := ts - ts % MINUTE_MS;
      if symbol !in partial {
        partial := partial[symbol := Partial(bucketTs, Bar(price, price, price, price, qty))];
        return None;
      }
      var cur := partial[symbol];
      if bucketTs != cur.ts {
        partial := partial[symbol := Partial(bucketTs, Bar(price, price, price, price, qty))];
        return Some(cur);
      }
      var high := if price > cur.bar.high then price else cur.bar.high;
      var low := if price < cur.bar.low then price else cur.bar.low;
      partial := partial[symbol := Partial(cur.ts, Bar(cur.bar.open, high, low, price, cur.bar.volume + qty))];
      return None;
    }
  }

  // --- A whole input ----------------------------------------------------------

  function PartialAfter(trades: seq<Trade>): map<string, Partial> {
    if trades == [] then map[] else Advance(PartialAfter(trades[..|trades| - 1]), trades[|trades| - 1])
  }

  function RecordFor(symbol: string, p: Partial): CandleRecord {
    Record(Key(symbol, p.ts), OkRow(p.bar))
  }

  // The record appended to the buffer by one trade, if any.
  function Emission(p: map<string, Partial>, t: Trade): seq<CandleRecord> {
    if Finalized(p, t).Some? then [RecordFor(t.symbol, Finalized(p, t).value)] else []
  }

  function Emitted(trades: seq<Trade>): seq<CandleRecord> {
    if trades == [] then [] else
      var front, t := trades[..|trades| - 1], trades[|trades| - 1];
      Emitted(front) + Emission(PartialAfter(front), t)
  }

  // A table with the open buckets written on top, existing rows winning.
  function Settle(t: Candles, p: map<string, Partial>): Candles {
    t + map s | s in p && Key(s, p[s].ts) !in t :: Key(s, p[s].ts) := OkRow(p[s].bar)
  }

  function Live(t: Candles, trades: seq<Trade>): Candles {
    Settle(InsertAll(t, Emitted(trades)), PartialAfter(trades))
  }

  // --- The batch form ---------------------------------------------------------

  function MaxPrice(run: seq<Trade>): real
    requires run != []
  {
    if |run| == 1 then run[0].price else Max(MaxPrice(run[..|run| - 1]), run[|run| - 1].price)
  }

  function MinPrice(run: seq<Trade>): real
    requires run != []
  {
    if |run| == 1 then run[0].price else Min(MinPrice(run[..|run| - 1]), run[|run| - 1].price)
  }

  function SumQty(run: seq<Trade>): real {
    if run == [] then 0.0 else SumQty(run[..|run| - 1]) + run[|run| - 1].qty
  }

  // First, highest, lowest and last price and the total quantity of some trades.
  function BarOf(run: seq<Trade>): Bar
    requires run != []
  {
    Bar(run[0].price, MaxPrice(run), MinPrice(run), run[|run| - 1].price, SumQty(run))
  }

  lemma {:induction false} BarMeaning(run: seq<Trade>)
    requires run != []
    ensures forall t :: t in run ==> BarOf(run).low <= t.price <= BarOf(run).high
    ensures exists t :: t in run && t.price == BarOf(run).high
    ensures exists t :: t in run && t.price == BarOf(run).low
    ensures BarOf(run).open == run[0].price && BarOf(run).close == run[|run| - 1].price
    ensures BarOf(run).low <= BarOf(run).open && BarOf(run).low <= BarOf(run).close
    ensures BarOf(run).open <= BarOf(run).high && BarOf(run).close <= BarOf(run).high
    ensures (forall t :: t in run ==> t.qty >= 0.0) ==> BarOf(run).volume >= 0.0
  {
    var front, last := run[..|run| - 1], run[|run| - 1];
    assert last in run && run[0] in run;
    if front == [] {
      assert SumQty(run) == last.qty;
    } else {
      BarMeaning(front);
      assert run == front + [last];
      var hi :| hi in front && hi.price == BarOf(front).high;
      var lo :| lo in front && lo.price == BarOf(front).low;
      assert hi in run && lo in run;
      assert forall t :: t in front ==> t in run;
    }
  }

  // The volume of trades is the one sum that gives a single trade its quantity.
  lemma {:induction false} SumIsAdditive(a: seq<Trade>, b: seq<Trade>)
    ensures SumQty(a + b) == SumQty(a) + SumQty(b)
    ensures forall t :: SumQty([t]) == t.qty
    decreases |b|
  {
    forall t ensures SumQty([t]) == t.qty {
      assert [t][..0] == [];
    }
    if b == [] {
      assert a + b == a;
    } else {
      var front, t := b[..|b| - 1], b[|b| - 1];
      assert a + b == (a + front) + [t] && b == front + [t];
      SumIsAdditive(a, front);
      SumSnoc(a + front, t);
      SumSnoc(front, t);
    }
  }

  lemma SumSnoc(run: seq<Trade>, t: Trade)
    ensures SumQty(run + [t]) == SumQty(run) + t.qty
  {
    assert (run + [t])[..|run + [t]| - 1] == run;
  }

  lemma BarSnoc(run: seq<Trade>, t: Trade)
    ensures BarOf(run + [t]) == if run == [] then Single(t.price, t.qty) else Merge(BarOf(run), Single(t.price, t.qty))
    ensures SumQty(run + [t]) == SumQty(run) + t.qty
  {
    var all := run + [t];
    assert all[..|all| - 1] == run && all[|all| - 1] == t;
    SumSnoc(run, t);
    if run == [] {
      assert BarOf(all) == Single(t.price, t.qty);
    } else {
      assert all[0] == run[0];
      assert MaxPrice(all) == Max(MaxPrice(run), t.price);
      assert MinPrice(all) == Min(MinPrice(run), t.price);
    }
  }

  lemma {:induction false} BarConcat(a: seq<Trade>, b: seq<Trade>)
    requires a != [] && b != []
    ensures BarOf(a + b) == Merge(BarOf(a), BarOf(b))
  {
    hide BarOf, Merge;
    var front, t := b[..|b| - 1], b[|b| - 1];
    assert a + b == (a + front) + [t] && b == front + [t];
    BarSnoc(a + front, t);
    BarSnoc(front, t);
    if front == [] {
      assert a + front == a;
    } else {
      BarConcat(a, front);
      MergeAssoc(BarOf(a), BarOf(front), Single(t.price, t.qty));
    }
  }

  lemma MergeAssoc(a: Bar, b: Bar, c: Bar)
    ensures Merge(Merge(a, b), c) == Merge(a, Merge(b, c))
  {
  }

  // The trades of one symbol in one minute, in arrival order.
  function OfKey(trades: seq<Trade>, k: Key): seq<Trade> {
    if trades == [] then [] else
      var front, t := trades[..|trades| - 1], trades[|trades| - 1];
      if KeyOf(t) == k then OfKey(front, k) + [t] else OfKey(front, k)
  }

  lemma {:induction false} OfKeyMembers(trades: seq<Trade>, k: Key)
    ensures forall t :: t in OfKey(trades, k) <==> t in trades && KeyOf(t) == k
  {
    if trades == [] {
    } else {
      var front := trades[..|trades| - 1];
      OfKeyMembers(front, k);
      assert trades == front + [trades[|trades| - 1]];
    }
  }

  function KeysOf(trades: seq<Trade>): set<Key> { set t | t in trades :: KeyOf(t) }

  function GroupBy(trades: seq<Trade>): Candles {
    map k | k in KeysOf(trades) && OfKey(trades, k) != [] :: OkRow(BarOf(OfKey(trades, k)))
  }

  // --- Any input order --------------------------------------------------------

  // The symbol has already moved on from this minute.
  ghost predicate Closed(trades: seq<Trade>, k: Key) {
    exists i, j :: 0 <= i < j < |trades| && KeyOf(trades[i]) == k
                   && trades[j].symbol == k.symbol && KeyOf(trades[j]) != k
  }

  // The trades of a minute that arrive before its symbol first moves on ...
  ghost function Kept(trades: seq<Trade>, k: Key): seq<Trade> {
    if trades == [] then [] else
      var front, t := trades[..|trades| - 1], trades[|trades| - 1];
      if KeyOf(t) == k && !Closed(front, k) then Kept(front, k) + [t] else Kept(front, k)
  }

  // ... and those that arrive after that.
  ghost function Late(trades: seq<Trade>, k: Key): seq<Trade> {
    if trades == [] then [] else
      var front, t := trades[..|trades| - 1], trades[|trades| - 1];
      if KeyOf(t) == k && Closed(front, k) then Late(front, k) + [t] else Late(front, k)
  }

  lemma ClosedSnoc(front: seq<Trade>, t: Trade, k: Key)
    ensures Closed(front + [t], k) <==>
            Closed(front, k) || (t.symbol == k.symbol && KeyOf(t) != k && OfKey(front, k) != [])
  {
    var all := front + [t];
    OfKeyMembers(front, k);
    hide OfKey, KeyOf;
    if Closed(front, k) {
      var i, j :| 0 <= i < j < |front| && KeyOf(front[i]) == k && front[j].symbol == k.symbol && KeyOf(front[j]) != k;
      assert all[i] == front[i] && all[j] == front[j];
    }
    if t.symbol == k.symbol && KeyOf(t) != k && OfKey(front, k) != [] {
      var u := OfKey(front, k)[0];
      assert u in OfKey(front, k);
      var i :| 0 <= i < |front| && front[i] == u;
      assert all[i] == u && all[|front|] == t;
    }
    if Closed(all, k) {
      var i, j :| 0 <= i < j < |all| && KeyOf(all[i]) == k && all[j].symbol == k.symbol && KeyOf(all[j]) != k;
      assert all[i] == front[i] && front[i] in OfKey(front, k);
      if j < |front| {
        assert all[j] == front[j];
      }
    }
  }

  // What the aggregator's state and output say about one key.
  ghost predicate Tracked(trades: seq<Trade>, k: Key) {
    var p, e, kept := PartialAfter(trades), Emitted(trades), Kept(trades, k);
    && (kept == [] <==> OfKey(trades, k) == [])
    && (Mentions(e, k) <==> Closed(trades, k))
    && (Closed(trades, k) ==> kept != [] && FirstFor(e, k) == OkRow(BarOf(kept)))
    && (!Closed(trades, k) && kept != [] ==> k.symbol in p && p[k.symbol] == Partial(k.ts, BarOf(kept)))
    && (k.symbol in p && p[k.symbol].ts == k.ts ==> kept != [])
  }

  lemma {:induction false} Track(trades: seq<Trade>, k: Key)
    ensures Tracked(trades, k)
  {
    if trades == [] {
    } else {
      var front, t := trades[..|trades| - 1], trades[|trades| - 1];
      assert trades == front + [t];
      Track(front, k);
      TrackSnoc(front, t, k);
    }
  }

  lemma TrackSnoc(front: seq<Trade>, t: Trade, k: Key)
    requires Tracked(front, k)
    ensures Tracked(front + [t], k)
  {
    hide PartialAfter, Emitted, Kept, OfKey, Late, Closed, BarOf, FirstFor, Mentions, Merge, Tracked, KeyOf;
    if t.symbol != k.symbol {
      TrackOther(front, t, k);
    } else if KeyOf(t) == k {
      TrackSame(front, t, k);
    } else {
      TrackOff(front, t, k);
    }
  }

  // A trade of another symbol.
  lemma TrackOther(front: seq<Trade>, t: Trade, k: Key)
    requires Tracked(front, k) && t.symbol != k.symbol
    ensures Tracked(front + [t], k)
  {
    hide PartialAfter, Emitted, Kept, OfKey, Late, Closed, BarOf, FirstFor, Mentions, Merge, Minute;
    Snoc(front, t, k);
    ClosedSnoc(front, t, k);
    MentionsConcat(Emitted(front), Emission(PartialAfter(front), t), k);
  }

  // A trade of the symbol in this minute.
  lemma TrackSame(front: seq<Trade>, t: Trade, k: Key)
    requires Tracked(front, k) && KeyOf(t) == k
    ensures Tracked(front + [t], k)
  {
    var p, kept := PartialAfter(front), Kept(front, k);
    Snoc(front, t, k);
    ClosedSnoc(front, t, k);
    MentionsConcat(Emitted(front), Emission(p, t), k);
    AdvanceTo(p, t, k);
    hide PartialAfter, Emitted, Kept, OfKey, Late, Closed, BarOf, FirstFor, Mentions, Merge, KeyOf, Advance, Emission;
    if !Closed(front, k) {
      BarSnoc(kept, t);
      assert Advance(p, t)[k.symbol] == Partial(k.ts, BarOf(kept + [t]));
    }
  }

  lemma AdvanceTo(p: map<string, Partial>, t: Trade, k: Key)
    requires KeyOf(t) == k
    ensures k.symbol in Advance(p, t) && Advance(p, t)[k.symbol].ts == k.ts
    ensures Advance(p, t)[k.symbol].bar ==
            if k.symbol in p && p[k.symbol].ts == k.ts then Merge(p[k.symbol].bar, Single(t.price, t.qty))
            else Single(t.price, t.qty)
    ensures Emission(p, t) != [] ==> |Emission(p, t)| == 1 && Emission(p, t)[0].key != k
  {
    hide Minute, Merge;
  }

  // A trade of the symbol in another minute.
  lemma TrackOff(front: seq<Trade>, t: Trade, k: Key)
    requires Tracked(front, k) && t.symbol == k.symbol && KeyOf(t) != k
    ensures Tracked(front + [t], k)
  {
    Snoc(front, t, k);
    ClosedSnoc(front, t, k);
    MentionsConcat(Emitted(front), Emission(PartialAfter(front), t), k);
    hide PartialAfter, Emitted, Kept, OfKey, Late, Closed, BarOf, FirstFor, Mentions, Merge, Minute;
  }

  // The folds, one trade further.
  lemma Snoc(front: seq<Trade>, t: Trade, k: Key)
    ensures PartialAfter(front + [t]) == Advance(PartialAfter(front), t)
    ensures Emitted(front + [t]) == Emitted(front) + Emission(PartialAfter(front), t)
    ensures OfKey(front + [t], k) == if KeyOf(t) == k then OfKey(front, k) + [t] else OfKey(front, k)
    ensures Kept(front + [t], k) == if KeyOf(t) == k && !Closed(front, k) then Kept(front, k) + [t] else Kept(front, k)
    ensures Late(front + [t], k) == if KeyOf(t) == k && Closed(front, k) then Late(front, k) + [t] else Late(front, k)
  {
    hide Advance, Emission, Closed, KeyOf;
    var all := front + [t];
    assert all[..|all| - 1] == front && all[|all| - 1] == t;
  }

  lemma MentionsConcat(a: seq<CandleRecord>, b: seq<CandleRecord>, k: Key)
    requires |b| <= 1
    ensures Mentions(a + b, k) <==> Mentions(a, k) || (b != [] && b[0].key == k)
    ensures Mentions(a, k) ==> FirstFor(a + b, k) == FirstFor(a, k)
    ensures !Mentions(a, k) && b != [] && b[0].key == k ==> FirstFor(a + b, k) == b[0].val
  {
    if b == [] {
      assert a + b == a;
    } else {
      assert (a + b)[..|a + b| - 1] == a;
      assert Mentions(a, k) ==> Mentions(a + b, k) by {
        if Mentions(a, k) {
          var i :| 0 <= i < |a| && a[i].key == k;
          assert (a + b)[i].key == k;
        }
      }
      assert b[0].key == k ==> Mentions(a + b, k) by {
        assert (a + b)[|a|] == b[0];
      }
    }
  }

  // For any order of trades, the candle of a minute is made of exactly the trades that
  // arrived before its symbol first moved on; a row already in the table stays.
  lemma LiveCandle(t: Candles, trades: seq<Trade>, k: Key)
    ensures k in t ==> k in Live(t, trades) && Live(t, trades)[k] == t[k]
    ensures k !in t ==> (k in Live(t, trades) <==> OfKey(trades, k) != [])
    ensures k !in t && k in Live(t, trades) ==>
              Kept(trades, k) != [] && Live(t, trades)[k] == Row(BarOf(Kept(trades, k)), MexcNative, Ok)
  {
    Track(trades, k);
    MergeMeaning(t, Emitted(trades), k);
  }

  lemma {:induction false} KeptOrLate(trades: seq<Trade>, k: Key)
    ensures SumQty(OfKey(trades, k)) == SumQty(Kept(trades, k)) + SumQty(Late(trades, k))
    ensures multiset(OfKey(trades, k)) == multiset(Kept(trades, k)) + multiset(Late(trades, k))
    ensures Late(trades, k) == [] ==> Kept(trades, k) == OfKey(trades, k)
    ensures forall t :: t in Late(trades, k) ==> t in trades
  {
    hide OfKey, Kept, Late, Closed, SumQty, KeyOf;
    if trades == [] {
      NoneKept(trades, k);
    } else {
      var front, t := trades[..|trades| - 1], trades[|trades| - 1];
      assert trades == front + [t];
      KeptOrLate(front, k);
      Snoc(front, t, k);
      SumSnoc(Kept(front, k), t);
      SumSnoc(OfKey(front, k), t);
      SumSnoc(Late(front, k), t);
      PartsSnoc(OfKey(front, k), Kept(front, k), Late(front, k), t);
    }
  }

  lemma PartsSnoc(all: seq<Trade>, a: seq<Trade>, b: seq<Trade>, t: Trade)
    requires multiset(all) == multiset(a) + multiset(b)
    ensures multiset(all + [t]) == multiset(a + [t]) + multiset(b) == multiset(a) + multiset(b + [t])
  {
  }

  lemma NoneKept(trades: seq<Trade>, k: Key)
    requires trades == []
    ensures OfKey(trades, k) == Kept(trades, k) == Late(trades, k) == [] && SumQty([]) == 0.0
  {
  }

  // No symbol returns to a minute it has left.
  ghost predicate NoReopen(trades: seq<Trade>) {
    forall i, j, l ::
      (0 <= i < j < l < |trades| && trades[i].symbol == trades[j].symbol && KeyOf(trades[i]) == KeyOf(trades[l]))
      ==> KeyOf(trades[j]) == KeyOf(trades[i])
  }

  lemma {:induction false} NothingLate(trades: seq<Trade>, k: Key)
    requires NoReopen(trades)
    ensures Late(trades, k) == []
  {
    if trades == [] {
    } else {
      var front := trades[..|trades| - 1];
      assert forall i :: 0 <= i < |front| ==> front[i] == trades[i];
      NothingLate(front, k);
    }
  }

  lemma {:induction false} ReopenIsLate(trades: seq<Trade>, i: nat, j: nat, l: nat)
    requires i < j < l < |trades| && trades[i].symbol == trades[j].symbol
    requires KeyOf(trades[i]) == KeyOf(trades[l]) != KeyOf(trades[j])
    ensures Late(trades, KeyOf(trades[l])) != []
  {
    var front := trades[..|trades| - 1];
    assert forall i :: 0 <= i < |front| ==> front[i] == trades[i];
    if l < |front| {
      ReopenIsLate(front, i, j, l);
    } else {
      assert KeyOf(front[i]) == KeyOf(trades[l]) && KeyOf(front[j]) != KeyOf(trades[l]);
      assert Closed(front, KeyOf(trades[l]));
    }
  }

  lemma {:induction false} PositiveSum(run: seq<Trade>)
    requires forall t :: t in run ==> t.qty > 0.0
    ensures run == [] ==> SumQty(run) == 0.0
    ensures run != [] ==> SumQty(run) > 0.0
  {
    if run == [] {
    } else {
      var front := run[..|run| - 1];
      assert forall t :: t in front ==> t in run;
      assert run[|run| - 1] in run;
      PositiveSum(front);
    }
  }

  // Streaming refines batch exactly when no minute is re-opened: then the finalized
  // candles plus the open buckets are the group-by of the input, and with positive
  // quantities they are not in any other case.
  lemma StreamingRefinesBatch(trades: seq<Trade>)
    ensures NoReopen(trades) ==> Live(map[], trades) == GroupBy(trades)
    ensures (forall t :: t in trades ==> t.qty > 0.0) && Live(map[], trades) == GroupBy(trades) ==> NoReopen(trades)
  {
    hide Live, GroupBy, KeyOf, Late;
    var live, batch := Live(map[], trades), GroupBy(trades);
    if NoReopen(trades) {
      forall k | k in live || k in batch ensures k in live && k in batch && live[k] == batch[k] {
        RefinedAt(trades, k);
      }
      assert live.Keys == batch.Keys;
    } else if forall t :: t in trades ==> t.qty > 0.0 {
      var i, j, l :| 0 <= i < j < l < |trades| && trades[i].symbol == trades[j].symbol
                     && KeyOf(trades[i]) == KeyOf(trades[l]) && KeyOf(trades[j]) != KeyOf(trades[i]);
      ReopenIsLate(trades, i, j, l);
      LateVolumeMissing(trades, KeyOf(trades[l]));
    }
  }

  lemma InGroupBy(trades: seq<Trade>, k: Key)
    ensures k in GroupBy(trades) <==> OfKey(trades, k) != []
    ensures k in GroupBy(trades) ==> GroupBy(trades)[k] == OkRow(BarOf(OfKey(trades, k)))
  {
    OfKeyMembers(trades, k);
    if OfKey(trades, k) != [] {
      assert OfKey(trades, k)[0] in OfKey(trades, k);
    }
  }

  lemma RefinedAt(trades: seq<Trade>, k: Key)
    requires NoReopen(trades)
    ensures k in Live(map[], trades) <==> k in GroupBy(trades)
    ensures k in GroupBy(trades) ==> Live(map[], trades)[k] == GroupBy(trades)[k]
  {
    hide Live, GroupBy, OfKey, Kept, Late, BarOf;
    InGroupBy(trades, k);
    LiveCandle(map[], trades, k);
    NothingLate(trades, k);
    KeptOrLate(trades, k);
  }

  // With positive quantities a re-opened minute is stored with less volume than it traded.
  lemma LateVolumeMissing(trades: seq<Trade>, k: Key)
    requires forall t :: t in trades ==> t.qty > 0.0
    requires Late(trades, k) != []
    ensures k in Live(map[], trades) && k in GroupBy(trades)
    ensures Live(map[], trades)[k].bar.volume + SumQty(Late(trades, k)) == GroupBy(trades)[k].bar.volume
    ensures Live(map[], trades)[k].bar.volume < GroupBy(trades)[k].bar.volume
  {
    hide Live, GroupBy, OfKey, Kept, Late;
    KeptOrLate(trades, k);
    PositiveSum(Late(trades, k));
    LiveCandle(map[], trades, k);
    InGroupBy(trades, k);
  }
}
