// The 5m/15m/1h/4h roll-ups of the 1m table: what one bucket means, rolling up in
// stages, and the whole path from trades to a rolled-up candle.
module Rollup {
  import opened Store
  import opened Market
  import opened LiveCandles
  import opened MinuteRuns
  import opened LiveLoop
  import opened Grid
  import opened DumpKeys

  // Alphabetical position of the flag's text, the order max(quality_flag) uses.
  function Rank(f: Flag): nat {
    match f
    case GapDetected => 0
    case LateArrival => 1
    case Ok => 2
    case PartialCandle => 3
    case PartialCapture => 4
    case SchemaWarn => 5
    case WsRestDivergence => 6
  }

  // The flags as they are stored.
  function FlagText(f: Flag): string {
    match f
    case GapDetected => "gap_detected"
    case LateArrival => "late_arrival"
    case Ok => "ok"
    case PartialCandle => "partial_candle"
    case PartialCapture => "partial_capture"
    case SchemaWarn => "schema_warn"
    case WsRestDivergence => "ws_rest_divergence"
  }

  lemma RankIsAlphabetical(a: Flag, b: Flag)
    ensures Rank(a) < Rank(b) <==> Less(FlagText(a), FlagText(b))
  {
    FirstLetters(a, b);
    FirstLetters(b, a);
    PartialTexts();
    LessIrreflexive(FlagText(a));
    hide Less;
  }

  lemma PartialTexts()
    ensures Less("partial_candle", "partial_capture") && !Less("partial_capture", "partial_candle")
  {
    var p := "partial_ca";
    assert "partial_candle" == p + "ndle" && "partial_capture" == p + "pture";
    LessConcat(p, "ndle", p, "pture");
    LessConcat(p, "pture", p, "ndle");
    LessIrreflexive(p);
  }

  lemma FirstLetters(a: Flag, b: Flag)
    ensures FlagText(a)[0] < FlagText(b)[0] ==> Less(FlagText(a), FlagText(b)) && !Less(FlagText(b), FlagText(a))
  {
  }

  datatype Agg = Agg(bar: Bar, flag: Flag)

  function Join(a: Option<Agg>, b: Option<Agg>): Option<Agg> {
    if a.None? then b
    else if b.None? then a
    else Some(Agg(Merge(a.value.bar, b.value.bar), if Rank(b.value.flag) > Rank(a.value.flag) then b.value.flag else a.value.flag))
  }

  function At(t: Candles, s: string, ts: int): Option<Agg> {
    if Key(s, ts) in t then Some(Agg(t[Key(s, ts)].bar, t[Key(s, ts)].flag)) else None
  }

  // The aggregates of the rows of one symbol with lo <= ts < hi, or None without rows.
  function Roll(t: Candles, s: string, lo: int, hi: int): Option<Agg>
    decreases hi - lo
  {
    if hi <= lo then None else Join(Roll(t, s, lo, hi - 1), At(t, s, hi - 1))
  }

  function BucketKeys(t: Candles, width: int): set<Key>
    requires width > 0
  {
    set k | k in t :: Key(k.symbol, FloorTo(k.ts, width))
  }

  // The continuous aggregate as a table.
  function View(t: Candles, width: int): Candles
    requires width > 0
  {
    map k | k in BucketKeys(t, width) && Roll(t, k.symbol, k.ts, k.ts + width).Some? ::
      var a := Roll(t, k.symbol, k.ts, k.ts + width).value; Row(a.bar, MexcNative, a.flag)
  }

  ghost predicate InBucket(t: Candles, s: string, lo: int, hi: int, ts: int) {
    lo <= ts < hi && Key(s, ts) in t
  }

  lemma JoinAssoc(a: Option<Agg>, b: Option<Agg>, c: Option<Agg>)
    ensures Join(Join(a, b), c) == Join(a, Join(b, c))
  {
  }

  lemma {:induction false} RollSplit(t: Candles, s: string, lo: int, mid: int, hi: int)
    requires lo <= mid <= hi
    ensures Roll(t, s, lo, hi) == Join(Roll(t, s, lo, mid), Roll(t, s, mid, hi))
    decreases hi - mid
  {
    if mid < hi {
      RollSplit(t, s, lo, mid, hi - 1);
      JoinAssoc(Roll(t, s, lo, mid), Roll(t, s, mid, hi - 1), At(t, s, hi - 1));
      hide Join, At;
    }
  }

  // The total volume of some rows, taken in any order.
  ghost function TotalVolume(t: Candles, ks: set<Key>): real
    requires ks <= t.Keys
  {
    if ks == {} then 0.0
    else
      var k :| k in ks;
      t[k].bar.volume + TotalVolume(t, ks - {k})
  }

  lemma {:induction false} TotalVolumePick(t: Candles, ks: set<Key>, k: Key)
    requires ks <= t.Keys && k in ks
    ensures TotalVolume(t, ks) == t[k].bar.volume + TotalVolume(t, ks - {k})
    decreases |ks|
  {
    var j :| j in ks && TotalVolume(t, ks) == t[j].bar.volume + TotalVolume(t, ks - {j});
    if j != k {
      TotalVolumePick(t, ks - {j}, k);
      TotalVolumePick(t, ks - {k}, j);
      assert ks - {j} - {k} == ks - {k} - {j};
    }
  }

  function RowsIn(t: Candles, s: string, lo: int, hi: int): set<Key> {
    set k | k in t && k.symbol == s && lo <= k.ts < hi
  }

  // sum(volume): the volume of a bucket is the total over its rows.
  lemma {:induction false} RollVolume(t: Candles, s: string, lo: int, hi: int)
    ensures TotalVolume(t, RowsIn(t, s, lo, hi)) ==
            if Roll(t, s, lo, hi).Some? then Roll(t, s, lo, hi).value.bar.volume else 0.0
    decreases hi - lo
  {
    if hi <= lo {
      assert RowsIn(t, s, lo, hi) == {};
    } else {
      RollVolume(t, s, lo, hi - 1);
      var last, before := Key(s, hi - 1), RowsIn(t, s, lo, hi - 1);
      if last in t {
        assert RowsIn(t, s, lo, hi) == before + {last} && before + {last} - {last} == before;
        TotalVolumePick(t, before + {last}, last);
      } else {
        forall k | k in RowsIn(t, s, lo, hi) ensures k in before { assert k != last; }
        assert RowsIn(t, s, lo, hi) == before;
      }
    }
  }

  // The aggregate functions: open of the earliest row, close of the latest, a greatest
  // high, a least low, and a flag of greatest rank (the volume is RollVolume's).
  ghost predicate Summarises(a: Agg, t: Candles, s: string, lo: int, hi: int, first: int, last: int) {
    && InBucket(t, s, lo, hi, first) && InBucket(t, s, lo, hi, last)
    && a.bar.open == t[Key(s, first)].bar.open
    && a.bar.close == t[Key(s, last)].bar.close
    && (forall ts :: InBucket(t, s, lo, hi, ts) ==>
          && first <= ts <= last
          && t[Key(s, ts)].bar.high <= a.bar.high
          && a.bar.low <= t[Key(s, ts)].bar.low
          && Rank(t[Key(s, ts)].flag) <= Rank(a.flag))
    && (exists ts :: InBucket(t, s, lo, hi, ts) && t[Key(s, ts)].bar.high == a.bar.high)
    && (exists ts :: InBucket(t, s, lo, hi, ts) && t[Key(s, ts)].bar.low == a.bar.low)
    && (exists ts :: InBucket(t, s, lo, hi, ts) && t[Key(s, ts)].flag == a.flag)
  }

  lemma {:induction false} RollMeaning(t: Candles, s: string, lo: int, hi: int)
    returns (first: int, last: int)
    ensures Roll(t, s, lo, hi).None? <==> forall ts :: !InBucket(t, s, lo, hi, ts)
    ensures Roll(t, s, lo, hi).Some? ==> Summarises(Roll(t, s, lo, hi).value, t, s, lo, hi, first, last)
    ensures Roll(t, s, lo, hi).Some? ==> Roll(t, s, lo, hi).value.bar.volume == TotalVolume(t, RowsIn(t, s, lo, hi))
    decreases hi - lo
  {
    hide TotalVolume, RowsIn;
    RollVolume(t, s, lo, hi);
    first, last := lo, lo;
    if lo < hi {
      first, last := RollMeaning(t, s, lo, hi - 1);
      var front := Roll(t, s, lo, hi - 1);
      assert forall ts :: InBucket(t, s, lo, hi, ts) <==>
        InBucket(t, s, lo, hi - 1, ts) || (ts == hi - 1 && Key(s, ts) in t);
      if Key(s, hi - 1) in t {
        assert InBucket(t, s, lo, hi, hi - 1);
        if front.None? {
          first := hi - 1;
        } else {
          SummariesExtend(front.value, t, s, lo, hi, first, last);
        }
        last := hi - 1;
      } else {
        assert forall ts :: InBucket(t, s, lo, hi, ts) <==> InBucket(t, s, lo, hi - 1, ts);
      }
    }
  }

  lemma SummariesExtend(a: Agg, t: Candles, s: string, lo: int, hi: int, first: int, last: int)
    requires Summarises(a, t, s, lo, hi - 1, first, last)
    requires InBucket(t, s, lo, hi, hi - 1)
    ensures Summarises(Join(Some(a), At(t, s, hi - 1)).value, t, s, lo, hi, first, hi - 1)
  {
    forall ts ensures InBucket(t, s, lo, hi, ts) <==> InBucket(t, s, lo, hi - 1, ts) || ts == hi - 1 {}
    var x :| InBucket(t, s, lo, hi - 1, x) && t[Key(s, x)].bar.high == a.bar.high;
    var y :| InBucket(t, s, lo, hi - 1, y) && t[Key(s, y)].bar.low == a.bar.low;
    var z :| InBucket(t, s, lo, hi - 1, z) && t[Key(s, z)].flag == a.flag;
    assert InBucket(t, s, lo, hi, x) && InBucket(t, s, lo, hi, y) && InBucket(t, s, lo, hi, z);
  }

  lemma ViewRow(t: Candles, width: int, k: Key)
    requires width > 0 && k in View(t, width)
    ensures OnGrid(k.ts, width) && Roll(t, k.symbol, k.ts, k.ts + width).Some?
    ensures View(t, width)[k] ==
            var a := Roll(t, k.symbol, k.ts, k.ts + width).value; Row(a.bar, MexcNative, a.flag)
  {
    hide OnGrid, FloorTo, Roll;
    var k' :| k' in t && k == Key(k'.symbol, FloorTo(k'.ts, width));
    Floor(k'.ts, width);
  }

  lemma ViewHasRow(t: Candles, width: int, s: string, b: int)
    requires width > 0 && OnGrid(b, width) && Roll(t, s, b, b + width).Some?
    ensures Key(s, b) in View(t, width)
  {
    hide OnGrid, FloorTo, Roll, Summarises;
    var _, _ := RollMeaning(t, s, b, b + width);
    var ts :| InBucket(t, s, b, b + width, ts);
    FloorUnique(b, ts, width);
    InBucketKeys(t, width, Key(s, ts));
    hide BucketKeys, InBucket;
  }

  lemma InBucketKeys(t: Candles, width: int, k: Key)
    requires width > 0 && k in t
    ensures Key(k.symbol, FloorTo(k.ts, width)) in BucketKeys(t, width)
  {
    hide FloorTo;
  }

  lemma ViewAt(t: Candles, width: int, s: string, b: int)
    requires width > 0
    ensures Key(s, b) in View(t, width) <==> OnGrid(b, width) && Roll(t, s, b, b + width).Some?
    ensures OnGrid(b, width) ==> At(View(t, width), s, b) == Roll(t, s, b, b + width)
  {
    hide OnGrid, FloorTo, Roll, View;
    if OnGrid(b, width) && Roll(t, s, b, b + width).Some? {
      ViewHasRow(t, width, s, b);
    }
    if Key(s, b) in View(t, width) {
      ViewRow(t, width, Key(s, b));
    }
  }

  // --- Conservation -------------------------------------------------------------

  lemma {:induction false} TotalVolumeJoin(t: Candles, a: set<Key>, b: set<Key>)
    requires a <= t.Keys && b <= t.Keys && a * b == {}
    ensures TotalVolume(t, a + b) == TotalVolume(t, a) + TotalVolume(t, b)
    decreases |a|
  {
    if a == {} {
      assert a + b == b;
    } else {
      var k :| k in a;
      TotalVolumePick(t, a, k);
      TotalVolumePick(t, a + b, k);
      assert (a + b) - {k} == (a - {k}) + b;
      TotalVolumeJoin(t, a - {k}, b);
    }
  }

  function BucketOf(k: Key, width: int): Key
    requires width > 0
  {
    Key(k.symbol, FloorTo(k.ts, width))
  }

  // The rows that fall into some buckets.
  function RowsUnder(t: Candles, width: int, buckets: set<Key>): set<Key>
    requires width > 0
  {
    set k | k in t && BucketOf(k, width) in buckets
  }

  lemma RowsOfBucket(t: Candles, width: int, b: Key)
    requires width > 0 && OnGrid(b.ts, width)
    ensures RowsUnder(t, width, {b}) == RowsIn(t, b.symbol, b.ts, b.ts + width)
  {
    hide OnGrid, FloorTo;
    forall k | k in t ensures BucketOf(k, width) == b <==> k.symbol == b.symbol && b.ts <= k.ts < b.ts + width {
      Floor(k.ts, width);
      if b.ts <= k.ts < b.ts + width {
        FloorUnique(b.ts, k.ts, width);
      }
    }
  }

  lemma {:induction false} BucketsConserve(t: Candles, width: int, buckets: set<Key>)
    requires width > 0 && buckets <= View(t, width).Keys
    ensures TotalVolume(View(t, width), buckets) == TotalVolume(t, RowsUnder(t, width, buckets))
    decreases |buckets|
  {
    hide View, TotalVolume, BucketOf, OnGrid;
    if buckets == {} {
      assert RowsUnder(t, width, buckets) == {};
      NoVolume(t);
      NoVolume(View(t, width));
    } else {
      var b :| b in buckets;
      var rest := buckets - {b};
      BucketsConserve(t, width, rest);
      TotalVolumePick(View(t, width), buckets, b);
      ViewRow(t, width, b);
      RollVolume(t, b.symbol, b.ts, b.ts + width);
      RowsOfBucket(t, width, b);
      TotalVolumeJoin(t, RowsUnder(t, width, {b}), RowsUnder(t, width, rest));
      assert RowsUnder(t, width, buckets) == RowsUnder(t, width, {b}) + RowsUnder(t, width, rest);
      hide Roll, RowsIn, RowsUnder;
    }
  }

  lemma NoVolume(t: Candles)
    ensures TotalVolume(t, {}) == 0.0
  {
  }

  // Every row falls into exactly one bucket: the total volume of a view is that of its table.
  lemma ViewConservesVolume(t: Candles, width: int)
    requires width > 0
    ensures TotalVolume(View(t, width), View(t, width).Keys) == TotalVolume(t, t.Keys)
  {
    hide View, TotalVolume, BucketOf;
    BucketsConserve(t, width, View(t, width).Keys);
    forall k | k in t ensures BucketOf(k, width) in View(t, width) {
      BucketIsShown(t, width, k);
    }
    assert RowsUnder(t, width, View(t, width).Keys) == t.Keys;
  }

  lemma BucketIsShown(t: Candles, width: int, k: Key)
    requires width > 0 && k in t
    ensures BucketOf(k, width) in View(t, width)
  {
    hide View, OnGrid, FloorTo, Roll, Summarises;
    Floor(k.ts, width);
    var b := FloorTo(k.ts, width);
    var _, _ := RollMeaning(t, k.symbol, b, b + width);
    assert InBucket(t, k.symbol, b, b + width, k.ts);
    ViewHasRow(t, width, k.symbol, b);
  }

  // A range whose only row can be its first.
  lemma {:induction false} RollOne(t: Candles, s: string, lo: int, hi: int)
    requires lo < hi
    requires forall ts :: lo < ts < hi ==> Key(s, ts) !in t
    ensures Roll(t, s, lo, hi) == At(t, s, lo)
    decreases hi - lo
  {
    if lo < hi - 1 {
      RollOne(t, s, lo, hi - 1);
    } else {
      assert Roll(t, s, lo, lo).None?;
    }
  }

  lemma {:induction false} RollOverView(t: Candles, s: string, width: int, lo: int, n: nat)
    requires width > 0 && OnGrid(lo, width)
    ensures Roll(View(t, width), s, lo, Step(lo, n, width)) == Roll(t, s, lo, Step(lo, n, width))
    decreases n
  {
    hide OnGrid, FloorTo, View;
    if n == 0 {
    } else {
      var mid := Step(lo, n - 1, width);
      RollOverView(t, s, width, lo, n - 1);
      StepOnGrid(lo, n - 1, width);
      RollSplit(t, s, lo, mid, mid + width);
      RollSplit(View(t, width), s, lo, mid, mid + width);
      forall ts | mid < ts < mid + width ensures Key(s, ts) !in View(t, width) {
        ViewAt(t, width, s, ts);
        OffGrid(mid, ts, width);
      }
      RollOne(View(t, width), s, mid, mid + width);
      ViewAt(t, width, s, mid);
    }
  }

  // Rolling up in two stages gives the same table as rolling up in one.
  lemma TwoStage(t: Candles, fine: int, coarse: int)
    requires fine > 0 && coarse > 0 && OnGrid(coarse, fine)
    ensures View(View(t, fine), coarse) == View(t, coarse)
  {
    hide OnGrid, FloorTo, View, Roll;
    var two, one := View(View(t, fine), coarse), View(t, coarse);
    forall k | k in two || k in one ensures k in two && k in one && two[k] == one[k] {
      assert k == Key(k.symbol, k.ts);
      TwoStageAt(t, fine, coarse, k.symbol, k.ts);
      ViewRow(View(t, fine), coarse, k);
      ViewRow(t, coarse, k);
    }
    assert two.Keys == one.Keys;
  }

  lemma TwoStageAt(t: Candles, fine: int, coarse: int, s: string, b: int)
    requires fine > 0 && coarse > 0 && OnGrid(coarse, fine)
    ensures Key(s, b) in View(View(t, fine), coarse) <==> Key(s, b) in View(t, coarse)
    ensures OnGrid(b, coarse) ==> Roll(View(t, fine), s, b, b + coarse) == Roll(t, s, b, b + coarse)
  {
    hide OnGrid, FloorTo, View, Roll;
    if OnGrid(b, coarse) {
      Refine(b, fine, coarse);
      var n := CoarseSteps(b, fine, coarse);
      RollOverView(t, s, fine, b, n);
    }
    ViewAt(View(t, fine), coarse, s, b);
    ViewAt(t, coarse, s, b);
  }

  // --- From trades to roll-ups ------------------------------------------------

  // The trades of one symbol in the minutes starting in [lo, hi), in arrival order.
  function TradesBetween(trades: seq<Trade>, s: string, lo: int, hi: int): seq<Trade> {
    if trades == [] then [] else
      var front, t := trades[..|trades| - 1], trades[|trades| - 1];
      TradesBetween(front, s, lo, hi) + if t.symbol == s && lo <= t.ts < hi then [t] else []
  }

  lemma InMinute(ts: int, m: int)
    requires OnGrid(m, MINUTE_MS)
    ensures m <= ts < m + MINUTE_MS <==> Minute(ts) == m
    ensures ts < m ==> Minute(ts) < m
  {
    hide OnGrid, FloorTo;
    Floor(ts, MINUTE_MS);
    if m <= ts < m + MINUTE_MS {
      FloorUnique(m, ts, MINUTE_MS);
    }
  }

  lemma {:induction false} NextMinute(trades: seq<Trade>, s: string, lo: int, m: int)
    requires Monotone(trades) && lo <= m && OnGrid(m, MINUTE_MS)
    ensures TradesBetween(trades, s, lo, m + MINUTE_MS) == TradesBetween(trades, s, lo, m) + OfKey(trades, Key(s, m))
  {
    hide Minute, OnGrid;
    if trades == [] {
    } else {
      var front, t := trades[..|trades| - 1], trades[|trades| - 1];
      assert forall i :: 0 <= i < |front| ==> front[i] == trades[i];
      NextMinute(front, s, lo, m);
      InMinute(t.ts, m);
      if t.symbol == s && lo <= t.ts < m {
        forall u | u in front ensures KeyOf(u) != Key(s, m) {
          var i :| 0 <= i < |front| && front[i] == u;
          assert trades[i] == u && trades[|front|] == t;
        }
        NoneOfKey(front, Key(s, m));
      }
    }
  }

  lemma {:induction false} NoneOfKey(trades: seq<Trade>, k: Key)
    requires forall u :: u in trades ==> KeyOf(u) != k
    ensures OfKey(trades, k) == []
  {
    if trades == [] {
    } else {
      assert trades[|trades| - 1] in trades;
      NoneOfKey(trades[..|trades| - 1], k);
    }
  }

  function BarOrNone(run: seq<Trade>): Option<Agg> {
    if run == [] then None else Some(Agg(BarOf(run), Ok))
  }

  lemma BarOrNoneConcat(a: seq<Trade>, b: seq<Trade>)
    ensures Join(BarOrNone(a), BarOrNone(b)) == BarOrNone(a + b)
  {
    if a == [] {
      assert a + b == b;
    } else if b == [] {
      assert a + b == a;
    } else {
      BarConcat(a, b);
    }
  }

  // Over minutes that the starting table does not hold, the candles of a run roll up to
  // the bar of the trades themselves.
  lemma {:induction false} LiveRolls(t: Candles, trades: seq<Trade>, s: string, lo: int, n: nat)
    requires Monotone(trades) && OnGrid(lo, MINUTE_MS)
    requires forall ts :: lo <= ts < Step(lo, n, MINUTE_MS) ==> Key(s, ts) !in t
    ensures Roll(Live(t, trades), s, lo, Step(lo, n, MINUTE_MS))
            == BarOrNone(TradesBetween(trades, s, lo, Step(lo, n, MINUTE_MS)))
    decreases n
  {
    hide OnGrid, FloorTo, Live, OfKey, Monotone, Roll, TradesBetween, BarOrNone;
    if n == 0 {
      NothingRolls(Live(t, trades), trades, s, lo);
    } else {
      var m := Step(lo, n - 1, MINUTE_MS);
      LiveRolls(t, trades, s, lo, n - 1);
      StepOnGrid(lo, n - 1, MINUTE_MS);
      RollSplit(Live(t, trades), s, lo, m, m + MINUTE_MS);
      LiveMinute(t, trades, s, m);
      NextMinute(trades, s, lo, m);
      BarOrNoneConcat(TradesBetween(trades, s, lo, m), OfKey(trades, Key(s, m)));
    }
  }

  lemma NothingRolls(t: Candles, trades: seq<Trade>, s: string, lo: int)
    ensures Roll(t, s, lo, lo) == BarOrNone(TradesBetween(trades, s, lo, lo))
  {
    NoneBetween(trades, s, lo);
  }

  lemma LiveMinute(t: Candles, trades: seq<Trade>, s: string, m: int)
    requires Monotone(trades) && OnGrid(m, MINUTE_MS)
    requires forall ts :: m <= ts < m + MINUTE_MS ==> Key(s, ts) !in t
    ensures Roll(Live(t, trades), s, m, m + MINUTE_MS) == BarOrNone(OfKey(trades, Key(s, m)))
  {
    hide Roll, Live, OfKey, Monotone, OnGrid;
    forall ts | m < ts < m + MINUTE_MS ensures Key(s, ts) !in Live(t, trades) {
      NotAMinute(t, trades, s, m, ts);
    }
    RollOne(Live(t, trades), s, m, m + MINUTE_MS);
    LiveCandle(t, trades, Key(s, m));
    MonotoneNeverReopens(trades);
    NothingLate(trades, Key(s, m));
    KeptOrLate(trades, Key(s, m));
  }

  lemma NotAMinute(t: Candles, trades: seq<Trade>, s: string, m: int, ts: int)
    requires OnGrid(m, MINUTE_MS) && m < ts < m + MINUTE_MS && Key(s, ts) !in t
    ensures Key(s, ts) !in Live(t, trades)
  {
    hide Live, OnGrid, FloorTo, OfKey;
    OffGrid(m, ts, MINUTE_MS);
    forall u | u in trades ensures KeyOf(u) != Key(s, ts) {
      Floor(u.ts, MINUTE_MS);
    }
    NoneOfKey(trades, Key(s, ts));
    LiveCandle(t, trades, Key(s, ts));
  }

  lemma {:induction false} NoneBetween(trades: seq<Trade>, s: string, lo: int)
    ensures TradesBetween(trades, s, lo, lo) == []
  {
    if trades == [] {
    } else {
      NoneBetween(trades[..|trades| - 1], s, lo);
    }
  }

  // End to end: whatever the interleaving of symbols and the schedule of messages and
  // flushes, as long as no symbol's minutes go backwards, a bucket of any width in whole
  // minutes that held no rows before rolls up to first/max/min/last/sum of its trades.
  lemma EndToEnd(rows: Candles, start: real, ds: seq<Delivery>, flushSeconds: real, s: string, b: int, width: int)
    requires width > 0 && OnGrid(width, MINUTE_MS) && OnGrid(b, width)
    requires forall ts :: b <= ts < b + width ==> Key(s, ts) !in rows
    requires Monotone(TradesIn(Wires(ds)))
    ensures var st := Run(LoopState(map[], [], start, rows, []), ds, flushSeconds);
            var table := Settle(InsertAll(st.rows, st.buffer), st.partial);
            var bucket := TradesBetween(TradesIn(Wires(ds)), s, b, b + width);
            && (Key(s, b) in View(table, width) <==> bucket != [])
            && (bucket != [] ==> View(table, width)[Key(s, b)] == Row(BarOf(bucket), MexcNative, Ok))
  {
    hide OnGrid, FloorTo, View, Roll, Live, TradesBetween, Run, Settle;
    SettledRun(rows, start, ds, flushSeconds);
    var trades := TradesIn(Wires(ds));
    Refine(b, MINUTE_MS, width);
    var n := CoarseSteps(b, MINUTE_MS, width);
    LiveRolls(rows, trades, s, b, n);
    ViewAt(Live(rows, trades), width, s, b);
    if Key(s, b) in View(Live(rows, trades), width) {
      ViewRow(Live(rows, trades), width, Key(s, b));
    }
  }

  // The trades of a symbol in a stretch, by their position in the input.
  predicate Falls(trades: seq<Trade>, s: string, lo: int, hi: int, i: int) {
    0 <= i < |trades| && trades[i].symbol == s && lo <= trades[i].ts < hi
  }

  lemma {:induction false} BucketMembers(trades: seq<Trade>, s: string, lo: int, hi: int)
    ensures forall t :: t in TradesBetween(trades, s, lo, hi) <==> t in trades && t.symbol == s && lo <= t.ts < hi
  {
    if trades == [] {
    } else {
      var front, last := trades[..|trades| - 1], trades[|trades| - 1];
      BucketMembers(front, s, lo, hi);
      assert trades == front + [last];
    }
  }

  lemma {:induction false} BucketLast(trades: seq<Trade>, s: string, lo: int, hi: int) returns (last: nat)
    requires TradesBetween(trades, s, lo, hi) != []
    ensures var bucket := TradesBetween(trades, s, lo, hi);
            Falls(trades, s, lo, hi, last) && trades[last] == bucket[|bucket| - 1]
    ensures forall i :: Falls(trades, s, lo, hi, i) ==> i <= last
  {
    last := |trades| - 1;
    if Falls(trades, s, lo, hi, last) {
      LastFalls(trades, s, lo, hi);
    } else {
      LastMisses(trades, s, lo, hi);
      hide TradesBetween;
      var front := trades[..|trades| - 1];
      last := BucketLast(front, s, lo, hi);
      forall i | Falls(trades, s, lo, hi, i) ensures i <= last {
        assert Falls(front, s, lo, hi, i);
      }
    }
  }

  lemma {:induction false} BucketFirst(trades: seq<Trade>, s: string, lo: int, hi: int) returns (first: nat)
    requires TradesBetween(trades, s, lo, hi) != []
    ensures Falls(trades, s, lo, hi, first) && trades[first] == TradesBetween(trades, s, lo, hi)[0]
    ensures forall i :: Falls(trades, s, lo, hi, i) ==> first <= i
  {
    var front, n := trades[..|trades| - 1], |trades| - 1;
    first := n;
    if Falls(trades, s, lo, hi, n) {
      LastFalls(trades, s, lo, hi);
    } else {
      LastMisses(trades, s, lo, hi);
    }
    BucketMembers(front, s, lo, hi);
    hide TradesBetween;
    if TradesBetween(front, s, lo, hi) != [] {
      first := BucketFirst(front, s, lo, hi);
    }
    forall i | Falls(trades, s, lo, hi, i) ensures first <= i {
      if i < n {
        assert Falls(front, s, lo, hi, i) && front[i] in front;
      }
    }
  }

  lemma LastFalls(trades: seq<Trade>, s: string, lo: int, hi: int)
    requires Falls(trades, s, lo, hi, |trades| - 1)
    ensures TradesBetween(trades, s, lo, hi) == TradesBetween(trades[..|trades| - 1], s, lo, hi) + [trades[|trades| - 1]]
  {
  }

  lemma LastMisses(trades: seq<Trade>, s: string, lo: int, hi: int)
    requires trades != [] && !Falls(trades, s, lo, hi, |trades| - 1)
    ensures TradesBetween(trades, s, lo, hi) == TradesBetween(trades[..|trades| - 1], s, lo, hi)
  {
  }

  // The four published roll-ups in figures: a 5m, 15m, 1h or 4h bucket is shown exactly when
  // the symbol traded in it, as the first, highest, lowest and last price and the total
  // quantity of those trades, from mexc_native and ok.
  lemma PublishedRollUps(rows: Candles, start: real, ds: seq<Delivery>, flushSeconds: real, s: string, b: int, width: int)
    returns (first: int, last: int)
    requires width in {300_000, 900_000, 3_600_000, 14_400_000} && b % width == 0
    requires forall ts :: b <= ts < b + width ==> Key(s, ts) !in rows
    requires var trades := TradesIn(Wires(ds));
             forall i, j :: 0 <= i < j < |trades| && trades[i].symbol == trades[j].symbol ==>
                              trades[i].ts / 60_000 <= trades[j].ts / 60_000
    ensures var trades, st := TradesIn(Wires(ds)), Run(LoopState(map[], [], start, rows, []), ds, flushSeconds);
            var view, hi := View(Settle(InsertAll(st.rows, st.buffer), st.partial), width), b + width;
            && (Key(s, b) in view <==> exists i :: Falls(trades, s, b, hi, i))
            && (Key(s, b) in view ==>
                  var row := view[Key(s, b)];
                  && row.source == MexcNative && row.flag == Ok
                  && Falls(trades, s, b, hi, first) && row.bar.open == trades[first].price
                  && Falls(trades, s, b, hi, last) && row.bar.close == trades[last].price
                  && (forall i :: Falls(trades, s, b, hi, i) ==>
                        first <= i <= last && row.bar.low <= trades[i].price <= row.bar.high)
                  && (exists i :: Falls(trades, s, b, hi, i) && row.bar.high == trades[i].price)
                  && (exists i :: Falls(trades, s, b, hi, i) && row.bar.low == trades[i].price)
                  && row.bar.volume == SumQty(TradesBetween(trades, s, b, hi)))
  {
    var trades := TradesIn(Wires(ds));
    forall i, j | 0 <= i < j < |trades| && trades[i].symbol == trades[j].symbol
      ensures Minute(trades[i].ts) <= Minute(trades[j].ts)
    {
      MinuteByDivision(trades[i].ts);
      MinuteByDivision(trades[j].ts);
    }
    assert OnGrid(width, MINUTE_MS) && OnGrid(b, width);
    hide OnGrid, FloorTo, Minute, View, Run, Settle, TradesIn, Wires, InsertAll, TradesBetween, Falls, BarOf;
    EndToEnd(rows, start, ds, flushSeconds, s, b, width);
    first, last := BucketBar(trades, s, b, b + width);
  }

  // A run of trades in figures, by their position in the input.
  lemma BucketBar(trades: seq<Trade>, s: string, lo: int, hi: int) returns (first: nat, last: nat)
    ensures var bucket := TradesBetween(trades, s, lo, hi);
            && (bucket != [] <==> exists i :: Falls(trades, s, lo, hi, i))
            && (bucket != [] ==>
                  var bar := BarOf(bucket);
                  && Falls(trades, s, lo, hi, first) && bar.open == trades[first].price
                  && Falls(trades, s, lo, hi, last) && bar.close == trades[last].price
                  && (forall i :: Falls(trades, s, lo, hi, i) ==>
                        first <= i <= last && bar.low <= trades[i].price <= bar.high)
                  && (exists i :: Falls(trades, s, lo, hi, i) && bar.high == trades[i].price)
                  && (exists i :: Falls(trades, s, lo, hi, i) && bar.low == trades[i].price)
                  && bar.volume == SumQty(bucket))
  {
    var bucket := TradesBetween(trades, s, lo, hi);
    BucketMembers(trades, s, lo, hi);
    hide TradesBetween, BarOf;
    first, last := 0, 0;
    forall i | Falls(trades, s, lo, hi, i) ensures trades[i] in bucket {
    }
    if bucket != [] {
      first := BucketFirst(trades, s, lo, hi);
      last := BucketLast(trades, s, lo, hi);
      BarFacts(bucket);
      var t :| t in bucket && t.price == BarOf(bucket).high;
      var i :| 0 <= i < |trades| && trades[i] == t;
      assert Falls(trades, s, lo, hi, i);
      var u :| u in bucket && u.price == BarOf(bucket).low;
      var j :| 0 <= j < |trades| && trades[j] == u;
      assert Falls(trades, s, lo, hi, j);
    }
  }

  lemma BarFacts(run: seq<Trade>)
    requires run != []
    ensures var bar := BarOf(run);
            && bar.open == run[0].price && bar.close == run[|run| - 1].price && bar.volume == SumQty(run)
            && (forall t :: t in run ==> bar.low <= t.price <= bar.high)
            && (exists t :: t in run && t.price == bar.high) && (exists t :: t in run && t.price == bar.low)
  {
    BarMeaning(run);
  }

  lemma MinuteByDivision(ts: int)
    ensures Minute(ts) == 60_000 * (ts / 60_000)
  {
    MinuteBounds(ts);
    hide Minute;
    var m := Minute(ts);
    assert m == 60_000 * (m / 60_000);
  }

  // --- Quality flags ----------------------------------------------------------

  // max(quality_flag) does not carry the worst flag: a bucket shows gap_detected exactly
  // when every one of its rows is a gap row, and shows ok with a gap inside exactly when
  // it also has an ok row and nothing that sorts above it.
  lemma GapShownOnlyIfAllGaps(t: Candles, s: string, lo: int, hi: int)
    requires Roll(t, s, lo, hi).Some?
    ensures Roll(t, s, lo, hi).value.flag == GapDetected <==>
            forall ts :: InBucket(t, s, lo, hi, ts) ==> t[Key(s, ts)].flag == GapDetected
    ensures Roll(t, s, lo, hi).value.flag == Ok <==>
            && (exists ts :: InBucket(t, s, lo, hi, ts) && t[Key(s, ts)].flag == Ok)
            && (forall ts :: InBucket(t, s, lo, hi, ts) ==> t[Key(s, ts)].flag in {GapDetected, LateArrival, Ok})
  {
    var first, last := RollMeaning(t, s, lo, hi);
    assert InBucket(t, s, lo, hi, first);
    RankInjective();
  }

  lemma RankInjective()
    ensures forall f, g :: Rank(f) == Rank(g) ==> f == g
    ensures forall f :: Rank(f) <= Rank(Ok) <==> f in {GapDetected, LateArrival, Ok}
  {
  }

  // A 5m bucket with one real minute and one gap minute is published as ok, with low 0.
  lemma GapHiddenExample(s: string)
    ensures var t: Candles := map[Key(s, 0) := OkRow(Bar(5.0, 6.0, 4.0, 5.0, 1.0)),
                                  Key(s, 60_000) := Row(GAP_BAR, MexcNative, GapDetected)];
            Roll(t, s, 0, 300_000) == Some(Agg(Bar(5.0, 6.0, 0.0, 0.0, 1.0), Ok))
  {
    var t: Candles := map[Key(s, 0) := OkRow(Bar(5.0, 6.0, 4.0, 5.0, 1.0)),
                          Key(s, 60_000) := Row(GAP_BAR, MexcNative, GapDetected)];
    RollSplit(t, s, 0, 60_000, 300_000);
    RollOne(t, s, 0, 60_000);
    RollOne(t, s, 60_000, 300_000);
  }

  // A gap row drags the low of its bucket to zero or below.
  lemma GapReachesLow(t: Candles, s: string, lo: int, hi: int, ts: int)
    requires InBucket(t, s, lo, hi, ts) && t[Key(s, ts)].bar == GAP_BAR
    ensures Roll(t, s, lo, hi).Some? && Roll(t, s, lo, hi).value.bar.low <= 0.0
  {
    var _, _ := RollMeaning(t, s, lo, hi);
  }
}
