// The daily universe snapshot, the point-in-time query and the symbol lookup table.
module Universe {
  import opened Sets
  import opened Store

  // --- Filtering tickers ------------------------------------------------------------

  // A ticker field: missing or null, a number, or something that is not a number.
  datatype Field = Absent | Number(value: real) | Garbage

  datatype Ticker = Ticker(quoteVolume: Field, last: Field)

  datatype Info = Info(volume: real, price: Option<real>, qualifying: bool)

  const QUALIFYING_VOLUME := 500000.0
  const PERP_SUFFIX := ":USDT"

  predicate IsPerp(symbol: string) {
    |PERP_SUFFIX| <= |symbol| && symbol[|symbol| - |PERP_SUFFIX|..] == PERP_SUFFIX
  }

  function InfoOf(t: Ticker): Info {
    var volume := if t.quoteVolume.Number? then t.quoteVolume.value else 0.0;
    Info(volume, if t.last.Number? then Some(t.last.value) else None, volume > QUALIFYING_VOLUME)
  }

  function Filtered(tickers: map<string, Ticker>): map<string, Info> {
    map k | k in tickers && IsPerp(k) :: InfoOf(tickers[k])
  }

  // filter_qualifying_tickers.
  method FilterQualifyingTickers(tickers: map<string, Ticker>) returns (result: map<string, Info>)
    ensures result == Filtered(tickers)
    ensures forall k :: k in result <==> k in tickers && |k| >= 5 && k[|k| - 5..] == ":USDT"
    ensures forall k :: k in result ==>
              var info, volume, last := result[k], tickers[k].quoteVolume, tickers[k].last;
              && info.volume == (if volume.Number? then volume.value else 0.0)
              && info.price == (if last.Number? then Some(last.value) else None)
              && (info.qualifying <==> volume.Number? && volume.value > 500000.0)
  {
    FilterMeans(tickers);
    hide IsPerp, InfoOf;
    result := map[];
    var rest := tickers.Keys;
    while rest != {}
      invariant rest <= tickers.Keys
      invariant result == map k | k in tickers && k !in rest && IsPerp(k) :: InfoOf(tickers[k])
      decreases |rest|
    {
      var k :| k in rest;
      rest := rest - {k};
      if IsPerp(k) {
        result := result[k := InfoOf(tickers[k])];
      }
    }
  }

  lemma FilterMeans(tickers: map<string, Ticker>)
    ensures var result := Filtered(tickers);
            && (forall k :: k in result <==> k in tickers && |k| >= 5 && k[|k| - 5..] == ":USDT")
            && forall k :: k in result ==>
                 var info, volume, last := result[k], tickers[k].quoteVolume, tickers[k].last;
                 && info.volume == (if volume.Number? then volume.value else 0.0)
                 && info.price == (if last.Number? then Some(last.value) else None)
                 && (info.qualifying <==> volume.Number? && volume.value > 500000.0)
  {
    forall k ensures IsPerp(k) <==> |k| >= 5 && k[|k| - 5..] == ":USDT" { PerpMeans(k); }
    hide IsPerp;
  }

  lemma PerpMeans(symbol: string)
    ensures IsPerp(symbol) <==> |symbol| >= 5 && symbol[|symbol| - 5..] == ":USDT"
  {
  }

  // --- The state and one run of the job ------------------------------------------------

  datatype SnapKey = SnapKey(day: int, symbol: string)

  datatype SymbolRow = SymbolRow(firstSeen: int, delistedAt: Option<int>, tier: int)

  datatype State = State(snapshots: map<SnapKey, Info>, symbols: map<string, SymbolRow>)

  const DEFAULT_TIER := 2

  // One run: its UTC date, the database clock, and the tickers unless the fetch failed.
  datatype DayRun = DayRun(day: int, now: int, tickers: Option<map<string, Ticker>>)

  // What a run sees; a failed fetch and an empty filter both end the run at once.
  function Seen(run: DayRun): map<string, Info> {
    if run.tickers.Some? then Filtered(run.tickers.value) else map[]
  }

  function SymbolsOn(snapshots: map<SnapKey, Info>, day: int): set<string> {
    set k | k in snapshots && k.day == day :: k.symbol
  }

  function WithSnapshot(snapshots: map<SnapKey, Info>, day: int, seen: map<string, Info>): map<SnapKey, Info> {
    map k | k in snapshots.Keys + KeysOn(day, seen) :: if k in snapshots then snapshots[k] else seen[k.symbol]
  }

  function KeysOn(day: int, seen: map<string, Info>): set<SnapKey> { set s | s in seen :: SnapKey(day, s) }

  // Upserts for the new symbols.
  function Relisted(symbols: map<string, SymbolRow>, added: set<string>, now: int): map<string, SymbolRow> {
    map k | k in symbols.Keys + added ::
      if k !in added then symbols[k]
      else if k in symbols then symbols[k].(delistedAt := None)
      else SymbolRow(now, None, DEFAULT_TIER)
  }

  // Soft deletes for the symbols gone; an earlier deletion time is kept.
  function Delisted(symbols: map<string, SymbolRow>, gone: set<string>, now: int): map<string, SymbolRow> {
    map k | k in symbols ::
      if k in gone && symbols[k].delistedAt == None then symbols[k].(delistedAt := Some(now)) else symbols[k]
  }

  function Updated(symbols: map<string, SymbolRow>, added: set<string>, gone: set<string>, now: int)
    : map<string, SymbolRow>
  {
    Delisted(Relisted(symbols, added, now), gone, now)
  }

  // A run that sees something writes its snapshot and then compares with yesterday's.
  function Recorded(s: State, day: int, now: int, seen: map<string, Info>): State {
    var yesterday := SymbolsOn(s.snapshots, day - 1);
    State(WithSnapshot(s.snapshots, day, seen),
          Updated(s.symbols, seen.Keys - yesterday, yesterday - seen.Keys, now))
  }

  // universe_snapshot_job.
  function Step(s: State, run: DayRun): State {
    if Seen(run) == map[] then s else Recorded(s, run.day, run.now, Seen(run))
  }

  function Run(s: State, runs: seq<DayRun>): State {
    if runs == [] then s else Step(Run(s, runs[..|runs| - 1]), runs[|runs| - 1])
  }

  function Listed(s: State): set<string> {
    set k | k in s.symbols && s.symbols[k].delistedAt == None
  }

  // universe_at.
  function UniverseAt(s: State, day: int): set<string> {
    set k | k in s.snapshots && k.day == day && s.snapshots[k].qualifying :: k.symbol
  }

  // --- What one run does, exactly ---------------------------------------------------------

  lemma SnapshotFacts(snapshots: map<SnapKey, Info>, day: int, seen: map<string, Info>, d: int)
    ensures SymbolsOn(WithSnapshot(snapshots, day, seen), d) ==
            if d == day then SymbolsOn(snapshots, d) + seen.Keys else SymbolsOn(snapshots, d)
  {
    var after := WithSnapshot(snapshots, day, seen);
    forall s ensures s in SymbolsOn(after, d) <==> s in SymbolsOn(snapshots, d) || (d == day && s in seen) {
      assert s in SymbolsOn(after, d) <==> SnapKey(d, s) in after;
      assert s in SymbolsOn(snapshots, d) <==> SnapKey(d, s) in snapshots;
      assert SnapKey(d, s) in KeysOn(day, seen) <==> d == day && s in seen;
    }
  }

  // One run symbol by symbol: a new symbol gets a row of tier 2 first seen now or is listed
  // again, one that is gone is delisted now unless it was before, and nothing else changes.
  lemma RunOfSymbol(s: State, run: DayRun, k: string)
    requires Seen(run) != map[]
    ensures var rows, after := s.symbols, Step(s, run).symbols;
            var today, yesterday := k in Seen(run), SnapKey(run.day - 1, k) in s.snapshots;
            && (today && !yesterday && k !in rows ==> k in after && after[k] == SymbolRow(run.now, None, 2))
            && (today && !yesterday && k in rows ==>
                  k in after && after[k] == SymbolRow(rows[k].firstSeen, None, rows[k].tier))
            && (yesterday && !today && k in rows && rows[k].delistedAt == None ==>
                  k in after && after[k] == SymbolRow(rows[k].firstSeen, Some(run.now), rows[k].tier))
            && (yesterday && !today && k in rows && rows[k].delistedAt.Some? ==> k in after && after[k] == rows[k])
            && (yesterday && !today && k !in rows ==> k !in after)
            && (today == yesterday ==> (k in after <==> k in rows) && (k in rows ==> after[k] == rows[k]))
    ensures Seen(run) == Filtered(run.tickers.value)
  {
    hide Filtered, WithSnapshot;
    assert k in SymbolsOn(s.snapshots, run.day - 1) <==> SnapKey(run.day - 1, k) in s.snapshots;
  }

  // Its snapshot: every symbol seen has a row of the run's date, an earlier one if there is.
  lemma RunOfDay(s: State, run: DayRun, day: int, k: string)
    requires Seen(run) != map[]
    ensures var after, key := Step(s, run).snapshots, SnapKey(day, k);
            && (key in s.snapshots ==> key in after && after[key] == s.snapshots[key])
            && (key !in s.snapshots ==> (key in after <==> day == run.day && k in Seen(run)))
            && (key !in s.snapshots && key in after ==> after[key] == Seen(run)[k])
  {
    hide Filtered, SymbolsOn, Updated;
    assert SnapKey(day, k) in KeysOn(run.day, Seen(run)) <==> day == run.day && k in Seen(run);
  }

  // Who is listed after a run, from any state and for any date: the listed symbols that
  // have not just gone, and the ones that are new against yesterday's snapshot.
  lemma ListedAfter(s: State, run: DayRun)
    requires Seen(run) != map[]
    ensures var yesterday, today := SymbolsOn(s.snapshots, run.day - 1), Seen(run).Keys;
            Listed(Step(s, run)) == (Listed(s) - (yesterday - today)) + (today - yesterday)
  {
    hide Seen, SymbolsOn, WithSnapshot;
    assert Step(s, run) == Recorded(s, run.day, run.now, Seen(run));
  }

  // Every symbol a run sees is listed after it exactly when the ones it shares with
  // yesterday's snapshot were listed before it.
  lemma SeenIsListedIff(s: State, run: DayRun)
    requires Seen(run) != map[]
    ensures var yesterday, today := SymbolsOn(s.snapshots, run.day - 1), Seen(run).Keys;
            today <= Listed(Step(s, run)) <==> today * yesterday <= Listed(s)
  {
    ListedAfter(s, run);
    hide Seen, SymbolsOn, Step, Listed;
    var yesterday, today, listed := SymbolsOn(s.snapshots, run.day - 1), Seen(run).Keys, Listed(s);
    var next := (listed - (yesterday - today)) + (today - yesterday);
    if today <= next {
      forall k | k in today * yesterday ensures k in listed { assert k in next; }
    }
  }

  // The listed set is what the run sees, no more and no less, exactly when besides that
  // every listed symbol it no longer sees was in yesterday's snapshot.
  lemma ListedIsSeenIff(s: State, run: DayRun)
    requires Seen(run) != map[]
    ensures var yesterday, today := SymbolsOn(s.snapshots, run.day - 1), Seen(run).Keys;
            Listed(Step(s, run)) == today <==> today * yesterday <= Listed(s) && Listed(s) - today <= yesterday
  {
    ListedAfter(s, run);
    SeenIsListedIff(s, run);
    hide Seen, SymbolsOn, Step, Listed;
    var yesterday, today, listed := SymbolsOn(s.snapshots, run.day - 1), Seen(run).Keys, Listed(s);
    var next := (listed - (yesterday - today)) + (today - yesterday);
    assert next <= today <==> listed - today <= yesterday by {
      if next <= today {
        forall k | k in listed - today ensures k in yesterday { assert k in next <==> k !in yesterday; }
      }
    }
    assert next == today <==> next <= today && today <= next;
  }

  // The point-in-time answer of a date changes only by a run on that date, and then only
  // by symbols that the date had no row for yet.
  lemma UniverseAtAfter(s: State, run: DayRun, day: int)
    ensures UniverseAt(Step(s, run), day) ==
            UniverseAt(s, day) +
            if day != run.day then {}
            else set k | k in Seen(run) && Seen(run)[k].qualifying && k !in SymbolsOn(s.snapshots, day)
  {
    var seen, next := Seen(run), Step(s, run);
    hide Seen, Updated;
    if seen != map[] {
      forall k ensures k in UniverseAt(next, day) <==>
                       k in UniverseAt(s, day) ||
                       (day == run.day && k in seen && seen[k].qualifying && k !in SymbolsOn(s.snapshots, day)) {
        var key := SnapKey(day, k);
        assert k in UniverseAt(next, day) <==> key in next.snapshots && next.snapshots[key].qualifying;
        assert k in UniverseAt(s, day) <==> key in s.snapshots && s.snapshots[key].qualifying;
        assert k in SymbolsOn(s.snapshots, day) <==> key in s.snapshots;
        assert key in KeysOn(run.day, seen) <==> day == run.day && k in seen;
      }
    }
  }

  // Running again on the same date with the same tickers changes nothing, in any state.
  lemma RerunIsNoOp(s: State, run: DayRun, later: int)
    ensures Step(Step(s, run), run.(now := later)) == Step(s, run)
  {
    assert Seen(run.(now := later)) == Seen(run);
    hide Seen, Recorded;
    RecordedTwice(s, run.day, run.now, later, Seen(run));
  }

  lemma RecordedTwice(s: State, day: int, now: int, later: int, seen: map<string, Info>)
    ensures Recorded(Recorded(s, day, now, seen), day, later, seen) == Recorded(s, day, now, seen)
  {
    hide SymbolsOn, WithSnapshot, Updated;
    var yesterday := SymbolsOn(s.snapshots, day - 1);
    SnapshotFacts(s.snapshots, day, seen, day - 1);
    SnapshotTwice(s.snapshots, day, seen);
    UpdatedTwice(s.symbols, seen.Keys - yesterday, yesterday - seen.Keys, now, later);
  }

  lemma SnapshotTwice(snapshots: map<SnapKey, Info>, day: int, seen: map<string, Info>)
    ensures WithSnapshot(WithSnapshot(snapshots, day, seen), day, seen) == WithSnapshot(snapshots, day, seen)
  {
  }

  lemma UpdatedTwice(symbols: map<string, SymbolRow>, added: set<string>, gone: set<string>, now: int, later: int)
    requires added * gone == {}
    ensures Updated(Updated(symbols, added, gone, now), added, gone, later) == Updated(symbols, added, gone, now)
  {
    var once := Updated(symbols, added, gone, now);
    forall k | k in added ensures k in once && once[k].delistedAt == None {
      assert k !in gone by { assert k !in added * gone; }
    }
    assert Relisted(once, added, later) == once;
    assert Delisted(once, gone, later) == once;
  }

  // --- A run that raises between its two commits -------------------------------------------

  // The snapshot is written and the symbol table is not touched.
  function HalfStep(s: State, run: DayRun): State {
    if Seen(run) == map[] then s else s.(snapshots := WithSnapshot(s.snapshots, run.day, Seen(run)))
  }

  // Running again on the same date with the same tickers makes up for it.
  lemma RerunRepairs(s: State, run: DayRun, later: int)
    ensures Step(HalfStep(s, run), run.(now := later)) == Step(s, run.(now := later))
  {
    assert Seen(run.(now := later)) == Seen(run);
    hide Seen, SymbolsOn, WithSnapshot, Updated;
    SnapshotFacts(s.snapshots, run.day, Seen(run), run.day - 1);
    SnapshotTwice(s.snapshots, run.day, Seen(run));
  }

  // The run of the next day lists everything it sees exactly when all of that which the
  // raising run had seen, or an earlier run of that date, was listed before.
  lemma AfterHalfStepIff(s: State, run: DayRun, next: DayRun)
    requires Seen(run) != map[] && Seen(next) != map[] && next.day == run.day + 1
    ensures Seen(next).Keys <= Listed(Step(HalfStep(s, run), next)) <==>
            Seen(next).Keys * (SymbolsOn(s.snapshots, run.day) + Seen(run).Keys) <= Listed(s)
  {
    hide Seen, SymbolsOn, WithSnapshot, Step;
    SnapshotFacts(s.snapshots, run.day, Seen(run), run.day);
    SeenIsListedIff(HalfStep(s, run), next);
    assert Listed(HalfStep(s, run)) == Listed(s);
  }

  predicate NextDays(day: int, runs: seq<DayRun>) {
    forall i :: 0 <= i < |runs| ==> runs[i].day == day + 1 + i
  }

  // A symbol that was new in the raising run stays unlisted however many days in a row it is
  // seen after it.
  lemma {:induction false} UnlistedForGood(s: State, run: DayRun, runs: seq<DayRun>, k: string)
    requires k in Seen(run) && k !in Listed(s) && NextDays(run.day, runs)
    requires forall i :: 0 <= i < |runs| ==> k in Seen(runs[i])
    ensures k !in Listed(Run(HalfStep(s, run), runs))
    ensures k in SymbolsOn(Run(HalfStep(s, run), runs).snapshots, run.day + |runs|)
  {
    hide Seen, SymbolsOn, WithSnapshot, Step, Listed;
    if runs == [] {
      NothingListedYet(s, run, k);
    } else {
      var front, last := runs[..|runs| - 1], runs[|runs| - 1];
      assert forall i :: 0 <= i < |front| ==> front[i] == runs[i];
      UnlistedForGood(s, run, front, k);
      var mid := Run(HalfStep(s, run), front);
      hide HalfStep, Run;
      ListedAfter(mid, last);
      SeenToday(mid, last, k);
      assert Run(HalfStep(s, run), runs) == Step(mid, last) by { RunLast(HalfStep(s, run), runs); }
    }
  }

  lemma RunLast(s: State, runs: seq<DayRun>)
    requires runs != []
    ensures Run(s, runs) == Step(Run(s, runs[..|runs| - 1]), runs[|runs| - 1])
  {
  }

  lemma SeenToday(s: State, run: DayRun, k: string)
    requires k in Seen(run)
    ensures Seen(run) != map[] && k in SymbolsOn(Step(s, run).snapshots, run.day)
  {
    hide Seen, SymbolsOn, WithSnapshot, Updated;
    SnapshotFacts(s.snapshots, run.day, Seen(run), run.day);
  }

  lemma NothingListedYet(s: State, run: DayRun, k: string)
    requires k in Seen(run) && k !in Listed(s)
    ensures k !in Listed(HalfStep(s, run)) && k in SymbolsOn(HalfStep(s, run).snapshots, run.day)
  {
    hide Seen, SymbolsOn, WithSnapshot;
    SnapshotFacts(s.snapshots, run.day, Seen(run), run.day);
  }

  // --- Whole runs ------------------------------------------------------------------------------

  const EMPTY := State(map[], map[])

  predicate OncePerDay(runs: seq<DayRun>) {
    forall i, j :: 0 <= i < j < |runs| ==> runs[i].day < runs[j].day
  }

  predicate EveryDay(runs: seq<DayRun>) {
    forall i :: 0 <= i < |runs| - 1 ==> runs[i + 1].day == runs[i].day + 1
  }

  predicate AllSaw(runs: seq<DayRun>) { forall i :: 0 <= i < |runs| ==> Seen(runs[i]) != map[] }

  // Rows of the lookup table never vanish, and a listing or a delisting changes nothing else.
  lemma {:induction false} SymbolsNeverVanish(s: State, runs: seq<DayRun>, k: string)
    requires k in s.symbols
    ensures k in Run(s, runs).symbols
    ensures Run(s, runs).symbols[k].(delistedAt := None) == s.symbols[k].(delistedAt := None)
  {
    if runs == [] {
    } else {
      SymbolsNeverVanish(s, runs[..|runs| - 1], k);
      hide Seen, SymbolsOn, WithSnapshot;
    }
  }

  // Snapshots are those of the runs: a date without a run has none.
  lemma {:induction false} SnapshotsComeFromRuns(runs: seq<DayRun>, day: int)
    requires forall i :: 0 <= i < |runs| ==> runs[i].day != day
    ensures SymbolsOn(Run(EMPTY, runs).snapshots, day) == {}
  {
    if runs == [] {
    } else {
      var front, run := runs[..|runs| - 1], runs[|runs| - 1];
      SnapshotsComeFromRuns(front, day);
      var s := Run(EMPTY, front);
      SnapshotFacts(s.snapshots, run.day, Seen(run), day);
      hide SymbolsOn, WithSnapshot, Updated, Seen;
    }
  }

  // With at most one run a day the snapshot of a date is what its run saw.
  lemma {:induction false} SnapshotIsWhatWasSeen(runs: seq<DayRun>, i: nat)
    requires OncePerDay(runs) && i < |runs|
    ensures SymbolsOn(Run(EMPTY, runs).snapshots, runs[i].day) == Seen(runs[i]).Keys
  {
    var front, run := runs[..|runs| - 1], runs[|runs| - 1];
    var s := Run(EMPTY, front);
    if i == |front| {
      SnapshotsComeFromRuns(front, run.day);
    } else {
      SnapshotIsWhatWasSeen(front, i);
    }
    SnapshotFacts(s.snapshots, run.day, Seen(run), runs[i].day);
    hide SymbolsOn, WithSnapshot, Updated, Seen;
  }

  // The snapshot of the day before the last run holds listed symbols only, if the last
  // run before it that saw anything left what it saw listed.
  lemma YesterdayIsListed(runs: seq<DayRun>)
    requires OncePerDay(runs) && runs != []
    requires var front := runs[..|runs| - 1];
             front != [] && Seen(front[|front| - 1]) != map[] ==>
               Seen(front[|front| - 1]).Keys <= Listed(Run(EMPTY, front))
    ensures var s := Run(EMPTY, runs[..|runs| - 1]);
            SymbolsOn(s.snapshots, runs[|runs| - 1].day - 1) <= Listed(s)
  {
    hide Seen, Listed, SymbolsOn, Run;
    var front, day := runs[..|runs| - 1], runs[|runs| - 1].day - 1;
    FrontOncePerDay(runs);
    hide OncePerDay;
    if front != [] && front[|front| - 1].day == day {
      SnapshotIsWhatWasSeen(front, |front| - 1);
    } else {
      LastIsLatest(front);
      SnapshotsComeFromRuns(front, day);
    }
  }

  lemma FrontOncePerDay(runs: seq<DayRun>)
    requires OncePerDay(runs) && runs != []
    ensures var front := runs[..|runs| - 1];
            OncePerDay(front) && forall i :: 0 <= i < |front| ==> front[i].day < runs[|runs| - 1].day
  {
  }

  lemma LastIsLatest(runs: seq<DayRun>)
    requires OncePerDay(runs)
    ensures forall i :: 0 <= i < |runs| ==> runs[i].day <= runs[|runs| - 1].day
  {
  }

  // With at most one run a day, whatever days are missed or failed, every symbol the latest
  // successful run saw is listed after it.
  lemma {:induction false} SeenIsListed(runs: seq<DayRun>)
    requires OncePerDay(runs) && runs != [] && Seen(runs[|runs| - 1]) != map[]
    ensures Seen(runs[|runs| - 1]).Keys <= Listed(Run(EMPTY, runs))
  {
    var front, run := runs[..|runs| - 1], runs[|runs| - 1];
    hide Seen, Listed, SymbolsOn, Step;
    assert forall i :: 0 <= i < |front| ==> front[i] == runs[i];
    if front != [] && Seen(front[|front| - 1]) != map[] {
      SeenIsListed(front);
    }
    YesterdayIsListed(runs);
    SeenIsListedIff(Run(EMPTY, front), run);
  }

  // With a run every day since the first one, the listed set is what the last run saw.
  lemma {:induction false} ListedIsSeen(runs: seq<DayRun>)
    requires EveryDay(runs) && AllSaw(runs) && runs != []
    ensures Listed(Run(EMPTY, runs)) == Seen(runs[|runs| - 1]).Keys
  {
    hide Seen, Listed, SymbolsOn, Step;
    var front, run := runs[..|runs| - 1], runs[|runs| - 1];
    var s := Run(EMPTY, front);
    assert Run(EMPTY, runs) == Step(s, run);
    if front == [] {
      assert s == EMPTY;
      SnapshotsComeFromRuns(front, run.day - 1);
      NothingListed();
    } else {
      hide Run;
      EveryDayFront(runs);
      hide EveryDay, AllSaw, OncePerDay;
      ListedIsSeen(front);
      SnapshotIsWhatWasSeen(front, |front| - 1);
    }
    ListedIsSeenIff(s, run);
  }

  lemma EveryDayFront(runs: seq<DayRun>)
    requires EveryDay(runs) && AllSaw(runs) && |runs| > 1
    ensures var front := runs[..|runs| - 1];
            && EveryDay(front) && AllSaw(front) && OncePerDay(front)
            && runs[|runs| - 1].day == front[|front| - 1].day + 1
            && Seen(runs[|runs| - 1]) != map[]
  {
    hide Seen;
    var front := runs[..|runs| - 1];
    assert forall i :: 0 <= i < |front| ==> front[i] == runs[i];
    EveryDayOnce(front);
    assert runs[|front| - 1 + 1].day == runs[|front| - 1].day + 1;
  }

  lemma NothingListed()
    ensures Listed(EMPTY) == {}
  {
  }

  lemma {:induction false} EveryDayOnce(runs: seq<DayRun>)
    requires EveryDay(runs)
    ensures OncePerDay(runs)
  {
    if runs == [] {
    } else {
      var front := runs[..|runs| - 1];
      assert forall i :: 0 <= i < |front| ==> front[i] == runs[i];
      EveryDayOnce(front);
      if |runs| > 1 {
        assert runs[|front| - 1 + 1].day == runs[|front| - 1].day + 1;
      }
      forall i | 0 <= i < |front| ensures runs[i].day < runs[|front|].day {
        assert front[i].day <= front[|front| - 1].day;
      }
    }
  }

  // The point-in-time answer for a date, fixed once the runs have moved past it.
  lemma {:induction false} PointInTime(s: State, runs: seq<DayRun>, day: int)
    requires forall i :: 0 <= i < |runs| ==> runs[i].day != day
    ensures UniverseAt(Run(s, runs), day) == UniverseAt(s, day)
  {
    if runs == [] {
    } else {
      var front, run := runs[..|runs| - 1], runs[|runs| - 1];
      PointInTime(s, front, day);
      UniverseAtAfter(Run(s, front), run, day);
      hide UniverseAt, Step, Seen, SymbolsOn;
    }
  }

  lemma RunOfNone()
    ensures Run(EMPTY, []) == EMPTY
  {
  }

  lemma RunOfTwo(one: DayRun, two: DayRun)
    ensures Run(EMPTY, [one, two]) == Step(Step(EMPTY, one), two)
  {
    hide Step;
    var runs := [one, two];
    assert runs[..1] == [one] && [one][..0] == [];
    assert Run(EMPTY, [one]) == Step(EMPTY, one);
  }

  // After a missed day a symbol that vanished meanwhile stays listed, and after two runs on
  // one date with different tickers a symbol just seen can stay delisted: both conditions of
  // the exact lemmas above are needed.
  lemma MissedDayKeepsStale(a: string, b: string, t: Ticker)
    requires IsPerp(a) && IsPerp(b) && a != b
    ensures var runs := [DayRun(1, 10, Some(map[a := t])), DayRun(3, 30, Some(map[b := t]))];
            OncePerDay(runs) && Listed(Run(EMPTY, runs)) == {a, b} && Seen(runs[1]).Keys == {b}
  {
    hide Run, Step, SymbolsOn, Listed, Seen;
    var one, two := DayRun(1, 10, Some(map[a := t])), DayRun(3, 30, Some(map[b := t]));
    SeenOne(one, a, t);
    SeenOne(two, b, t);
    RunOfTwo(one, two);
    RunOfNone();
    var s := Step(EMPTY, one);
    SnapshotsComeFromRuns([], 0);
    NothingListed();
    ListedAfter(EMPTY, one);
    SnapshotsComeFromRuns([one], 2);
    RunOfOne(one);
    ListedAfter(s, two);
  }

  lemma SeenOne(run: DayRun, a: string, t: Ticker)
    requires IsPerp(a) && run.tickers == Some(map[a := t])
    ensures Seen(run).Keys == {a} && Seen(run) != map[]
  {
    assert a in Seen(run);
  }

  lemma RunOfOne(one: DayRun)
    ensures Run(EMPTY, [one]) == Step(EMPTY, one)
  {
    hide Step;
    assert [one][..0] == [];
  }

  lemma RerunLeavesDelisted(a: string, b: string, t: Ticker)
    requires IsPerp(a) && IsPerp(b) && a != b
    ensures var first, second, third := DayRun(1, 10, Some(map[a := t])), DayRun(2, 20, Some(map[b := t])),
                                        DayRun(2, 30, Some(map[a := t]));
            Seen(third).Keys == {a} && a !in Listed(Step(Step(Step(EMPTY, first), second), third))
  {
    var first, second, third := DayRun(1, 10, Some(map[a := t])), DayRun(2, 20, Some(map[b := t])),
                                DayRun(2, 30, Some(map[a := t]));
    assert Seen(first).Keys == {a} && Seen(second).Keys == {b} && Seen(third).Keys == {a};
    hide Seen;
    var s1 := Step(EMPTY, first);
    var s2 := Step(s1, second);
    SnapshotFacts(EMPTY.snapshots, 1, Seen(first), 1);
    SnapshotFacts(s1.snapshots, 2, Seen(second), 1);
    ListedAfter(s1, second);
    ListedAfter(s2, third);
    hide WithSnapshot, Updated, SymbolsOn, Listed;
  }

  // --- The job and the tiers as they run --------------------------------------------------------

  class UniverseDb {
    var symbols: map<string, SymbolRow>

    constructor ()
      ensures symbols == map[]
    {
      symbols := map[];
    }

    method Relist(added: set<string>, now: int)
      modifies this
      ensures symbols == Relisted(old(symbols), added, now)
    {
      ghost var before := symbols;
      var rest := added;
      while rest != {}
        invariant rest <= added
        invariant symbols == Relisted(before, added - rest, now)
        decreases |rest|
      {
        var k :| k in rest;
        rest := rest - {k};
        symbols := symbols[k := if k in symbols then symbols[k].(delistedAt := None) else SymbolRow(now, None, DEFAULT_TIER)];
      }
      assert added - rest == added;
    }

    method Delist(gone: set<string>, now: int)
      modifies this
      ensures symbols == Delisted(old(symbols), gone, now)
    {
      ghost var before := symbols;
      var rest := gone;
      while rest != {}
        invariant rest <= gone
        invariant symbols == Delisted(before, gone - rest, now)
        decreases |rest|
      {
        var k :| k in rest;
        rest := rest - {k};
        if k in symbols && symbols[k].delistedAt == None {
          symbols := symbols[k := symbols[k].(delistedAt := Some(now))];
        }
      }
      assert gone - rest == gone;
    }
  }

  predicate RecordsOf(records: seq<Record<SnapKey, Info>>, day: int, seen: map<string, Info>) {
    && (forall i :: 0 <= i < |records| ==>
          records[i].key.day == day && records[i].key.symbol in seen && records[i].val == seen[records[i].key.symbol])
    && forall k :: k in seen ==> Mentions(records, SnapKey(day, k))
  }

  method RecordsFor(day: int, seen: map<string, Info>) returns (records: seq<Record<SnapKey, Info>>)
    ensures |records| == |seen| && RecordsOf(records, day, seen)
  {
    records := [];
    var rest := seen.Keys;
    while rest != {}
      invariant rest <= seen.Keys && |records| + |rest| == |seen|
      invariant forall i :: 0 <= i < |records| ==>
                  records[i].key.day == day && records[i].key.symbol in seen && records[i].val == seen[records[i].key.symbol]
      invariant forall k :: k in seen.Keys - rest ==> Mentions(records, SnapKey(day, k))
      decreases |rest|
    {
      var k :| k in rest;
      rest := rest - {k};
      MentionsSnoc(records, Record(SnapKey(day, k), seen[k]));
      hide Mentions;
      records := records + [Record(SnapKey(day, k), seen[k])];
    }
  }

  lemma MentionsSnoc<K, V>(rs: seq<Record<K, V>>, r: Record<K, V>)
    ensures Mentions(rs + [r], r.key)
    ensures forall k :: Mentions(rs, k) ==> Mentions(rs + [r], k)
  {
    var all := rs + [r];
    assert all[|rs|] == r && forall i :: 0 <= i < |rs| ==> all[i] == rs[i];
  }

  lemma RecordsWrite(t: map<SnapKey, Info>, records: seq<Record<SnapKey, Info>>, day: int, seen: map<string, Info>)
    requires RecordsOf(records, day, seen)
    ensures InsertAll(t, records) == WithSnapshot(t, day, seen)
  {
    hide InsertAll;
    forall k ensures k in InsertAll(t, records) <==> k in WithSnapshot(t, day, seen) {
      MergeMeaning(t, records, k);
      assert k in KeysOn(day, seen) <==> k.day == day && k.symbol in seen;
      assert k.day == day ==> SnapKey(day, k.symbol) == k;
    }
    forall k | k in InsertAll(t, records) ensures InsertAll(t, records)[k] == WithSnapshot(t, day, seen)[k] {
      MergeMeaning(t, records, k);
    }
  }

  // universe_snapshot_job: the result counts the rows offered, not the rows that were new.
  // The symbol updates are one transaction of their own, which may raise.
  method UniverseSnapshotJob(conn: Connection<SnapKey, Info>, snapshots: Hypertable<SnapKey, Info>, db: UniverseDb,
                             run: DayRun, raises: bool) returns (n: nat)
    modifies conn, snapshots, db
    ensures var before := State(old(snapshots.rows), old(db.symbols));
            State(snapshots.rows, db.symbols) == if raises then HalfStep(before, run) else Step(before, run)
    ensures n == |Seen(run)|
  {
    if run.tickers.None? {
      return 0;
    }
    var qualifying := FilterQualifyingTickers(run.tickers.value);
    if qualifying == map[] {
      return 0;
    }
    if raises {
      n := WriteSnapshot(conn, snapshots, run.day, qualifying);
    } else {
      n := RecordDay(conn, snapshots, db, run.day, run.now, qualifying);
    }
  }

  method RecordDay(conn: Connection<SnapKey, Info>, snapshots: Hypertable<SnapKey, Info>, db: UniverseDb, day: int,
                   now: int, seen: map<string, Info>) returns (n: nat)
    modifies conn, snapshots, db
    ensures State(snapshots.rows, db.symbols) == Recorded(State(old(snapshots.rows), old(db.symbols)), day, now, seen)
    ensures n == |seen|
  {
    hide SymbolsOn, WithSnapshot, Relisted, Delisted;
    n := WriteSnapshot(conn, snapshots, day, seen);
    var yesterday := SymbolsOn(snapshots.rows, day - 1);
    SnapshotFacts(old(snapshots.rows), day, seen, day - 1);
    db.Relist(seen.Keys - yesterday, now);
    db.Delist(yesterday - seen.Keys, now);
  }

  method WriteSnapshot(conn: Connection<SnapKey, Info>, snapshots: Hypertable<SnapKey, Info>, day: int,
                       seen: map<string, Info>) returns (n: nat)
    modifies conn, snapshots
    ensures snapshots.rows == WithSnapshot(old(snapshots.rows), day, seen) && n == |seen|
  {
    var records := RecordsFor(day, seen);
    RecordsWrite(snapshots.rows, records, day, seen);
    hide InsertAll, WithSnapshot, RecordsOf;
    n := CopyIntoHypertable(conn, snapshots, records);
  }

  // --- Tiers ---------------------------------------------------------------------------------------

  // A possible answer to ORDER BY volume DESC LIMIT n; ties are broken any way.
  ghost predicate IsTop(volumes: map<string, real>, n: nat, top: set<string>) {
    && top <= volumes.Keys && |top| == (if n < |volumes| then n else |volumes|)
    && forall a, b :: a in top && b in volumes && b !in top ==> volumes[a] >= volumes[b]
  }

  function Retiered(symbols: map<string, SymbolRow>, top: set<string>): map<string, SymbolRow> {
    map k | k in symbols ::
      if top == {} || symbols[k].delistedAt != None then symbols[k]
      else symbols[k].(tier := if k in top then 1 else 2)
  }

  // recompute_tier1, given what the query returned: two updates, one after the other.
  method RecomputeTier1(db: UniverseDb, top: set<string>)
    modifies db
    ensures db.symbols == Retiered(old(db.symbols), top)
    ensures db.symbols.Keys == old(db.symbols.Keys)
    ensures forall k :: k in db.symbols ==>
              var before := old(db.symbols)[k];
              db.symbols[k] == SymbolRow(before.firstSeen, before.delistedAt,
                if top == {} || before.delistedAt.Some? then before.tier else if k in top then 1 else 2)
  {
    if top == {} {
      return;
    }
    db.symbols := map k | k in db.symbols ::
      if k in top && db.symbols[k].delistedAt == None then db.symbols[k].(tier := 1) else db.symbols[k];
    db.symbols := map k | k in db.symbols ::
      if k !in top && db.symbols[k].delistedAt == None then db.symbols[k].(tier := 2) else db.symbols[k];
  }

  function FirstTier(s: State): set<string> {
    set k | k in s.symbols && s.symbols[k].delistedAt == None && s.symbols[k].tier == 1
  }

  // After a rerank on some data the first tier holds listed symbols that no other listed
  // symbol outranks, at most n of them; a delisted symbol that still has recent volume uses
  // up a place. Without data nothing changes.
  lemma FirstTierIsTop(s: State, volumes: map<string, real>, n: nat, top: set<string>)
    requires IsTop(volumes, n, top)
    ensures var after := s.(symbols := Retiered(s.symbols, top));
            && Listed(after) == Listed(s)
            && (top == {} ==> after == s)
            && (top != {} ==>
                  && (forall k :: k in Listed(s) - FirstTier(after) ==> after.symbols[k].tier == 2)
                  && (forall a, b :: a in FirstTier(after) && b in Listed(s) - FirstTier(after) && b in volumes ==>
                        volumes[a] >= volumes[b])
                  && |FirstTier(after)| <= n
                  && (|FirstTier(after)| == |top| <==> top <= Listed(s)))
  {
    if top == {} {
      assert Retiered(s.symbols, top) == s.symbols;
    } else {
      var after := s.(symbols := Retiered(s.symbols, top));
      FirstTierIs(s, top);
      SubsetSize(FirstTier(after), top);
      hide Listed, FirstTier, Retiered;
      if top <= Listed(s) {
        assert top * Listed(s) == top;
      }
    }
  }

  lemma FirstTierIs(s: State, top: set<string>)
    requires top != {}
    ensures var after := s.(symbols := Retiered(s.symbols, top));
            && Listed(after) == Listed(s) && FirstTier(after) == top * Listed(s)
            && forall k :: k in Listed(s) - FirstTier(after) ==> k in after.symbols && after.symbols[k].tier == 2
  {
  }

  // The first tier is within the query's answer, and so empty without candle data as
  // documented, exactly when there is data or the first tier was empty already.
  lemma FirstTierWithinTopIff(s: State, top: set<string>)
    ensures FirstTier(s.(symbols := Retiered(s.symbols, top))) <= top <==> top != {} || FirstTier(s) == {}
  {
    if top == {} {
      assert Retiered(s.symbols, top) == s.symbols;
    }
  }

  // Every listed symbol has tier 2 after a rerank without candle data exactly when every
  // one had it before.
  lemma NoDataTierTwoIff(s: State)
    ensures var after := s.(symbols := Retiered(s.symbols, {}));
            (forall k :: k in Listed(after) ==> after.symbols[k].tier == 2) <==>
            (forall k :: k in Listed(s) ==> s.symbols[k].tier == 2)
  {
    assert Retiered(s.symbols, {}) == s.symbols;
  }

  // So a symbol of the first tier stays there when the candles are gone.
  lemma NoDataKeepsFirstTier(k: string)
    ensures var s := State(map[], map[k := SymbolRow(0, None, 1)]);
            IsTop(map[], 50, {}) && FirstTier(s.(symbols := Retiered(s.symbols, {}))) == {k}
  {
    var s := State(map[], map[k := SymbolRow(0, None, 1)]);
    assert Retiered(s.symbols, {}) == s.symbols;
    assert k in FirstTier(s);
  }
}
