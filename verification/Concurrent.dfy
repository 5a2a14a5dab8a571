// backfill_universe: many tasks under one semaphore, every interleaving.
module ConcurrentBackfill {
  import opened Store
  import opened Market
  import opened Backfill

  datatype Task = Task(symbol: string, tf: Timeframe)

  // Where a task is. A finished task remembers the cursor it stopped at.
  datatype Phase = Waiting | Paging(cursor: int, written: nat) | Done(cursor: int, written: nat)

  // The two candle tables, the free slots of the semaphore and the phase of every task.
  datatype State = State(minutes: Candles, days: Candles, permits: int, phases: seq<Phase>)

  // One call of backfill_universe: what the exchange has for each symbol and timeframe, how
  // it cuts each task's pages, the tasks (repetitions allowed), the window and the limit.
  datatype Config = Config(
    feed: (string, Timeframe) -> seq<Raw>, serve: nat -> int -> PageLen, tasks: seq<Task>,
    since: int, until: int, maxConcurrency: nat)

  ghost predicate Contract(cfg: Config) {
    forall s, tf :: Spaced(cfg.feed(s, tf), StepMs(tf))
  }

  function TableOf(s: State, tf: Timeframe): Candles {
    if tf == D1 then s.days else s.minutes
  }

  function Write(s: State, tf: Timeframe, recs: seq<CandleRecord>): State {
    if tf == D1 then s.(days := InsertAll(s.days, recs)) else s.(minutes := InsertAll(s.minutes, recs))
  }

  function Init(cfg: Config, minutes: Candles, days: Candles): State {
    State(minutes, days, cfg.maxConcurrency, seq(|cfg.tasks|, _ => Waiting))
  }

  function FeedOf(cfg: Config, i: nat): seq<Raw>
    requires i < |cfg.tasks|
  {
    cfg.feed(cfg.tasks[i].symbol, cfg.tasks[i].tf)
  }

  // The next phase of task i, given whether a slot is free: a task without a table returns
  // at once; otherwise it takes a slot, then goes from page to page until it is done.
  function NextPhase(cfg: Config, i: nat, p: Phase, free: bool): Phase
    requires i < |cfg.tasks|
  {
    match p
    case Waiting =>
      if !HasTable(cfg.tasks[i].tf) then Done(cfg.since, 0)
      else if free then Paging(cfg.since, 0)
      else p
    case Paging(cursor, written) =>
      var next := NextCursor(FeedOf(cfg, i), cfg.serve(i), cursor, StepMs(cfg.tasks[i].tf));
      if cursor >= cfg.until || next.None? then Done(cursor, written)
      else Paging(next.value, written + |PageRecords(cfg, i, p)|)
    case Done(_, _) => p
  }

  // The records that step writes.
  function PageRecords(cfg: Config, i: nat, p: Phase): seq<CandleRecord>
    requires i < |cfg.tasks|
  {
    var feed := FeedOf(cfg, i);
    if p.Paging? && p.cursor < cfg.until
    then RecordsOf(cfg.tasks[i].symbol, ValidOf(Page(feed, p.cursor, cfg.serve(i)(p.cursor))))
    else []
  }

  function Inside(p: Phase): int { if p.Paging? then 1 else 0 }

  // One atomic step of task i, or no change when it cannot move. A slot is taken on
  // entering the pagination loop and given back on leaving it.
  function StepTask(cfg: Config, s: State, i: nat): State
    requires i < |cfg.tasks| == |s.phases|
  {
    var p := NextPhase(cfg, i, s.phases[i], s.permits > 0);
    Write(s, cfg.tasks[i].tf, PageRecords(cfg, i, s.phases[i])).(
      permits := s.permits + Inside(s.phases[i]) - Inside(p), phases := s.phases[i := p])
  }

  // A run: the order in which the event loop lets the tasks move.
  function Run(cfg: Config, s: State, schedule: seq<nat>): (r: State)
    requires |cfg.tasks| == |s.phases|
    ensures |r.phases| == |s.phases|
  {
    if schedule == [] then s else
      var mid := Run(cfg, s, schedule[..|schedule| - 1]);
      var i := schedule[|schedule| - 1];
      if i < |cfg.tasks| then StepTask(cfg, mid, i) else mid
  }

  // --- The semaphore ----------------------------------------------------------

  function InLoop(phases: seq<Phase>): nat {
    if phases == [] then 0 else
      InLoop(phases[..|phases| - 1]) + Inside(phases[|phases| - 1])
  }

  lemma {:induction false} InLoopUpdate(phases: seq<Phase>, i: nat, p: Phase)
    requires i < |phases|
    ensures InLoop(phases[i := p]) == InLoop(phases) - Inside(phases[i]) + Inside(p)
  {
    var front, now := phases[..|phases| - 1], phases[i := p];
    if i < |front| {
      InLoopUpdate(front, i, p);
      assert now[..|now| - 1] == front[i := p];
    } else {
      assert now[..|now| - 1] == front;
    }
  }

  lemma {:induction false} NobodyInLoop(n: nat)
    ensures InLoop(seq(n, _ => Waiting)) == 0
  {
    if n == 0 {
    } else {
      var all := seq(n, _ => Waiting);
      assert all[..|all| - 1] == seq(n - 1, _ => Waiting);
      NobodyInLoop(n - 1);
    }
  }

  lemma {:induction false} InLoopCounts(phases: seq<Phase>)
    ensures |set i | 0 <= i < |phases| && phases[i].Paging?| == InLoop(phases)
  {
    var all := set i | 0 <= i < |phases| && phases[i].Paging?;
    if phases == [] {
      assert all == {};
    } else {
      var front, n := phases[..|phases| - 1], |phases| - 1;
      InLoopCounts(front);
      var before := set i | 0 <= i < |front| && front[i].Paging?;
      assert all == if phases[n].Paging? then before + {n} else before;
    }
  }

  // In every reachable state the free slots and the tasks inside the pagination loop add
  // up to the limit, so never more than the limit are inside.
  lemma {:induction false} SemaphoreRespected(cfg: Config, minutes: Candles, days: Candles, schedule: seq<nat>)
    ensures var s := Run(cfg, Init(cfg, minutes, days), schedule);
            s.permits + InLoop(s.phases) == cfg.maxConcurrency && 0 <= s.permits && InLoop(s.phases) <= cfg.maxConcurrency
    ensures var s := Run(cfg, Init(cfg, minutes, days), schedule);
            |set i | 0 <= i < |s.phases| && s.phases[i].Paging?| <= cfg.maxConcurrency
  {
    InLoopCounts(Run(cfg, Init(cfg, minutes, days), schedule).phases);
    if schedule == [] {
      NobodyInLoop(|cfg.tasks|);
    } else {
      var front, i := schedule[..|schedule| - 1], schedule[|schedule| - 1];
      SemaphoreRespected(cfg, minutes, days, front);
      var s := Run(cfg, Init(cfg, minutes, days), front);
      if i < |cfg.tasks| {
        InLoopUpdate(s.phases, i, NextPhase(cfg, i, s.phases[i], s.permits > 0));
        hide NextCursor, PageRecords, InsertAll;
      }
    }
  }

  // --- Progress ---------------------------------------------------------------

  ghost predicate AllDone(s: State) {
    forall i :: 0 <= i < |s.phases| ==> s.phases[i].Done?
  }

  lemma {:induction false} SomeoneInLoop(phases: seq<Phase>) returns (i: nat)
    requires InLoop(phases) > 0
    ensures i < |phases| && phases[i].Paging?
  {
    if phases[|phases| - 1].Paging? {
      i := |phases| - 1;
    } else {
      i := SomeoneInLoop(phases[..|phases| - 1]);
    }
  }

  // No deadlock: with at least one slot, some task can move until all are done.
  lemma NoDeadlock(cfg: Config, minutes: Candles, days: Candles, schedule: seq<nat>) returns (i: nat)
    requires Contract(cfg) && cfg.maxConcurrency > 0
    requires !AllDone(Run(cfg, Init(cfg, minutes, days), schedule))
    ensures var s := Run(cfg, Init(cfg, minutes, days), schedule);
            i < |cfg.tasks| && StepTask(cfg, s, i).phases != s.phases
  {
    var s := Run(cfg, Init(cfg, minutes, days), schedule);
    SemaphoreRespected(cfg, minutes, days, schedule);
    if s.permits > 0 {
      i :| 0 <= i < |s.phases| && !s.phases[i].Done?;
    } else {
      i := SomeoneInLoop(s.phases);
    }
    var task := cfg.tasks[i];
    var feed := cfg.feed(task.symbol, task.tf);
    if s.phases[i].Paging? && NextCursor(feed, cfg.serve(i), s.phases[i].cursor, StepMs(task.tf)).Some? {
      CursorAdvances(feed, cfg.serve(i), s.phases[i].cursor, StepMs(task.tf));
    }
    hide NextCursor, PageRecords, InsertAll;
  }

  // The steps a task may still take: one to start, one to stop, and at most one per row of
  // the exchange that its cursor has not passed.
  ghost function Left(cfg: Config, i: nat, p: Phase): nat
    requires i < |cfg.tasks|
  {
    match p
    case Waiting => 2 + |FeedOf(cfg, i)| - Before(FeedOf(cfg, i), cfg.since)
    case Paging(c, _) => 1 + |FeedOf(cfg, i)| - Before(FeedOf(cfg, i), c)
    case Done(_, _) => 0
  }

  ghost function TotalLeft(cfg: Config, phases: seq<Phase>): nat
    requires |phases| <= |cfg.tasks|
  {
    if phases == [] then 0
    else TotalLeft(cfg, phases[..|phases| - 1]) + Left(cfg, |phases| - 1, phases[|phases| - 1])
  }

  lemma {:induction false} TotalLeftUpdate(cfg: Config, phases: seq<Phase>, i: nat, p: Phase)
    requires i < |phases| <= |cfg.tasks|
    ensures TotalLeft(cfg, phases[i := p]) == TotalLeft(cfg, phases) - Left(cfg, i, phases[i]) + Left(cfg, i, p)
  {
    hide Left;
    var front, now := phases[..|phases| - 1], phases[i := p];
    if i < |front| {
      TotalLeftUpdate(cfg, front, i, p);
      assert now[..|now| - 1] == front[i := p];
    } else {
      assert now[..|now| - 1] == front;
    }
  }

  lemma MoveUsesStep(cfg: Config, i: nat, p: Phase, free: bool)
    requires i < |cfg.tasks| && Contract(cfg) && NextPhase(cfg, i, p, free) != p
    ensures Left(cfg, i, NextPhase(cfg, i, p, free)) < Left(cfg, i, p)
  {
    hide Before, NextCursor, Page, PageRecords, Spaced;
    var feed, step := FeedOf(cfg, i), StepMs(cfg.tasks[i].tf);
    if p.Paging? && p.cursor < cfg.until && NextCursor(feed, cfg.serve(i), p.cursor, step).Some? {
      var v := PageMoves(feed, cfg.serve(i), p.cursor, step);
    }
  }

  lemma MoveCounts(cfg: Config, s: State, i: nat)
    requires Contract(cfg) && i < |cfg.tasks| == |s.phases| && StepTask(cfg, s, i).phases != s.phases
    ensures TotalLeft(cfg, StepTask(cfg, s, i).phases) < TotalLeft(cfg, s.phases)
  {
    hide NextPhase, Left, TotalLeft, Contract, PageRecords, InsertAll;
    var q := NextPhase(cfg, i, s.phases[i], s.permits > 0);
    assert StepTask(cfg, s, i).phases == s.phases[i := q];
    MoveUsesStep(cfg, i, s.phases[i], s.permits > 0);
    TotalLeftUpdate(cfg, s.phases, i, q);
  }

  lemma RunSnoc(cfg: Config, s: State, schedule: seq<nat>, i: nat)
    requires i < |cfg.tasks| == |s.phases|
    ensures Run(cfg, s, schedule + [i]) == StepTask(cfg, Run(cfg, s, schedule), i)
  {
    hide StepTask;
    assert (schedule + [i])[..|schedule|] == schedule;
  }

  // A schedule in which every step moves its task.
  ghost predicate KeepsMoving(cfg: Config, s: State, schedule: seq<nat>)
    requires |cfg.tasks| == |s.phases|
  {
    schedule == [] ||
    var front, i := schedule[..|schedule| - 1], schedule[|schedule| - 1];
    && KeepsMoving(cfg, s, front) && i < |cfg.tasks|
    && StepTask(cfg, Run(cfg, s, front), i).phases != Run(cfg, s, front).phases
  }

  // Termination: a schedule that keeps moving is no longer than the steps left at its
  // start, which the tasks and the exchange's rows bound.
  lemma {:induction false} MovingIsBounded(cfg: Config, s: State, schedule: seq<nat>)
    requires Contract(cfg) && |cfg.tasks| == |s.phases| && KeepsMoving(cfg, s, schedule)
    ensures |schedule| + TotalLeft(cfg, Run(cfg, s, schedule).phases) <= TotalLeft(cfg, s.phases)
  {
    if schedule == [] {
    } else {
      var front, i := schedule[..|schedule| - 1], schedule[|schedule| - 1];
      MovingIsBounded(cfg, s, front);
      hide StepTask, Left, TotalLeft, Contract;
      MoveCounts(cfg, Run(cfg, s, front), i);
    }
  }

  // From any reachable state some schedule finishes every task, so with the bound every
  // schedule that keeps moving is the start of one that ends with all tasks done.
  lemma {:induction false} CanFinish(cfg: Config, minutes: Candles, days: Candles, schedule: seq<nat>)
    returns (rest: seq<nat>)
    requires Contract(cfg) && cfg.maxConcurrency > 0
    ensures AllDone(Run(cfg, Init(cfg, minutes, days), schedule + rest))
    decreases TotalLeft(cfg, Run(cfg, Init(cfg, minutes, days), schedule).phases)
  {
    hide Run, StepTask, TotalLeft, Contract, AllDone;
    var start := Init(cfg, minutes, days);
    var s := Run(cfg, start, schedule);
    if AllDone(s) {
      rest := [];
      assert schedule + [] == schedule;
    } else {
      var i := NoDeadlock(cfg, minutes, days, schedule);
      RunSnoc(cfg, start, schedule, i);
      MoveCounts(cfg, s, i);
      var tail := CanFinish(cfg, minutes, days, schedule + [i]);
      rest := [i] + tail;
      assert schedule + rest == schedule + [i] + tail;
    }
  }

  // --- Determinism ------------------------------------------------------------

  // What task i ends with when it runs alone.
  ghost function Alone(cfg: Config, i: nat): Phase
    requires i < |cfg.tasks| && Contract(cfg)
  {
    var task, feed := cfg.tasks[i], FeedOf(cfg, i);
    if HasTable(task.tf) then
      var c := Reached(feed, cfg.serve(i), cfg.since, cfg.until, StepMs(task.tf));
      Done(c, |RecordsBetween(feed, task.symbol, cfg.since, c)|)
    else Done(cfg.since, 0)
  }

  function CursorOf(cfg: Config, p: Phase): int {
    if p.Waiting? then cfg.since else p.cursor
  }

  // A task's own progress depends on nothing but the exchange: not on the tables, and not
  // on the other tasks.
  ghost predicate OnCourse(cfg: Config, i: nat, p: Phase)
    requires i < |cfg.tasks| && Contract(cfg)
  {
    var task, feed, step := cfg.tasks[i], FeedOf(cfg, i), StepMs(cfg.tasks[i].tf);
    match p
    case Waiting => true
    case Paging(c, n) =>
      && HasTable(task.tf) && cfg.since <= c && Before(feed, cfg.since) <= Before(feed, c)
      && Reached(feed, cfg.serve(i), c, cfg.until, step) == Reached(feed, cfg.serve(i), cfg.since, cfg.until, step)
      && n == |RecordsBetween(feed, task.symbol, cfg.since, c)|
    case Done(c, n) => p == Alone(cfg, i)
  }

  // Task i has written the row of key k.
  ghost predicate WroteKey(cfg: Config, s: State, i: int, tf: Timeframe, k: Key)
    requires |cfg.tasks| == |s.phases|
  {
    && 0 <= i < |cfg.tasks| && cfg.tasks[i] == Task(k.symbol, tf)
    && cfg.since <= k.ts < CursorOf(cfg, s.phases[i])
    && exists j :: Offers(cfg.feed(k.symbol, tf), j, k.ts)
  }

  ghost predicate Wrote(cfg: Config, s: State, tf: Timeframe, k: Key)
    requires |cfg.tasks| == |s.phases|
  {
    exists i :: WroteKey(cfg, s, i, tf, k)
  }

  // A table holds the rows it started with, the rows written by the tasks, and nothing
  // else; a written row is the exchange's row.
  ghost predicate RowHeld(t: Candles, start: Candles, wrote: bool, feed: seq<Raw>, k: Key) {
    && (k in t <==> k in start || wrote)
    && (k in start ==> k in t && t[k] == start[k])
    && (k in t && k !in start ==> exists j :: Offers(feed, j, k.ts) && t[k] == OkRow(feed[j].bar.value))
  }

  ghost predicate Holds(cfg: Config, s: State, tf: Timeframe, start: Candles, k: Key)
    requires |cfg.tasks| == |s.phases|
  {
    RowHeld(TableOf(s, tf), start, Wrote(cfg, s, tf, k), cfg.feed(k.symbol, tf), k)
  }

  lemma MergeHeld(t: Candles, start: Candles, wrote: bool, feed: seq<Raw>, k: Key, recs: seq<CandleRecord>)
    requires RowHeld(t, start, wrote, feed, k)
    requires Mentions(recs, k) ==> exists j :: Offers(feed, j, k.ts) && FirstFor(recs, k) == OkRow(feed[j].bar.value)
    ensures RowHeld(InsertAll(t, recs), start, wrote || Mentions(recs, k), feed, k)
  {
    MergeMeaning(t, recs, k);
    hide InsertAll, Mentions, FirstFor, Offers;
  }

  lemma StepPositive(tf: Timeframe)
    ensures StepMs(tf) > 0
  {
  }

  lemma InContract(cfg: Config, s: string, tf: Timeframe)
    requires Contract(cfg)
    ensures Spaced(cfg.feed(s, tf), StepMs(tf))
  {
  }

  // One step keeps a task on course and writes the rows between its old and new cursor.
  lemma StepOnCourse(cfg: Config, i: nat, p: Phase, free: bool)
    requires i < |cfg.tasks| && Contract(cfg) && OnCourse(cfg, i, p)
    ensures var q := NextPhase(cfg, i, p, free);
            && OnCourse(cfg, i, q)
            && cfg.since <= CursorOf(cfg, p) <= CursorOf(cfg, q)
            && PageRecords(cfg, i, p) == RecordsBetween(FeedOf(cfg, i), cfg.tasks[i].symbol, CursorOf(cfg, p), CursorOf(cfg, q))
  {
    var task, feed, step := cfg.tasks[i], FeedOf(cfg, i), StepMs(cfg.tasks[i].tf);
    hide Spaced, Before, ValidOf, Page, RecordsBetween, RecordsOf, NextCursor, InsertAll, Contract, Reached;
    NothingBetween(map[], feed, task.symbol, CursorOf(cfg, p));
    match p
    case Waiting =>
    case Paging(c, n) =>
      PageOnCourse(cfg, i, p, free);
    case Done(_, _) =>
      AloneAfterSince(cfg, i);
      assert PageRecords(cfg, i, p) == [];
  }

  lemma PageOnCourse(cfg: Config, i: nat, p: Phase, free: bool)
    requires i < |cfg.tasks| && Contract(cfg) && OnCourse(cfg, i, p) && p.Paging?
    ensures var q := NextPhase(cfg, i, p, free);
            && OnCourse(cfg, i, q) && cfg.since <= p.cursor <= q.cursor
            && PageRecords(cfg, i, p) == RecordsBetween(FeedOf(cfg, i), cfg.tasks[i].symbol, p.cursor, q.cursor)
  {
    hide Spaced, Before, ValidOf, Page, RecordsBetween, RecordsOf, NextCursor, InsertAll, Contract, Reached;
    var task, feed, step, c := cfg.tasks[i], FeedOf(cfg, i), StepMs(cfg.tasks[i].tf), p.cursor;
    NothingBetween(map[], feed, task.symbol, c);
    InContract(cfg, task.symbol, task.tf);
    ReachedStep(feed, cfg.serve(i), c, cfg.until, step);
    NextOf(feed, cfg.serve(i), c, step);
    if c < cfg.until {
      if NextCursor(feed, cfg.serve(i), c, step).Some? {
        LoopTurn(map[], feed, cfg.serve(i), task.symbol, cfg.since, c, cfg.until, step);
        PageRows(feed, cfg.serve(i), task.symbol, c, step);
      } else {
        assert PageRecords(cfg, i, p) == RecordsOf(task.symbol, []);
        NoRecords(task.symbol);
      }
    }
  }

  lemma NoRecords(symbol: string)
    ensures RecordsOf(symbol, []) == []
  {
  }

  lemma PageRows(feed: seq<Raw>, serve: int -> PageLen, symbol: string, c: int, step: int)
    requires step > 0 && Spaced(feed, step) && NextCursor(feed, serve, c, step).Some?
    ensures RecordsOf(symbol, ValidOf(Page(feed, c, serve(c))))
            == RecordsBetween(feed, symbol, c, NextCursor(feed, serve, c, step).value)
  {
    PageCovers(feed, serve, c, step);
    hide Spaced, Before, ValidOf, Page, RecordsOf, NextCursor, Between;
  }

  lemma AloneAfterSince(cfg: Config, i: nat)
    requires i < |cfg.tasks| && Contract(cfg)
    ensures Alone(cfg, i).Done? && cfg.since <= Alone(cfg, i).cursor
  {
    hide RecordsBetween;
  }

  // What one step does to the tables.
  lemma StepWrites(cfg: Config, s: State, i: nat, tf: Timeframe)
    requires i < |cfg.tasks| == |s.phases| && HasTable(tf)
    requires s.phases[i].Paging? ==> HasTable(cfg.tasks[i].tf)
    ensures TableOf(StepTask(cfg, s, i), tf) ==
            if tf == cfg.tasks[i].tf then InsertAll(TableOf(s, tf), PageRecords(cfg, i, s.phases[i])) else TableOf(s, tf)
  {
    hide NextPhase;
    if !HasTable(cfg.tasks[i].tf) {
      assert PageRecords(cfg, i, s.phases[i]) == [];
      assert InsertAll(TableOf(s, tf), []) == TableOf(s, tf);
    }
  }

  lemma StepHolds(cfg: Config, s: State, i: nat, tf: Timeframe, start: Candles, k: Key)
    requires i < |cfg.tasks| == |s.phases| && Contract(cfg) && OnCourse(cfg, i, s.phases[i]) && HasTable(tf)
    requires Holds(cfg, s, tf, start, k)
    ensures Holds(cfg, StepTask(cfg, s, i), tf, start, k)
  {
    hide StepTask, NextPhase, PageRecords, OnCourse, InsertAll, Offers, Mentions, FirstFor, TableOf, Wrote, JustWrote, RowHeld, Contract;
    CourseHasTable(cfg, i, s.phases[i]);
    StepWrites(cfg, s, i, tf);
    WriterStep(cfg, s, i, tf, k);
    if tf == cfg.tasks[i].tf {
      PageOffers(cfg, i, s.phases[i], s.permits > 0, k);
      MergeHeld(TableOf(s, tf), start, Wrote(cfg, s, tf, k), cfg.feed(k.symbol, tf), k, PageRecords(cfg, i, s.phases[i]));
    } else {
      assert !JustWrote(cfg, i, s.phases[i], NextPhase(cfg, i, s.phases[i], s.permits > 0), tf, k) by {
        OtherTable(cfg, i, s.phases[i], NextPhase(cfg, i, s.phases[i], s.permits > 0), tf, k);
      }
    }
  }

  lemma CourseHasTable(cfg: Config, i: nat, p: Phase)
    requires i < |cfg.tasks| && Contract(cfg) && OnCourse(cfg, i, p)
    ensures p.Paging? ==> HasTable(cfg.tasks[i].tf)
  {
    hide Reached, RecordsBetween, Before, Alone;
  }

  lemma OtherTable(cfg: Config, i: nat, p: Phase, q: Phase, tf: Timeframe, k: Key)
    requires i < |cfg.tasks| && tf != cfg.tasks[i].tf
    ensures !JustWrote(cfg, i, p, q, tf, k)
  {
    hide Offers;
  }

  // The keys of a page's records are the keys the step accounts for.
  lemma PageOffers(cfg: Config, i: nat, p: Phase, free: bool, k: Key)
    requires i < |cfg.tasks| && Contract(cfg) && OnCourse(cfg, i, p)
    ensures var recs, tf := PageRecords(cfg, i, p), cfg.tasks[i].tf;
            && (Mentions(recs, k) <==> JustWrote(cfg, i, p, NextPhase(cfg, i, p, free), tf, k))
            && (Mentions(recs, k) ==>
                  exists j :: Offers(cfg.feed(k.symbol, tf), j, k.ts)
                              && FirstFor(recs, k) == OkRow(cfg.feed(k.symbol, tf)[j].bar.value))
  {
    hide NextPhase, PageRecords, OnCourse, Mentions, FirstFor, Offers, Contract, Spaced, RecordsBetween, CursorOf, StepMs;
    var task, q := cfg.tasks[i], NextPhase(cfg, i, p, free);
    StepOnCourse(cfg, i, p, free);
    InContract(cfg, task.symbol, task.tf);
    StepPositive(task.tf);
    WritesOnlyTheFeed(FeedOf(cfg, i), task.symbol, CursorOf(cfg, p), CursorOf(cfg, q), StepMs(task.tf), k);
  }

  // The key lies in what task i wrote on its way from phase p to phase q.
  ghost predicate JustWrote(cfg: Config, i: nat, p: Phase, q: Phase, tf: Timeframe, k: Key)
    requires i < |cfg.tasks|
  {
    && cfg.tasks[i] == Task(k.symbol, tf) && CursorOf(cfg, p) <= k.ts < CursorOf(cfg, q)
    && exists m :: Offers(cfg.feed(k.symbol, tf), m, k.ts)
  }

  lemma WriterStep(cfg: Config, s: State, i: nat, tf: Timeframe, k: Key)
    requires i < |cfg.tasks| == |s.phases| && Contract(cfg) && OnCourse(cfg, i, s.phases[i])
    ensures Wrote(cfg, StepTask(cfg, s, i), tf, k) <==>
            || Wrote(cfg, s, tf, k)
            || JustWrote(cfg, i, s.phases[i], NextPhase(cfg, i, s.phases[i], s.permits > 0), tf, k)
  {
    var p, t := s.phases[i], StepTask(cfg, s, i);
    var q := NextPhase(cfg, i, p, s.permits > 0);
    StepOnCourse(cfg, i, p, s.permits > 0);
    assert t.phases == s.phases[i := q];
    forall j ensures WroteKey(cfg, t, j, tf, k) <==> WroteKey(cfg, s, j, tf, k) || (j == i && JustWrote(cfg, i, p, q, tf, k)) {
      WriterAt(cfg, s, t, i, q, j, tf, k);
    }
    hide StepTask, NextPhase, Contract, OnCourse, WroteKey, JustWrote;
    if JustWrote(cfg, i, p, q, tf, k) {
      assert WroteKey(cfg, t, i, tf, k);
    }
    if exists j :: WroteKey(cfg, s, j, tf, k) {
      var j :| WroteKey(cfg, s, j, tf, k);
      assert WroteKey(cfg, t, j, tf, k);
    }
  }

  lemma WriterAt(cfg: Config, s: State, t: State, i: nat, q: Phase, j: int, tf: Timeframe, k: Key)
    requires i < |cfg.tasks| == |s.phases| && t.phases == s.phases[i := q]
    requires cfg.since <= CursorOf(cfg, s.phases[i]) <= CursorOf(cfg, q)
    ensures WroteKey(cfg, t, j, tf, k) <==> WroteKey(cfg, s, j, tf, k) || (j == i && JustWrote(cfg, i, s.phases[i], q, tf, k))
  {
    hide CursorOf, Offers;
  }

  ghost predicate Invariant(cfg: Config, s: State, minutes: Candles, days: Candles)
    requires Contract(cfg)
  {
    && |cfg.tasks| == |s.phases|
    && (forall i :: 0 <= i < |cfg.tasks| ==> OnCourse(cfg, i, s.phases[i]))
    && (forall k :: Holds(cfg, s, M1, minutes, k) && Holds(cfg, s, D1, days, k))
  }

  lemma {:induction false} RunInvariant(cfg: Config, minutes: Candles, days: Candles, schedule: seq<nat>)
    requires Contract(cfg)
    ensures Invariant(cfg, Run(cfg, Init(cfg, minutes, days), schedule), minutes, days)
  {
    if schedule == [] {
      Started(cfg, minutes, days);
    } else {
      var front, i := schedule[..|schedule| - 1], schedule[|schedule| - 1];
      RunInvariant(cfg, minutes, days, front);
      var s := Run(cfg, Init(cfg, minutes, days), front);
      if i < |cfg.tasks| {
        StepInvariant(cfg, s, i, minutes, days);
      }
      hide Contract, Invariant, StepTask;
    }
  }

  lemma StepInvariant(cfg: Config, s: State, i: nat, minutes: Candles, days: Candles)
    requires Contract(cfg) && Invariant(cfg, s, minutes, days) && i < |cfg.tasks|
    ensures Invariant(cfg, StepTask(cfg, s, i), minutes, days)
  {
    StepOnCourse(cfg, i, s.phases[i], s.permits > 0);
    hide Contract, OnCourse, Holds, NextPhase, PageRecords, InsertAll;
    forall k ensures Holds(cfg, StepTask(cfg, s, i), M1, minutes, k) && Holds(cfg, StepTask(cfg, s, i), D1, days, k) {
      assert Holds(cfg, s, M1, minutes, k) && Holds(cfg, s, D1, days, k);
      StepHolds(cfg, s, i, M1, minutes, k);
      StepHolds(cfg, s, i, D1, days, k);
    }
  }

  lemma Started(cfg: Config, minutes: Candles, days: Candles)
    requires Contract(cfg)
    ensures Invariant(cfg, Init(cfg, minutes, days), minutes, days)
  {
    var s := Init(cfg, minutes, days);
    hide Offers;
    forall k ensures Holds(cfg, s, M1, minutes, k) && Holds(cfg, s, D1, days, k) {
      assert forall i, tf :: !WroteKey(cfg, s, i, tf, k);
      assert !Wrote(cfg, s, M1, k) && !Wrote(cfg, s, D1, k);
    }
  }

  // Each task that is done has reached and counted what it would have alone.
  lemma FinishedAsAlone(cfg: Config, minutes: Candles, days: Candles, schedule: seq<nat>, i: nat)
    requires Contract(cfg) && i < |cfg.tasks|
    requires Run(cfg, Init(cfg, minutes, days), schedule).phases[i].Done?
    ensures Run(cfg, Init(cfg, minutes, days), schedule).phases[i] == Alone(cfg, i)
  {
    RunInvariant(cfg, minutes, days, schedule);
    hide Run, Alone, Contract, Holds;
    assert OnCourse(cfg, i, Run(cfg, Init(cfg, minutes, days), schedule).phases[i]);
  }

  // Determinism: any two interleavings that run all tasks to the end leave the same two
  // tables and the same count for every task, whatever the limit was.
  lemma Deterministic(cfg: Config, minutes: Candles, days: Candles, a: seq<nat>, b: seq<nat>)
    requires Contract(cfg)
    requires AllDone(Run(cfg, Init(cfg, minutes, days), a)) && AllDone(Run(cfg, Init(cfg, minutes, days), b))
    ensures var x, y := Run(cfg, Init(cfg, minutes, days), a), Run(cfg, Init(cfg, minutes, days), b);
            x.minutes == y.minutes && x.days == y.days && x.phases == y.phases
  {
    var x, y := Run(cfg, Init(cfg, minutes, days), a), Run(cfg, Init(cfg, minutes, days), b);
    hide Run;
    forall i | 0 <= i < |cfg.tasks| ensures x.phases[i] == y.phases[i] {
      FinishedAsAlone(cfg, minutes, days, a, i);
      FinishedAsAlone(cfg, minutes, days, b, i);
    }
    RunInvariant(cfg, minutes, days, a);
    RunInvariant(cfg, minutes, days, b);
    hide Contract, OnCourse, Holds;
    SameTable(cfg, x, y, M1, minutes);
    SameTable(cfg, x, y, D1, days);
  }

  // What the two tables hold in the end: the rows they started with, and for every task on
  // one-minute or one-day candles the exchange's valid rows from `since` up to where that
  // task's pages stop, each as it is, from mexc_native and ok; nothing else.
  lemma FinalTables(cfg: Config, minutes: Candles, days: Candles, schedule: seq<nat>, k: Key)
    requires Contract(cfg) && AllDone(Run(cfg, Init(cfg, minutes, days), schedule))
    requires Spaced(cfg.feed(k.symbol, M1), 60_000) && Spaced(cfg.feed(k.symbol, D1), 86_400_000)
    ensures var s := Run(cfg, Init(cfg, minutes, days), schedule);
            && EndsWith(cfg, s.minutes, minutes, M1, 60_000, k)
            && EndsWith(cfg, s.days, days, D1, 86_400_000, k)
  {
    var s := Run(cfg, Init(cfg, minutes, days), schedule);
    hide Run;
    RunInvariant(cfg, minutes, days, schedule);
    forall i | 0 <= i < |cfg.tasks| ensures s.phases[i] == Alone(cfg, i) {
      FinishedAsAlone(cfg, minutes, days, schedule, i);
    }
    assert Holds(cfg, s, M1, minutes, k) && Holds(cfg, s, D1, days, k);
    hide Invariant, OnCourse, Contract, AllDone, Alone, Reached, EndsWith, Holds, Spaced;
    FinalTable(cfg, s, M1, minutes, k);
    FinalTable(cfg, s, D1, days, k);
  }

  lemma FinalTable(cfg: Config, s: State, tf: Timeframe, start: Candles, k: Key)
    requires Contract(cfg) && |s.phases| == |cfg.tasks| && HasTable(tf) && Spaced(cfg.feed(k.symbol, tf), StepMs(tf))
    requires Holds(cfg, s, tf, start, k) && forall i :: 0 <= i < |cfg.tasks| ==> s.phases[i] == Alone(cfg, i)
    ensures EndsWith(cfg, TableOf(s, tf), start, tf, StepMs(tf), k)
  {
    hide Contract, Alone, Reached, Wrote, Spaced, TableOf;
    WroteUpTo(cfg, s, tf, k);
    hide Fetched, Offers;
  }

  ghost predicate Fetched(cfg: Config, tf: Timeframe, step: int, k: Key, i: int)
    requires step > 0 && Spaced(cfg.feed(k.symbol, tf), step)
  {
    && 0 <= i < |cfg.tasks| && cfg.tasks[i].symbol == k.symbol && cfg.tasks[i].tf == tf
    && cfg.since <= k.ts < Reached(cfg.feed(k.symbol, tf), cfg.serve(i), cfg.since, cfg.until, step)
  }

  ghost predicate EndsWith(cfg: Config, t: Candles, start: Candles, tf: Timeframe, step: int, k: Key)
    requires step > 0 && Spaced(cfg.feed(k.symbol, tf), step)
  {
    var feed := cfg.feed(k.symbol, tf);
    && (k in start ==> k in t && t[k] == start[k])
    && (k in t <==> k in start || ((exists i :: Fetched(cfg, tf, step, k, i)) && exists j :: Offers(feed, j, k.ts)))
    && (k in t && k !in start ==> exists j :: Offers(feed, j, k.ts) && t[k] == Row(feed[j].bar.value, MexcNative, Ok))
  }

  lemma WroteUpTo(cfg: Config, s: State, tf: Timeframe, k: Key)
    requires Contract(cfg) && |s.phases| == |cfg.tasks| && HasTable(tf) && Spaced(cfg.feed(k.symbol, tf), StepMs(tf))
    requires forall i :: 0 <= i < |cfg.tasks| ==> s.phases[i] == Alone(cfg, i)
    ensures Wrote(cfg, s, tf, k) <==>
            (exists i :: Fetched(cfg, tf, StepMs(tf), k, i)) && exists j :: Offers(cfg.feed(k.symbol, tf), j, k.ts)
  {
    hide Reached, Offers, Contract;
    forall i ensures WroteKey(cfg, s, i, tf, k) <==>
                     Fetched(cfg, tf, StepMs(tf), k, i) && exists j :: Offers(cfg.feed(k.symbol, tf), j, k.ts) {
      if 0 <= i < |cfg.tasks| && cfg.tasks[i].symbol == k.symbol && cfg.tasks[i].tf == tf {
        assert cfg.tasks[i] == Task(k.symbol, tf);
        assert s.phases[i] == Alone(cfg, i);
      }
    }
    hide WroteKey, Fetched;
  }

  lemma SameTable(cfg: Config, x: State, y: State, tf: Timeframe, start: Candles)
    requires Contract(cfg) && |cfg.tasks| == |x.phases| && x.phases == y.phases && HasTable(tf)
    requires forall k :: Holds(cfg, x, tf, start, k) && Holds(cfg, y, tf, start, k)
    ensures TableOf(x, tf) == TableOf(y, tf)
  {
    forall k ensures k in TableOf(x, tf) <==> k in TableOf(y, tf) {
      assert Holds(cfg, x, tf, start, k) && Holds(cfg, y, tf, start, k);
      hide Offers, TableOf;
      assert forall i :: WroteKey(cfg, x, i, tf, k) <==> WroteKey(cfg, y, i, tf, k);
      assert Wrote(cfg, x, tf, k) <==> Wrote(cfg, y, tf, k);
    }
    forall k | k in TableOf(x, tf) ensures TableOf(x, tf)[k] == TableOf(y, tf)[k] {
      assert Holds(cfg, x, tf, start, k) && Holds(cfg, y, tf, start, k);
      InContract(cfg, k.symbol, tf);
      hide TableOf, Contract, WroteKey;
    }
    assert TableOf(x, tf).Keys == TableOf(y, tf).Keys;
  }
}
