// Round-robin polling: cursor arithmetic, the steps and jobs that use it, and crash replay.
module RoundRobin {
  import opened Store
  import opened Grid
  import opened Market
  import opened KvState

  // --- Cursor arithmetic ----------------------------------------------------------

  // A stored cursor is reduced to the current list, whatever list it was saved for.
  function StartOf(cursor: int, n: nat): (start: nat)
    ensures n > 0 ==> start < n
    ensures n == 0 ==> start == 0
  {
    cursor % if n > 1 then n else 1
  }

  function EndOf(start: nat, batch: nat, n: nat): nat {
    if start + batch < n then start + batch else n
  }

  function NextCursor(cursor: int, batch: nat, n: nat): nat {
    var end := EndOf(StartOf(cursor, n), batch, n);
    if end < n then end else 0
  }

  function Slice<T>(xs: seq<T>, cursor: int, batch: nat): seq<T> {
    xs[StartOf(cursor, |xs|)..EndOf(StartOf(cursor, |xs|), batch, |xs|)]
  }

  function CursorAfter(cursor: int, batch: nat, n: nat, steps: nat): int
    decreases steps
  {
    if steps == 0 then cursor else CursorAfter(NextCursor(cursor, batch, n), batch, n, steps - 1)
  }

  // Everything a number of steps poll, in order.
  function Polled<T>(xs: seq<T>, cursor: int, batch: nat, steps: nat): seq<T>
    decreases steps
  {
    if steps == 0 then []
    else Slice(xs, cursor, batch) + Polled(xs, NextCursor(cursor, batch, |xs|), batch, steps - 1)
  }

  function CeilDiv(x: nat, b: nat): nat
    requires b > 0
  {
    (x + b - 1) / b
  }

  lemma CeilDivStep(x: nat, b: nat)
    requires b > 0
    ensures 0 < x <= b ==> CeilDiv(x, b) == 1
    ensures x > b ==> CeilDiv(x, b) == 1 + CeilDiv(x - b, b)
  {
    if 0 < x <= b {
      assert (x + b - 1) / b == 1 by { DivUnique(x + b - 1, b, 1, x - 1); }
    } else if x > b {
      var y := x - b + b - 1;
      DivUnique(y + b, b, y / b + 1, y % b);
    }
  }

  lemma CeilDivPositive(x: nat, b: nat)
    requires b > 0 && x > 0
    ensures CeilDiv(x, b) >= 1
  {
    CeilDivStep(x, b);
  }

  lemma DivUnique(x: nat, b: nat, q: nat, r: nat)
    requires b > 0 && r < b && x == b * q + r
    ensures x / b == q
  {
    var d := x / b - q;
    assert b * d == r - x % b;
    MulSign(b, d);
  }

  lemma CeilDivMonotone(x: nat, y: nat, b: nat)
    requires b > 0 && x <= y
    ensures CeilDiv(x, b) <= CeilDiv(y, b)
    decreases y
  {
    CeilDivStep(x, b);
    CeilDivStep(y, b);
    if x > b {
      CeilDivMonotone(x - b, y - b, b);
    }
    if x == 0 {
      DivUnique(b - 1, b, 0, b - 1);
    }
  }

  // From a position inside the list, the rest of the list is polled in order and the
  // cursor is back at the front.
  lemma {:induction false} FinishRound<T>(xs: seq<T>, c: nat, batch: nat)
    requires c < |xs| && batch > 0
    ensures CursorAfter(c, batch, |xs|, CeilDiv(|xs| - c, batch)) == 0
    ensures Polled(xs, c, batch, CeilDiv(|xs| - c, batch)) == xs[c..]
    decreases |xs| - c
  {
    CeilDivStep(|xs| - c, batch);
    hide CeilDiv;
    Within(c, |xs|);
    var next := NextCursor(c, batch, |xs|);
    if c + batch < |xs| {
      assert next == c + batch;
      FinishRound(xs, next, batch);
      assert xs[c..] == xs[c..next] + xs[next..];
    } else {
      assert Slice(xs, c, batch) == xs[c..] && Polled(xs, next, batch, 0) == [];
      assert xs[c..] + [] == xs[c..];
    }
  }

  lemma Within(c: nat, n: nat)
    requires c < n
    ensures StartOf(c, n) == c
  {
  }

  lemma {:induction false} PolledAppend<T>(xs: seq<T>, cursor: int, batch: nat, j: nat, k: nat)
    ensures CursorAfter(cursor, batch, |xs|, j + k) ==
            CursorAfter(CursorAfter(cursor, batch, |xs|, j), batch, |xs|, k)
    ensures Polled(xs, cursor, batch, j + k) ==
            Polled(xs, cursor, batch, j) + Polled(xs, CursorAfter(cursor, batch, |xs|, j), batch, k)
    decreases j
  {
    hide NextCursor, Slice;
    if j == 0 {
    } else {
      PolledAppend(xs, NextCursor(cursor, batch, |xs|), batch, j - 1, k);
    }
  }

  lemma PolledNormal<T>(xs: seq<T>, cursor: int, batch: nat, steps: nat)
    requires steps > 0 && xs != []
    ensures Polled(xs, cursor, batch, steps) == Polled(xs, StartOf(cursor, |xs|), batch, steps)
    ensures CursorAfter(cursor, batch, |xs|, steps) == CursorAfter(StartOf(cursor, |xs|), batch, |xs|, steps)
  {
    Within(StartOf(cursor, |xs|), |xs|);
    hide StartOf;
  }

  // One round from the front polls every symbol exactly once, in order, and returns there.
  lemma RoundFromFront<T>(xs: seq<T>, batch: nat)
    requires xs != [] && batch > 0
    ensures Polled(xs, 0, batch, CeilDiv(|xs|, batch)) == xs
    ensures CursorAfter(0, batch, |xs|, CeilDiv(|xs|, batch)) == 0
  {
    FinishRound(xs, 0, batch);
  }

  function Repeat<T>(xs: seq<T>, rounds: nat): seq<T> {
    if rounds == 0 then [] else Repeat(xs, rounds - 1) + xs
  }

  // So over any number of rounds the polling is the list over and over: consecutive polls
  // of one symbol are exactly one round apart.
  lemma {:induction false} RoundsRepeat<T>(xs: seq<T>, batch: nat, rounds: nat)
    requires xs != [] && batch > 0
    ensures Polled(xs, 0, batch, rounds * CeilDiv(|xs|, batch)) == Repeat(xs, rounds)
    ensures CursorAfter(0, batch, |xs|, rounds * CeilDiv(|xs|, batch)) == 0
  {
    var r := CeilDiv(|xs|, batch);
    hide CeilDiv;
    if rounds == 0 {
    } else {
      RoundsRepeat(xs, batch, rounds - 1);
      assert rounds * r == (rounds - 1) * r + r;
      PolledAppend(xs, 0, batch, (rounds - 1) * r, r);
      RoundFromFront(xs, batch);
    }
  }

  // From any stored cursor, even one saved for another list, the current round is finished
  // and then every symbol is polled once, in order.
  lemma RoundFromAnywhere<T>(xs: seq<T>, cursor: int, batch: nat)
    requires xs != [] && batch > 0
    ensures var c := StartOf(cursor, |xs|);
            var rest, round := CeilDiv(|xs| - c, batch), CeilDiv(|xs|, batch);
            && 1 <= rest <= round
            && Polled(xs, cursor, batch, rest + round) == xs[c..] + xs
            && CursorAfter(cursor, batch, |xs|, rest + round) == 0
  {
    hide CeilDiv, StartOf, Polled, CursorAfter;
    var c := StartOf(cursor, |xs|);
    var rest, round := CeilDiv(|xs| - c, batch), CeilDiv(|xs|, batch);
    CeilDivPositive(|xs| - c, batch);
    CeilDivMonotone(|xs| - c, |xs|, batch);
    FinishRound(xs, c, batch);
    PolledNormal(xs, cursor, batch, rest);
    PolledAppend(xs, cursor, batch, rest, round);
    RoundFromFront(xs, batch);
  }

  // Within two rounds of any state no symbol is left out.
  lemma AllWithinTwoRounds<T>(xs: seq<T>, cursor: int, batch: nat)
    requires xs != [] && batch > 0
    ensures forall x :: x in xs ==> x in Polled(xs, cursor, batch, 2 * CeilDiv(|xs|, batch))
  {
    hide CeilDiv, StartOf, Polled, CursorAfter;
    var c := StartOf(cursor, |xs|);
    var rest, round := CeilDiv(|xs| - c, batch), CeilDiv(|xs|, batch);
    RoundFromAnywhere(xs, cursor, batch);
    PolledAppend(xs, cursor, batch, rest + round, round - rest);
    assert rest + round + (round - rest) == 2 * round;
  }

  // --- The open-interest step ---------------------------------------------------------

  datatype OiRow = OiRow(ts: int, amount: Option<real>)

  // One symbol's reply: the rows converted, and whether the fetch or a conversion raised.
  datatype Reply = Reply(rows: seq<OiRow>, failed: bool)

  datatype OiValue = OiValue(amount: real, source: Source, flag: Flag)

  type OiRecord = Record<Key, OiValue>

  function RecordOf(symbol: string, row: OiRow): OiRecord {
    Record(Key(symbol, row.ts), OiValue(if row.amount.Some? then row.amount.value else 0.0, MexcNative, Ok))
  }

  function RowRecords(symbol: string, rows: seq<OiRow>): seq<OiRecord> {
    if rows == [] then [] else RowRecords(symbol, rows[..|rows| - 1]) + [RecordOf(symbol, rows[|rows| - 1])]
  }

  // The records a list of items yields, item by item.
  function AllRecords<T, K, V>(xs: seq<T>, source: T -> seq<Record<K, V>>): seq<Record<K, V>> {
    if xs == [] then [] else AllRecords(xs[..|xs| - 1], source) + source(xs[|xs| - 1])
  }

  function OiSource(fetch: string -> Reply): string -> seq<OiRecord> {
    s => RowRecords(s, fetch(s).rows)
  }

  // The symbols that are written to the dead-letter table.
  function Failures(symbols: seq<string>, fetch: string -> Reply): seq<string> {
    if symbols == [] then []
    else
      var last := symbols[|symbols| - 1];
      Failures(symbols[..|symbols| - 1], fetch) + if fetch(last).failed then [last] else []
  }

  // Every row of every reply of the slice has its key in the table, and a new row is a row of
  // such a reply with its amount, or zero without one, as the exchange's own and unflagged.
  ghost predicate HoldsReplies(t: map<Key, OiValue>, after: map<Key, OiValue>, slice: seq<string>, fetch: string -> Reply) {
    && (forall k :: k in t ==> k in after && after[k] == t[k])
    && (forall s, j :: s in slice && 0 <= j < |fetch(s).rows| ==> Key(s, fetch(s).rows[j].ts) in after)
    && (forall k :: k in after && k !in t ==>
          && k.symbol in slice
          && exists j :: 0 <= j < |fetch(k.symbol).rows| &&
               var row := fetch(k.symbol).rows[j];
               row.ts == k.ts && after[k] == OiValue(if row.amount.Some? then row.amount.value else 0.0, MexcNative, Ok))
  }

  // What a slice of symbols leaves, and whom it dead-letters.
  lemma RepliesStored(t: map<Key, OiValue>, slice: seq<string>, fetch: string -> Reply)
    ensures HoldsReplies(t, InsertAll(t, AllRecords(slice, OiSource(fetch))), slice, fetch)
    ensures forall s :: s in Failures(slice, fetch) <==> s in slice && fetch(s).failed
  {
    var records := AllRecords(slice, OiSource(fetch));
    AllPresent(t, records);
    FailuresAre(slice, fetch);
    hide AllRecords, InsertAll, Failures;
    forall s, j | s in slice && 0 <= j < |fetch(s).rows| ensures Key(s, fetch(s).rows[j].ts) in InsertAll(t, records) {
      var i := RowIn(slice, fetch, s, j);
    }
    forall k | k in InsertAll(t, records) && k !in t
      ensures k.symbol in slice
      ensures exists j :: 0 <= j < |fetch(k.symbol).rows| &&
                var row := fetch(k.symbol).rows[j];
                row.ts == k.ts && InsertAll(t, records)[k] == OiValue(if row.amount.Some? then row.amount.value else 0.0, MexcNative, Ok)
    {
      MergeMeaning(t, records, k);
      hide FirstFor;
      var i :| 0 <= i < |records| && records[i] == Record(k, FirstFor(records, k));
      var j := RowOrigin(slice, fetch, i);
    }
  }

  // A stored value and the row of a reply it was made from.
  predicate FromRow(rows: seq<OiRow>, j: int, ts: int, v: OiValue) {
    && 0 <= j < |rows| && rows[j].ts == ts && v.source == MexcNative && v.flag == Ok
    && v.amount == match rows[j].amount { case Some(x) => x case None => 0.0 }
  }

  lemma {:induction false} RowRecordsAre(symbol: string, rows: seq<OiRow>)
    ensures var rs := RowRecords(symbol, rows);
            |rs| == |rows| && forall j :: 0 <= j < |rows| ==> rs[j].key == Key(symbol, rows[j].ts) && FromRow(rows, j, rows[j].ts, rs[j].val)
  {
    if rows == [] {
    } else {
      RowRecordsAre(symbol, rows[..|rows| - 1]);
    }
  }

  lemma {:induction false} RowIn(slice: seq<string>, fetch: string -> Reply, s: string, j: nat) returns (i: nat)
    requires s in slice && j < |fetch(s).rows|
    ensures i < |AllRecords(slice, OiSource(fetch))|
    ensures AllRecords(slice, OiSource(fetch))[i].key == Key(s, fetch(s).rows[j].ts)
  {
    var front, last := slice[..|slice| - 1], slice[|slice| - 1];
    assert slice == front + [last];
    hide RowRecords;
    if s == last {
      RowRecordsAre(s, fetch(s).rows);
      i := |AllRecords(front, OiSource(fetch))| + j;
    } else {
      i := RowIn(front, fetch, s, j);
    }
  }

  lemma {:induction false} RowOrigin(slice: seq<string>, fetch: string -> Reply, i: nat) returns (j: nat)
    requires i < |AllRecords(slice, OiSource(fetch))|
    ensures var r := AllRecords(slice, OiSource(fetch))[i];
            r.key.symbol in slice && FromRow(fetch(r.key.symbol).rows, j, r.key.ts, r.val)
  {
    var front, last := slice[..|slice| - 1], slice[|slice| - 1];
    assert slice == front + [last];
    hide RowRecords, FromRow;
    var n := |AllRecords(front, OiSource(fetch))|;
    if i < n {
      j := RowOrigin(front, fetch, i);
    } else {
      RowRecordsAre(last, fetch(last).rows);
      j := i - n;
    }
  }

  lemma {:induction false} FailuresAre(symbols: seq<string>, fetch: string -> Reply)
    ensures forall s :: s in Failures(symbols, fetch) <==> s in symbols && fetch(s).failed
  {
    if symbols == [] {
    } else {
      var front, last := symbols[..|symbols| - 1], symbols[|symbols| - 1];
      FailuresAre(front, fetch);
      assert symbols == front + [last];
    }
  }

  class CursorDict {
    var lastSymbolIndex: Option<int>

    constructor (init: Option<int>)
      ensures lastSymbolIndex == init
    {
      lastSymbolIndex := init;
    }
  }

  function CursorOf(stored: Option<int>): int { if stored.Some? then stored.value else 0 }

  method AppendRows(records: seq<OiRecord>, symbol: string, rows: seq<OiRow>) returns (r: seq<OiRecord>)
    ensures r == records + RowRecords(symbol, rows)
  {
    r := records;
    var j := 0;
    while j < |rows|
      invariant 0 <= j <= |rows|
      invariant r == records + RowRecords(symbol, rows[..j])
    {
      assert rows[..j + 1][..j] == rows[..j];
      r := r + [RecordOf(symbol, rows[j])];
      j := j + 1;
    }
    assert rows[..j] == rows;
  }

  method PollSymbols(slice: seq<string>, fetch: string -> Reply) returns (records: seq<OiRecord>, dead: seq<string>)
    ensures records == AllRecords(slice, OiSource(fetch)) && dead == Failures(slice, fetch)
  {
    records, dead := [], [];
    var i := 0;
    while i < |slice|
      invariant 0 <= i <= |slice|
      invariant records == AllRecords(slice[..i], OiSource(fetch))
      invariant dead == Failures(slice[..i], fetch)
    {
      var reply := fetch(slice[i]);
      records := AppendRows(records, slice[i], reply.rows);
      if reply.failed {
        dead := dead + [slice[i]];
      }
      assert slice[..i + 1][..i] == slice[..i];
      i := i + 1;
    }
    assert slice[..i] == slice;
  }

  // One step in figures: the slice from the cursor on, its replies and failures, and the
  // cursor after it, which is back at the front past the end of the list.
  ghost predicate StepIs(t: map<Key, OiValue>, stored: Option<int>, after: map<Key, OiValue>, next: Option<int>,
                         dead: seq<string>, symbols: seq<string>, batch: nat, fetch: string -> Reply)
  {
    var cursor := if stored.Some? then stored.value else 0;
    var start := if symbols == [] then 0 else cursor % |symbols|;
    var end := if start + batch < |symbols| then start + batch else |symbols|;
    var slice := symbols[start..end];
    && next == Some(if end < |symbols| then end else 0)
    && (forall s :: s in dead <==> s in slice && fetch(s).failed)
    && HoldsReplies(t, after, slice, fetch)
  }

  // oi_round_robin_step: a symbol that fails is dead-lettered and the cursor advances anyway.
  method OiRoundRobinStep(conn: Connection<Key, OiValue>, table: Hypertable<Key, OiValue>, symbols: seq<string>,
                          batch: nat, kv: CursorDict, fetch: string -> Reply) returns (dead: seq<string>)
    modifies conn, table, kv
    ensures var cursor := CursorOf(old(kv.lastSymbolIndex));
            && table.rows == InsertAll(old(table.rows), AllRecords(Slice(symbols, cursor, batch), OiSource(fetch)))
            && kv.lastSymbolIndex == Some(NextCursor(cursor, batch, |symbols|))
            && dead == Failures(Slice(symbols, cursor, batch), fetch)
    ensures StepIs(old(table.rows), old(kv.lastSymbolIndex), table.rows, kv.lastSymbolIndex, dead, symbols, batch, fetch)
  {
    ghost var stored, before := kv.lastSymbolIndex, table.rows;
    var n := if |symbols| > 1 then |symbols| else 1;
    var start := CursorOf(kv.lastSymbolIndex) % n;
    var end := if start + batch < |symbols| then start + batch else |symbols|;
    var slice := symbols[start..end];
    assert slice == Slice(symbols, CursorOf(stored), batch);
    hide InsertAll, AllRecords, Failures, Slice, NextCursor, CursorOf, StepIs;
    dead := PollSlice(conn, table, slice, fetch);
    kv.lastSymbolIndex := Some(if end < |symbols| then end else 0);
    StepInFigures(before, stored, symbols, batch, fetch);
  }

  method PollSlice(conn: Connection<Key, OiValue>, table: Hypertable<Key, OiValue>, slice: seq<string>,
                   fetch: string -> Reply) returns (dead: seq<string>)
    modifies conn, table
    ensures table.rows == InsertAll(old(table.rows), AllRecords(slice, OiSource(fetch)))
    ensures dead == Failures(slice, fetch)
  {
    var records: seq<OiRecord>;
    records, dead := PollSymbols(slice, fetch);
    if records != [] {
      var _ := CopyIntoHypertable(conn, table, records);
    }
    hide AllRecords;
  }

  lemma StepInFigures(t: map<Key, OiValue>, stored: Option<int>, symbols: seq<string>, batch: nat, fetch: string -> Reply)
    ensures var slice := Slice(symbols, CursorOf(stored), batch);
            StepIs(t, stored, InsertAll(t, AllRecords(slice, OiSource(fetch))),
                   Some(NextCursor(CursorOf(stored), batch, |symbols|)), Failures(slice, fetch), symbols, batch, fetch)
  {
    var slice := Slice(symbols, CursorOf(stored), batch);
    hide InsertAll, AllRecords, Failures, HoldsReplies;
    RepliesStored(t, slice, fetch);
    SliceInFigures(stored, symbols, batch);
    hide Slice, NextCursor, CursorOf;
  }

  lemma SliceInFigures(stored: Option<int>, symbols: seq<string>, batch: nat)
    ensures var cursor := if stored.Some? then stored.value else 0;
            var start := if symbols == [] then 0 else cursor % |symbols|;
            var end := if start + batch < |symbols| then start + batch else |symbols|;
            && Slice(symbols, CursorOf(stored), batch) == symbols[start..end]
            && NextCursor(CursorOf(stored), batch, |symbols|) == if end < |symbols| then end else 0
  {
    assert |symbols| == 1 ==> CursorOf(stored) % 1 == 0;
  }

  // --- Job runs that may crash ----------------------------------------------------------

  // A run either saves its cursor or stops after some items of its slice.
  datatype Outcome = Completes | Crashes(after: nat)

  datatype JobState<K, V> = JobState(table: map<K, V>, cursor: Option<int>)

  function Upto(n: nat, k: nat): nat { if k < n then k else n }

  function JobStep<T, K, V>(s: JobState<K, V>, xs: seq<T>, batch: nat, source: T -> seq<Record<K, V>>, o: Outcome)
    : JobState<K, V>
  {
    if xs == [] then s
    else
      var slice := Slice(xs, CursorOf(s.cursor), batch);
      match o
      case Completes =>
        JobState(InsertAll(s.table, AllRecords(slice, source)), Some(NextCursor(CursorOf(s.cursor), batch, |xs|)))
      case Crashes(k) =>
        JobState(InsertAll(s.table, AllRecords(slice[..Upto(|slice|, k)], source)), s.cursor)
  }

  function JobRun<T, K, V>(s: JobState<K, V>, xs: seq<T>, batch: nat, source: T -> seq<Record<K, V>>, os: seq<Outcome>)
    : JobState<K, V>
  {
    if os == [] then s
    else JobStep(JobRun(s, xs, batch, source, os[..|os| - 1]), xs, batch, source, os[|os| - 1])
  }

  function Completed(os: seq<Outcome>): nat {
    if os == [] then 0 else Completed(os[..|os| - 1]) + if os[|os| - 1].Completes? then 1 else 0
  }

  // The same job without any crash.
  function CrashFree<T, K, V>(s: JobState<K, V>, xs: seq<T>, batch: nat, source: T -> seq<Record<K, V>>, runs: nat)
    : JobState<K, V>
  {
    if runs == 0 then s else JobStep(CrashFree(s, xs, batch, source, runs - 1), xs, batch, source, Completes)
  }

  lemma AllRecordsSnoc<T, K, V>(xs: seq<T>, x: T, source: T -> seq<Record<K, V>>)
    ensures AllRecords(xs + [x], source) == AllRecords(xs, source) + source(x)
  {
    assert (xs + [x])[..|xs|] == xs;
  }

  lemma {:induction false} AllRecordsConcat<T, K, V>(a: seq<T>, b: seq<T>, source: T -> seq<Record<K, V>>)
    ensures AllRecords(a + b, source) == AllRecords(a, source) + AllRecords(b, source)
    decreases |b|
  {
    if b == [] {
      assert a + b == a;
    } else {
      var front, x := b[..|b| - 1], b[|b| - 1];
      var ab := a + front;
      assert b == front + [x] && a + b == ab + [x];
      hide AllRecords;
      AllRecordsConcat(a, front, source);
      AllRecordsSnoc(ab, x, source);
      AllRecordsSnoc(front, x, source);
    }
  }

  // Writing a start of a list and then a start that is at least as long, or the other way
  // round, writes the longer one.
  lemma Overlap<T, K, V>(t: map<K, V>, xs: seq<T>, p: nat, q: nat, source: T -> seq<Record<K, V>>)
    requires p <= |xs| && q <= |xs|
    ensures InsertAll(InsertAll(t, AllRecords(xs[..p], source)), AllRecords(xs[..q], source)) ==
            InsertAll(t, AllRecords(xs[..if p < q then q else p], source))
  {
    var lo, hi := if p < q then p else q, if p < q then q else p;
    assert xs[..hi] == xs[..lo] + xs[lo..hi];
    AllRecordsConcat(xs[..lo], xs[lo..hi], source);
    ReplayPrefix(t, AllRecords(xs[..lo], source), AllRecords(xs[lo..hi], source));
    hide InsertAll, AllRecords;
  }

  // A state that agrees with another but for having written some start of the next slice.
  ghost predicate Ahead<T, K, V>(s: JobState<K, V>, clean: JobState<K, V>, xs: seq<T>, batch: nat,
                           source: T -> seq<Record<K, V>>, p: nat)
  {
    var slice := Slice(xs, CursorOf(clean.cursor), batch);
    s.cursor == clean.cursor && p <= |slice| && s.table == InsertAll(clean.table, AllRecords(slice[..p], source))
  }

  lemma ReplayStep<T, K, V>(s: JobState<K, V>, clean: JobState<K, V>, xs: seq<T>, batch: nat,
                            source: T -> seq<Record<K, V>>, p: nat, o: Outcome) returns (q: nat)
    requires Ahead(s, clean, xs, batch, source, p)
    ensures o.Completes? && xs != [] ==>
              JobStep(s, xs, batch, source, o) == JobStep(clean, xs, batch, source, o)
    ensures xs == [] ==> JobStep(s, xs, batch, source, o) == clean == JobStep(clean, xs, batch, source, o)
    ensures o.Crashes? ==> Ahead(JobStep(s, xs, batch, source, o), clean, xs, batch, source, q)
  {
    var slice := Slice(xs, CursorOf(clean.cursor), batch);
    var n := if o.Completes? then |slice| else Upto(|slice|, o.after);
    q := if p < n then n else p;
    if xs == [] {
      assert slice[..p] == [] && AllRecords(slice[..p], source) == [];
    } else {
      hide Slice, NextCursor, AllRecords, InsertAll;
      assert slice[..|slice|] == slice;
      Overlap(clean.table, slice, p, n, source);
    }
  }

  // Crashes lose nothing and skip nothing: after any outcomes the cursor is that of the
  // crash-free job with as many completed runs, and the table is its table plus some start
  // of the slice that the next run will poll again. A completed run leaves no trace of them.
  lemma {:induction false} CrashReplay<T, K, V>(s: JobState<K, V>, xs: seq<T>, batch: nat,
      source: T -> seq<Record<K, V>>, os: seq<Outcome>) returns (p: nat)
    ensures Ahead(JobRun(s, xs, batch, source, os), CrashFree(s, xs, batch, source, Completed(os)), xs, batch, source, p)
    ensures os != [] && os[|os| - 1].Completes? ==>
              JobRun(s, xs, batch, source, os) == CrashFree(s, xs, batch, source, Completed(os))
  {
    hide Ahead, JobStep;
    p := 0;
    if os == [] {
      NothingYet(s, xs, batch, source);
    } else {
      var front, o := os[..|os| - 1], os[|os| - 1];
      var clean := CrashFree(s, xs, batch, source, Completed(front));
      p := CrashReplay(s, xs, batch, source, front);
      p := ReplayStep(JobRun(s, xs, batch, source, front), clean, xs, batch, source, p, o);
      if o.Completes? {
        p := 0;
        NothingYet(JobRun(s, xs, batch, source, os), xs, batch, source);
      }
    }
  }

  lemma NothingYet<T, K, V>(s: JobState<K, V>, xs: seq<T>, batch: nat, source: T -> seq<Record<K, V>>)
    ensures Ahead(s, s, xs, batch, source, 0)
  {
  }

  // The crash-free job writes what it polls.
  lemma {:induction false} CrashFreeWrites<T, K, V>(s: JobState<K, V>, xs: seq<T>, batch: nat,
      source: T -> seq<Record<K, V>>, runs: nat)
    requires xs != []
    ensures var r := CrashFree(s, xs, batch, source, runs);
            && r.table == InsertAll(s.table, AllRecords(Polled(xs, CursorOf(s.cursor), batch, runs), source))
            && CursorOf(r.cursor) == CursorAfter(CursorOf(s.cursor), batch, |xs|, runs)
            && (runs > 0 ==> r.cursor.Some?)
  {
    hide Slice, NextCursor, JobStep, InsertAll, AllRecords;
    if runs == 0 {
      EmptyWrites(s.table, xs[..0], source);
      assert Polled(xs, CursorOf(s.cursor), batch, 0) == xs[..0];
    } else {
      hide Polled, CursorAfter;
      var c := CursorOf(s.cursor);
      CrashFreeWrites(s, xs, batch, source, runs - 1);
      PolledAppend(xs, c, batch, runs - 1, 1);
      PolledOnce(xs, CursorAfter(c, batch, |xs|, runs - 1), batch);
      StepWrites(s.table, Polled(xs, c, batch, runs - 1), CrashFree(s, xs, batch, source, runs - 1), xs, batch, source);
    }
  }

  lemma EmptyWrites<T, K, V>(t: map<K, V>, none: seq<T>, source: T -> seq<Record<K, V>>)
    requires none == []
    ensures InsertAll(t, AllRecords(none, source)) == t
  {
  }

  lemma StepWrites<T, K, V>(t: map<K, V>, done: seq<T>, s: JobState<K, V>, xs: seq<T>, batch: nat,
                            source: T -> seq<Record<K, V>>)
    requires xs != [] && s.table == InsertAll(t, AllRecords(done, source))
    ensures JobStep(s, xs, batch, source, Completes) ==
            JobState(InsertAll(t, AllRecords(done + Slice(xs, CursorOf(s.cursor), batch), source)),
                     Some(NextCursor(CursorOf(s.cursor), batch, |xs|)))
  {
    hide Slice, NextCursor, InsertAll, AllRecords;
    var slice := Slice(xs, CursorOf(s.cursor), batch);
    AllRecordsConcat(done, slice, source);
    Split(t, AllRecords(done, source), AllRecords(slice, source));
  }

  lemma PolledOnce<T>(xs: seq<T>, cursor: int, batch: nat)
    ensures Polled(xs, cursor, batch, 1) == Slice(xs, cursor, batch)
    ensures CursorAfter(cursor, batch, |xs|, 1) == NextCursor(cursor, batch, |xs|)
  {
    assert Polled(xs, NextCursor(cursor, batch, |xs|), batch, 0) == [];
    assert CursorAfter(NextCursor(cursor, batch, |xs|), batch, |xs|, 0) == NextCursor(cursor, batch, |xs|);
    hide Slice, NextCursor;
  }

  // Polling is at least once: when a round's worth of runs has completed from the front of
  // the list, with any crashes in between, the table holds the records of every item, and
  // nothing that a crash-free single pass over the list would not have written.
  lemma AtLeastOnce<T, K, V>(t: map<K, V>, xs: seq<T>, batch: nat, source: T -> seq<Record<K, V>>, os: seq<Outcome>)
    requires xs != [] && batch > 0 && os != []
    requires Completed(os) == CeilDiv(|xs|, batch) && os[|os| - 1].Completes?
    ensures JobRun(JobState(t, None), xs, batch, source, os) ==
            JobState(InsertAll(t, AllRecords(xs, source)), Some(0))
  {
    hide CeilDiv, InsertAll, AllRecords, Polled, CursorAfter, JobRun, CrashFree, Completed;
    var s := JobState(t, None);
    var _ := CrashReplay(s, xs, batch, source, os);
    RoundFromFront(xs, batch);
    CeilDivPositive(|xs|, batch);
    CrashFreeWrites(s, xs, batch, source, CeilDiv(|xs|, batch));
  }

  // The run log after a run: a save is appended exactly when the run completes.
  function LogAfter(log: seq<LogRow>, job: string, now: int, cursor: Option<int>, saves: bool): seq<LogRow> {
    if saves then log + [LogRow(now, job, cursor)] else log
  }

  // What a run that has loaded v does to table and log.
  ghost predicate RanFrom<T, K, V>(v: Option<int>, t: map<K, V>, log: seq<LogRow>, t1: map<K, V>, log1: seq<LogRow>,
                                 job: string, now: int, xs: seq<T>, batch: nat, source: T -> seq<Record<K, V>>, o: Outcome)
  {
    var next := JobStep(JobState(t, v), xs, batch, source, o);
    t1 == next.table && log1 == LogAfter(log, job, now, next.cursor, xs != [] && o.Completes?)
  }

  // It works from a cursor that the log may load.
  ghost predicate JobRan<T, K, V>(t: map<K, V>, log: seq<LogRow>, t1: map<K, V>, log1: seq<LogRow>, job: string, now: int,
                                  xs: seq<T>, batch: nat, source: T -> seq<Record<K, V>>, o: Outcome)
  {
    exists v :: Loads(log, job, v) && RanFrom(v, t, log, t1, log1, job, now, xs, batch, source, o)
  }

  // While the clock of a job moves forward, a run is one step of the state made of the
  // table and the cursor saved last, and the log stays in order.
  lemma RunIsStep<T, K, V>(t: map<K, V>, log: seq<LogRow>, t1: map<K, V>, log1: seq<LogRow>, job: string, now: int,
                           xs: seq<T>, batch: nat, source: T -> seq<Record<K, V>>, o: Outcome)
    requires JobRan(t, log, t1, log1, job, now, xs, batch, source, o)
    requires SavedInOrder(log, job)
    requires forall i :: 0 <= i < |log| && IsSave(log[i], job) ==> log[i].ts < now
    ensures JobState(t1, LastSaved(log1, job)) == JobStep(JobState(t, LastSaved(log, job)), xs, batch, source, o)
    ensures SavedInOrder(log1, job)
  {
    hide Loads, Slice, NextCursor, AllRecords, InsertAll;
    var v :| Loads(log, job, v) && RanFrom(v, t, log, t1, log1, job, now, xs, batch, source, o);
    LogIsRegister(log, job, v);
    if xs != [] && o.Completes? {
      assert log1[..|log1| - 1] == log;
    }
  }

  // coinglass_oi_job_callable and its two siblings. The cursor is loaded from the run log;
  // items before the crash, if there is one, are written one by one; the cursor is saved
  // only after the whole slice. A fetch without a response contributes no rows.
  method CoinglassJob<T, K, V>(conn: Connection<K, V>, table: Hypertable<K, V>, log: RunLog, job: string, now: int,
                               pairs: seq<T>, batch: nat, source: T -> seq<Record<K, V>>, o: Outcome)
    modifies conn, table, log
    ensures JobRan(old(table.rows), old(log.rows), table.rows, log.rows, job, now, pairs, batch, source, o)
  {
    hide Loads, AllRecords, InsertAll, LastSaved;
    if pairs == [] {
      var _ := LoadsSomething(log.rows, job);
      return;
    }
    ghost var rows, saved := table.rows, log.rows;
    var stored := log.Load(job);
    var cursor := CursorOf(stored) % |pairs|;
    var end := if cursor + batch < |pairs| then cursor + batch else |pairs|;
    var slice := pairs[cursor..end];
    var stop := if o.Completes? then |slice| else Upto(|slice|, o.after);
    SliceIs(pairs, stored, batch, slice, end);
    hide Slice, NextCursor;
    PollItems(conn, table, slice[..stop], source);
    assert slice[..|slice|] == slice;
    if o.Completes? {
      log.Save(job, now, if end < |pairs| then end else 0);
    }
    JobRanBy(rows, saved, stored, table.rows, log.rows, job, now, pairs, batch, source, o);
  }

  lemma SliceIs<T>(xs: seq<T>, stored: Option<int>, batch: nat, slice: seq<T>, end: nat)
    requires xs != []
    requires var start := CursorOf(stored) % |xs|;
             end == (if start + batch < |xs| then start + batch else |xs|) && slice == xs[start..end]
    ensures slice == Slice(xs, CursorOf(stored), batch)
    ensures NextCursor(CursorOf(stored), batch, |xs|) == if end < |xs| then end else 0
  {
  }

  lemma JobRanBy<T, K, V>(t: map<K, V>, log: seq<LogRow>, v: Option<int>, t1: map<K, V>, log1: seq<LogRow>, job: string,
                          now: int, xs: seq<T>, batch: nat, source: T -> seq<Record<K, V>>, o: Outcome)
    requires Loads(log, job, v) && RanFrom(v, t, log, t1, log1, job, now, xs, batch, source, o)
    ensures JobRan(t, log, t1, log1, job, now, xs, batch, source, o)
  {
    hide Loads, RanFrom;
  }

  method PollItems<T, K, V>(conn: Connection<K, V>, table: Hypertable<K, V>, items: seq<T>, source: T -> seq<Record<K, V>>)
    modifies conn, table
    ensures table.rows == InsertAll(old(table.rows), AllRecords(items, source))
  {
    var i := 0;
    while i < |items|
      invariant 0 <= i <= |items|
      invariant table.rows == InsertAll(old(table.rows), AllRecords(items[..i], source))
    {
      Split(old(table.rows), AllRecords(items[..i], source), source(items[i]));
      assert items[..i + 1][..i] == items[..i];
      var _ := CopyIntoHypertable(conn, table, source(items[i]));
      i := i + 1;
    }
    assert items[..i] == items;
  }

  const MEXC_OI_POLL_BATCH := 10

  // mexc_oi_poll_job_callable: the cursor is saved whatever the replies were, so the job
  // makes progress even when every fetch fails.
  method MexcOiPollJob(conn: Connection<Key, OiValue>, table: Hypertable<Key, OiValue>, log: RunLog, job: string,
                       now: int, symbols: seq<string>, fetch: string -> Reply) returns (dead: seq<string>)
    modifies conn, table, log
    ensures exists v ::
              && Loads(old(log.rows), job, v)
              && RanFrom(v, old(table.rows), old(log.rows), table.rows, log.rows, job, now, symbols, 10, OiSource(fetch),
                         Completes)
              && dead == Failures(Slice(symbols, CursorOf(v), 10), fetch)
              && (symbols != [] ==>
                    && |log.rows| == |old(log.rows)| + 1
                    && StepIs(old(table.rows), v, table.rows, log.rows[|log.rows| - 1].state, dead, symbols, 10, fetch))
  {
    hide Loads, NextCursor, AllRecords, InsertAll, LastSaved;
    dead := [];
    if symbols == [] {
      ghost var v := LoadsSomething(log.rows, job);
      assert RanFrom(v, table.rows, log.rows, table.rows, log.rows, job, now, symbols, MEXC_OI_POLL_BATCH, OiSource(fetch), Completes);
      return;
    }
    hide Slice, Failures, StepIs;
    ghost var rows, saved := table.rows, log.rows;
    var stored := log.Load(job);
    var kv := new CursorDict(stored);
    dead := OiRoundRobinStep(conn, table, symbols, MEXC_OI_POLL_BATCH, kv, fetch);
    log.Save(job, now, kv.lastSymbolIndex.value);
    assert RanFrom(stored, rows, saved, table.rows, log.rows, job, now, symbols, MEXC_OI_POLL_BATCH, OiSource(fetch), Completes);
  }
}
