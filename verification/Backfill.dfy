// Paginated REST backfill of one symbol: what is written, when the window is covered,
// and what an abort and a rerun leave behind.
module Backfill {
  import opened Store
  import opened Market

  const PAGE_LIMIT := 1000

  datatype Timeframe = M1 | M5 | M15 | H1 | H4 | D1

  function StepMs(tf: Timeframe): (ms: int)
    ensures ms > 0
  {
    match tf
    case M1 => 60_000
    case M5 => 300_000
    case M15 => 900_000
    case H1 => 3_600_000
    case H4 => 14_400_000
    case D1 => 86_400_000
  }

  // Only these have a table of their own; the others are roll-ups.
  predicate HasTable(tf: Timeframe) { tf == M1 || tf == D1 }

  // A row of the exchange: its time and, when its fields parse, its bar.
  datatype Raw = Raw(ts: int, bar: Option<Bar>)
  datatype Candle = Candle(ts: int, bar: Bar)

  predicate Valid(r: Raw) { r.bar.Some? && OhlcOk(r.bar.value) }

  // --- The exchange -----------------------------------------------------------

  // All rows the exchange has for a symbol, at least one step apart.
  ghost predicate Spaced(feed: seq<Raw>, step: int) {
    forall i, j :: 0 <= i < j < |feed| ==> feed[i].ts + step <= feed[j].ts
  }

  // How many rows a page holds may depend on the request; it is between 1 and the limit.
  type PageLen = n: nat | 1 <= n <= PAGE_LIMIT witness 1

  // The number of rows before a point in time.
  function Before(feed: seq<Raw>, ts: int): (n: nat)
    ensures n <= |feed|
  {
    if feed == [] then 0
    else if feed[|feed| - 1].ts < ts then |feed|
    else Before(feed[..|feed| - 1], ts)
  }

  // The page served for `since`: the earliest rows from then on, none only if there are none.
  function Page(feed: seq<Raw>, since: int, len: PageLen): seq<Raw> {
    var b := Before(feed, since);
    if b + len <= |feed| then feed[b..b + len] else feed[b..]
  }

  lemma {:induction false} BeforeSplits(feed: seq<Raw>, ts: int, step: int)
    requires step > 0 && Spaced(feed, step)
    ensures forall i :: 0 <= i < Before(feed, ts) ==> feed[i].ts < ts
    ensures forall i :: Before(feed, ts) <= i < |feed| ==> feed[i].ts >= ts
  {
    if feed != [] && feed[|feed| - 1].ts >= ts {
      BeforeSplits(feed[..|feed| - 1], ts, step);
    }
  }

  // The rows with from <= ts < to.
  function Between(feed: seq<Raw>, from: int, to: int): seq<Raw> {
    if Before(feed, from) <= Before(feed, to) then feed[Before(feed, from)..Before(feed, to)] else []
  }

  // --- The client -------------------------------------------------------------

  function ValidOf(rows: seq<Raw>): seq<Candle> {
    if rows == [] then [] else
      var r := rows[|rows| - 1];
      ValidOf(rows[..|rows| - 1]) + if Valid(r) then [Candle(r.ts, r.bar.value)] else []
  }

  function RejectedOf(rows: seq<Raw>): seq<Raw> {
    if rows == [] then [] else
      var r := rows[|rows| - 1];
      RejectedOf(rows[..|rows| - 1]) + if Valid(r) then [] else [r]
  }

  // fetch_ohlcv: rows that fail validation go to the dead letters, the rest are candles.
  method FetchOhlcv(feed: seq<Raw>, since: int, len: PageLen) returns (candles: seq<Candle>, dead: seq<Raw>)
    ensures candles == ValidOf(Page(feed, since, len))
    ensures dead == RejectedOf(Page(feed, since, len))
    // What is returned is well formed, and what is rejected is not.
    ensures forall c :: c in candles ==>
              && c.bar.low <= c.bar.open && c.bar.low <= c.bar.close
              && c.bar.open <= c.bar.high && c.bar.close <= c.bar.high && c.bar.volume >= 0.0
              && Raw(c.ts, Some(c.bar)) in Page(feed, since, len)
    ensures forall r :: r in dead <==>
              && r in Page(feed, since, len)
              && (r.bar.None? || r.bar.value.low > r.bar.value.open || r.bar.value.low > r.bar.value.close
                  || r.bar.value.open > r.bar.value.high || r.bar.value.close > r.bar.value.high || r.bar.value.volume < 0.0)
    ensures |candles| + |dead| == |Page(feed, since, len)|
  {
    var raw := Page(feed, since, len);
    candles, dead := [], [];
    for i := 0 to |raw|
      invariant candles == ValidOf(raw[..i])
      invariant dead == RejectedOf(raw[..i])
    {
      assert raw[..i + 1][..i] == raw[..i];
      if raw[i].bar.Some? && OhlcOk(raw[i].bar.value) {
        candles := candles + [Candle(raw[i].ts, raw[i].bar.value)];
      } else {
        dead := dead + [raw[i]];
      }
    }
    assert raw[..|raw|] == raw;
    ValidOfMembers(raw);
    RejectedMembers(raw);
    hide ValidOf, RejectedOf, Page;
  }

  lemma {:induction false} RejectedMembers(rows: seq<Raw>)
    ensures forall r :: r in RejectedOf(rows) <==> r in rows && !Valid(r)
    ensures |ValidOf(rows)| + |RejectedOf(rows)| == |rows|
  {
    hide OhlcOk;
    if rows == [] {
    } else {
      var front, last := rows[..|rows| - 1], rows[|rows| - 1];
      RejectedMembers(front);
      assert rows == front + [last];
    }
  }

  // The contract of the exchange: a page holds the earliest rows from `since` on, in order,
  // 1000 at most; it is empty only when there is none, and shorter than asked only when there
  // are no more.
  lemma PageContract(feed: seq<Raw>, since: int, len: PageLen, step: int)
    requires step > 0 && Spaced(feed, step)
    ensures var page := Page(feed, since, len);
            && |page| <= len <= 1000
            && (forall i, j :: 0 <= i < j < |page| ==> page[i].ts < page[j].ts)
            && (forall r :: r in page ==> r in feed && r.ts >= since)
            && (forall r, q :: r in feed && r.ts >= since && r !in page && q in page ==> q.ts < r.ts)
            && (forall r :: r in feed && r.ts >= since && r !in page ==> |page| == len)
  {
    var b, n := Before(feed, since), |Page(feed, since, len)|;
    BeforeSplits(feed, since, step);
    assert Page(feed, since, len) == feed[b..b + n];
    hide Before, Page;
    Stretch(feed, b, n, step);
  }

  lemma Stretch(feed: seq<Raw>, b: nat, n: nat, step: int)
    requires step > 0 && Spaced(feed, step) && b + n <= |feed|
    ensures var s := feed[b..b + n];
            && (forall i, j :: 0 <= i < j < |s| ==> s[i].ts < s[j].ts)
            && (forall r :: r in s ==> exists i :: b <= i < |feed| && feed[i] == r)
            && (forall i :: b <= i < b + n ==> feed[i] in s)
            && (forall i, q :: b + n <= i < |feed| && q in s ==> q.ts < feed[i].ts)
  {
    var s := feed[b..b + n];
    assert forall i :: 0 <= i < |s| ==> s[i] == feed[b + i];
    forall i | b <= i < b + n ensures feed[i] in s { assert s[i - b] == feed[i]; }
  }

  lemma {:induction false} ValidOfConcat(a: seq<Raw>, b: seq<Raw>)
    ensures ValidOf(a + b) == ValidOf(a) + ValidOf(b)
  {
    if b == [] {
      assert a + b == a;
    } else {
      var front := b[..|b| - 1];
      ValidOfConcat(a, front);
      assert (a + b)[..|a + b| - 1] == a + front;
    }
  }

  lemma {:induction false} NoneValid(rows: seq<Raw>)
    ensures ValidOf(rows) == [] <==> forall r :: r in rows ==> !Valid(r)
  {
    if rows == [] {
    } else {
      var front := rows[..|rows| - 1];
      NoneValid(front);
      assert rows == front + [rows[|rows| - 1]];
    }
  }

  // The last candle of a page is its last valid row.
  lemma {:induction false} LastValid(rows: seq<Raw>) returns (i: nat)
    requires ValidOf(rows) != []
    ensures i < |rows| && Valid(rows[i])
    ensures ValidOf(rows)[|ValidOf(rows)| - 1] == Candle(rows[i].ts, rows[i].bar.value)
    ensures forall j :: i < j < |rows| ==> !Valid(rows[j])
    ensures ValidOf(rows[..i + 1]) == ValidOf(rows)
  {
    var front, r := rows[..|rows| - 1], rows[|rows| - 1];
    if Valid(r) {
      i := |front|;
      assert rows[..i + 1] == rows;
    } else {
      i := LastValid(front);
      assert rows[..i + 1] == front[..i + 1];
    }
  }

  // --- The pagination loop ----------------------------------------------------

  // The cursor after one page, or None when the page yields no candle.
  function NextCursor(feed: seq<Raw>, serve: int -> PageLen, cursor: int, step: int): Option<int> {
    var candles := ValidOf(Page(feed, cursor, serve(cursor)));
    if candles == [] then None else Some(candles[|candles| - 1].ts + step)
  }

  lemma CursorAdvances(feed: seq<Raw>, serve: int -> PageLen, cursor: int, step: int)
    requires step > 0 && Spaced(feed, step) && NextCursor(feed, serve, cursor, step).Some?
    ensures NextCursor(feed, serve, cursor, step).value >= cursor + step
  {
    var page := Page(feed, cursor, serve(cursor));
    var i := LastValid(page);
    BeforeSplits(feed, cursor, step);
    assert page[i] == feed[Before(feed, cursor) + i];
  }

  // Where the loop stops.
  ghost function Reached(feed: seq<Raw>, serve: int -> PageLen, cursor: int, until: int, step: int): (c: int)
    requires step > 0 && Spaced(feed, step)
    ensures c >= cursor
    decreases until - cursor
  {
    if cursor >= until then cursor else
      var next := NextCursor(feed, serve, cursor, step);
      if next.None? then cursor else
        CursorAdvances(feed, serve, cursor, step);
        Reached(feed, serve, next.value, until, step)
  }

  lemma ReachedStep(feed: seq<Raw>, serve: int -> PageLen, cursor: int, until: int, step: int)
    requires step > 0 && Spaced(feed, step)
    ensures var next := NextCursor(feed, serve, cursor, step);
            && (next.Some? ==> cursor < next.value)
            && Reached(feed, serve, cursor, until, step)
               == if cursor >= until || next.None? then cursor else Reached(feed, serve, next.value, until, step)
  {
    if NextCursor(feed, serve, cursor, step).Some? {
      CursorAdvances(feed, serve, cursor, step);
    }
    hide Spaced, NextCursor;
  }

  // The rows the whole run rejects, page by page.
  ghost function DeadLetters(feed: seq<Raw>, serve: int -> PageLen, cursor: int, until: int, step: int): seq<Raw>
    requires step > 0 && Spaced(feed, step)
    decreases until - cursor
  {
    if cursor >= until then []
    else
      var rejected := RejectedOf(Page(feed, cursor, serve(cursor)));
      var next := NextCursor(feed, serve, cursor, step);
      if next.None? then rejected
      else
        CursorAdvances(feed, serve, cursor, step);
        rejected + DeadLetters(feed, serve, next.value, until, step)
  }

  lemma DeadLettersStep(feed: seq<Raw>, serve: int -> PageLen, cursor: int, until: int, step: int)
    requires step > 0 && Spaced(feed, step)
    ensures var next, rejected := NextCursor(feed, serve, cursor, step), RejectedOf(Page(feed, cursor, serve(cursor)));
            && (next.Some? ==> cursor < next.value)
            && DeadLetters(feed, serve, cursor, until, step)
               == if cursor >= until then []
                  else if next.None? then rejected
                  else rejected + DeadLetters(feed, serve, next.value, until, step)
  {
    if NextCursor(feed, serve, cursor, step).Some? {
      CursorAdvances(feed, serve, cursor, step);
    }
    hide Spaced, NextCursor, RejectedOf, Page;
  }

  function RecordsOf(symbol: string, candles: seq<Candle>): seq<CandleRecord> {
    seq(|candles|, i requires 0 <= i < |candles| => Record(Key(symbol, candles[i].ts), OkRow(candles[i].bar)))
  }

  function RecordsBetween(feed: seq<Raw>, symbol: string, from: int, to: int): seq<CandleRecord> {
    RecordsOf(symbol, ValidOf(Between(feed, from, to)))
  }

  // One page writes exactly the valid rows between the old cursor and the new one.
  lemma PageCovers(feed: seq<Raw>, serve: int -> PageLen, cursor: int, step: int)
    requires step > 0 && Spaced(feed, step) && NextCursor(feed, serve, cursor, step).Some?
    ensures var next := NextCursor(feed, serve, cursor, step).value;
            && Before(feed, cursor) <= Before(feed, next)
            && ValidOf(Page(feed, cursor, serve(cursor))) == ValidOf(Between(feed, cursor, next))
  {
    hide Before, ValidOf, Valid;
    var page, b := Page(feed, cursor, serve(cursor)), Before(feed, cursor);
    var i := LastValid(page);
    var next := page[i].ts + step;
    assert page[i] == feed[b + i];
    BeforeSplits(feed, cursor, step);
    BeforeAt(feed, b + i + 1, next, step);
    assert Between(feed, cursor, next) == page[..i + 1];
  }

  lemma BeforeAt(feed: seq<Raw>, n: nat, ts: int, step: int)
    requires step > 0 && Spaced(feed, step) && n <= |feed|
    requires forall i :: 0 <= i < n ==> feed[i].ts < ts
    requires forall i :: n <= i < |feed| ==> feed[i].ts >= ts
    ensures Before(feed, ts) == n
  {
    BeforeSplits(feed, ts, step);
    var m := Before(feed, ts);
    var _ := if m < |feed| then feed[m].ts else 0;
    var _ := if n < |feed| then feed[n].ts else 0;
  }

  // A page moves the cursor just behind its last valid row.
  lemma PageMoves(feed: seq<Raw>, serve: int -> PageLen, cursor: int, step: int) returns (v: nat)
    requires step > 0 && Spaced(feed, step) && NextCursor(feed, serve, cursor, step).Some?
    ensures Before(feed, cursor) <= v < Before(feed, cursor) + serve(cursor) && v < |feed| && Valid(feed[v])
    ensures NextCursor(feed, serve, cursor, step) == Some(feed[v].ts + step)
    ensures Before(feed, feed[v].ts + step) == v + 1
  {
    hide Before, Valid, ValidOf;
    var page, b := Page(feed, cursor, serve(cursor)), Before(feed, cursor);
    var i := LastValid(page);
    v := b + i;
    assert page[i] == feed[v];
    BeforeAt(feed, v + 1, feed[v].ts + step, step);
  }

  lemma RecordsOfConcat(symbol: string, a: seq<Candle>, b: seq<Candle>)
    ensures RecordsOf(symbol, a + b) == RecordsOf(symbol, a) + RecordsOf(symbol, b)
  {
  }

  lemma BetweenJoins(feed: seq<Raw>, symbol: string, a: int, b: int, c: int)
    requires Before(feed, a) <= Before(feed, b) <= Before(feed, c)
    ensures RecordsBetween(feed, symbol, a, c) == RecordsBetween(feed, symbol, a, b) + RecordsBetween(feed, symbol, b, c)
  {
    hide Before, ValidOf, RecordsOf;
    assert Between(feed, a, c) == Between(feed, a, b) + Between(feed, b, c);
    ValidOfConcat(Between(feed, a, b), Between(feed, b, c));
    RecordsOfConcat(symbol, ValidOf(Between(feed, a, b)), ValidOf(Between(feed, b, c)));
  }

  lemma BeforeMonotone(feed: seq<Raw>, a: int, b: int, step: int)
    requires step > 0 && Spaced(feed, step) && a <= b
    ensures Before(feed, a) <= Before(feed, b)
  {
    BeforeSplits(feed, a, step);
    BeforeSplits(feed, b, step);
    var m := Before(feed, b);
    var _ := if m < |feed| then feed[m].ts else 0;
  }

  // One turn of the loop, as the invariants see it.
  lemma LoopTurn(t: Candles, feed: seq<Raw>, serve: int -> PageLen, symbol: string, since: int, cursor: int, until: int, step: int)
    requires step > 0 && Spaced(feed, step) && Before(feed, since) <= Before(feed, cursor) && cursor < until
    requires NextCursor(feed, serve, cursor, step).Some?
    ensures var next, recs := NextCursor(feed, serve, cursor, step).value, RecordsBetween(feed, symbol, since, cursor);
            var page := RecordsOf(symbol, ValidOf(Page(feed, cursor, serve(cursor))));
            && cursor < next
            && Before(feed, since) <= Before(feed, next)
            && Reached(feed, serve, cursor, until, step) == Reached(feed, serve, next, until, step)
            && RecordsBetween(feed, symbol, since, next) == recs + page
            && InsertAll(InsertAll(t, recs), page) == InsertAll(t, RecordsBetween(feed, symbol, since, next))
  {
    PageCovers(feed, serve, cursor, step);
    CursorAdvances(feed, serve, cursor, step);
    var next := NextCursor(feed, serve, cursor, step).value;
    BetweenJoins(feed, symbol, since, cursor, next);
    Split(t, RecordsBetween(feed, symbol, since, cursor), RecordsBetween(feed, symbol, cursor, next));
    hide Spaced, Before, ValidOf, Page, Between, InsertAll, RecordsOf;
  }

  // The loop of backfill_ohlcv. Whatever page sizes the exchange chooses, the rows
  // written are the valid rows from `since` up to where the cursor stops, each counted
  // once; that point may lie past `until`, which the request does not send.
  method Paginate(
    conn: Connection<Key, Row>, table: Hypertable<Key, Row>, feed: seq<Raw>, serve: int -> PageLen,
    symbol: string, step: int, since: int, until: int) returns (written: nat, dead: seq<Raw>)
    requires step > 0 && Spaced(feed, step)
    modifies conn, table
    ensures var recs := RecordsBetween(feed, symbol, since, Reached(feed, serve, since, until, step));
            table.rows == InsertAll(old(table.rows), recs) && written == |recs|
    ensures dead == DeadLetters(feed, serve, since, until, step)
  {
    hide Spaced, Before, ValidOf, RejectedOf, Page, Reached, DeadLetters, RecordsBetween, RecordsOf, InsertAll, NextCursor;
    var cursor := since;
    written, dead := 0, [];
    NothingBetween(table.rows, feed, symbol, since);
    while cursor < until
      invariant Before(feed, since) <= Before(feed, cursor)
      invariant Reached(feed, serve, since, until, step) == Reached(feed, serve, cursor, until, step)
      invariant table.rows == InsertAll(old(table.rows), RecordsBetween(feed, symbol, since, cursor))
      invariant written == |RecordsBetween(feed, symbol, since, cursor)|
      invariant DeadLetters(feed, serve, since, until, step) == dead + DeadLetters(feed, serve, cursor, until, step)
      decreases until - cursor
    {
      var candles, rejected := FetchOhlcv(feed, cursor, serve(cursor));
      NextOf(feed, serve, cursor, step);
      ReachedStep(feed, serve, cursor, until, step);
      DeadLettersStep(feed, serve, cursor, until, step);
      dead := dead + rejected;
      if candles == [] {
        return;
      }
      LoopTurn(old(table.rows), feed, serve, symbol, since, cursor, until, step);
      var n := CopyIntoHypertable(conn, table, RecordsOf(symbol, candles));
      written := written + n;
      cursor := candles[|candles| - 1].ts + step;
    }
    ReachedStep(feed, serve, cursor, until, step);
    DeadLettersStep(feed, serve, cursor, until, step);
  }

  method BackfillOhlcv(
    conn: Connection<Key, Row>, table: Hypertable<Key, Row>, feed: seq<Raw>, serve: int -> PageLen,
    symbol: string, tf: Timeframe, since: int, until: int) returns (written: nat, dead: seq<Raw>)
    requires Spaced(feed, StepMs(tf))
    modifies conn, table
    ensures !HasTable(tf) ==> written == 0 && dead == [] && table.rows == old(table.rows)
    ensures HasTable(tf) ==>
              var recs := RecordsBetween(feed, symbol, since, Reached(feed, serve, since, until, StepMs(tf)));
              table.rows == InsertAll(old(table.rows), recs) && written == |recs|
    ensures HasTable(tf) ==> dead == DeadLetters(feed, serve, since, until, StepMs(tf))
    // That is: one-minute and one-day candles, 60 000 and 86 400 000 ms apart.
    ensures tf != M1 && tf != D1 ==> written == 0 && table.rows == old(table.rows)
    ensures tf == M1 ==>
              table.rows == InsertAll(old(table.rows), RecordsBetween(feed, symbol, since, Reached(feed, serve, since, until, 60_000)))
    ensures tf == D1 ==>
              table.rows == InsertAll(old(table.rows), RecordsBetween(feed, symbol, since, Reached(feed, serve, since, until, 86_400_000)))
  {
    hide Spaced, Reached, DeadLetters, RecordsBetween, InsertAll;
    if !HasTable(tf) {
      return 0, [];
    }
    written, dead := Paginate(conn, table, feed, serve, symbol, StepMs(tf), since, until);
  }

  lemma NextOf(feed: seq<Raw>, serve: int -> PageLen, cursor: int, step: int)
    ensures var candles, next := ValidOf(Page(feed, cursor, serve(cursor))), NextCursor(feed, serve, cursor, step);
            && (next.None? <==> candles == [])
            && (candles != [] ==> next == Some(candles[|candles| - 1].ts + step))
  {
  }

  lemma NothingBetween(t: Candles, feed: seq<Raw>, symbol: string, a: int)
    ensures RecordsBetween(feed, symbol, a, a) == []
    ensures InsertAll(t, RecordsBetween(feed, symbol, a, a)) == t
  {
  }

  // The table after a backfill.
  ghost function Backfilled(t: Candles, feed: seq<Raw>, serve: int -> PageLen, symbol: string, since: int, until: int, step: int): Candles
    requires step > 0 && Spaced(feed, step)
  {
    InsertAll(t, RecordsBetween(feed, symbol, since, Reached(feed, serve, since, until, step)))
  }

  lemma {:induction false} ValidOfMembers(rows: seq<Raw>)
    ensures forall c :: c in ValidOf(rows) <==> exists r :: r in rows && Valid(r) && c == Candle(r.ts, r.bar.value)
  {
    if rows == [] {
    } else {
      var front, r := rows[..|rows| - 1], rows[|rows| - 1];
      ValidOfMembers(front);
      assert rows == front + [r];
    }
  }

  // Row i of the exchange is a valid candle for time ts.
  predicate Offers(feed: seq<Raw>, i: int, ts: int) {
    0 <= i < |feed| && feed[i].ts == ts && Valid(feed[i])
  }

  // Nothing but valid rows of the interval is ever written, and the row of a key is the
  // exchange's row for that time.
  lemma WritesOnlyTheFeed(feed: seq<Raw>, symbol: string, from: int, to: int, step: int, k: Key)
    requires step > 0 && Spaced(feed, step)
    ensures Mentions(RecordsBetween(feed, symbol, from, to), k) <==>
            k.symbol == symbol && from <= k.ts < to && exists i :: Offers(feed, i, k.ts)
    ensures Mentions(RecordsBetween(feed, symbol, from, to), k) ==>
              exists i :: Offers(feed, i, k.ts)
                          && FirstFor(RecordsBetween(feed, symbol, from, to), k) == Row(feed[i].bar.value, MexcNative, Ok)
  {
    hide Spaced, Before, Between, ValidOf, Valid;
    var recs := RecordsBetween(feed, symbol, from, to);
    if Mentions(recs, k) {
      var i :| 0 <= i < |recs| && recs[i] == Record(k, FirstFor(recs, k));
      var j := WrittenFrom(feed, from, to, step, ValidOf(Between(feed, from, to))[i]);
      assert Offers(feed, j, k.ts);
    }
    if k.symbol == symbol && from <= k.ts < to && exists i :: Offers(feed, i, k.ts) {
      var i :| Offers(feed, i, k.ts);
      var c := WrittenTo(feed, from, to, step, i);
      var j :| 0 <= j < |ValidOf(Between(feed, from, to))| && ValidOf(Between(feed, from, to))[j] == c;
      assert recs[j].key == k;
    }
  }

  lemma WrittenFrom(feed: seq<Raw>, from: int, to: int, step: int, c: Candle) returns (i: nat)
    requires step > 0 && Spaced(feed, step) && c in ValidOf(Between(feed, from, to))
    ensures Offers(feed, i, c.ts) && from <= c.ts < to && c.bar == feed[i].bar.value
  {
    hide Spaced, Before, ValidOf, OhlcOk;
    var rows := Between(feed, from, to);
    ValidOfMembers(rows);
    BeforeSplits(feed, from, step);
    BeforeSplits(feed, to, step);
    var r :| r in rows && Valid(r) && c == Candle(r.ts, r.bar.value);
    var j :| 0 <= j < |rows| && rows[j] == r;
    i := Before(feed, from) + j;
    assert feed[i] == r;
  }

  lemma WrittenTo(feed: seq<Raw>, from: int, to: int, step: int, i: nat) returns (c: Candle)
    requires step > 0 && Spaced(feed, step) && i < |feed| && Valid(feed[i]) && from <= feed[i].ts < to
    ensures c in ValidOf(Between(feed, from, to)) && c == Candle(feed[i].ts, feed[i].bar.value)
  {
    var rows := Between(feed, from, to);
    c := Candle(feed[i].ts, feed[i].bar.value);
    BeforeSplits(feed, from, step);
    BeforeSplits(feed, to, step);
    ValidOfMembers(rows);
    hide Spaced, Before, ValidOf, Valid;
    assert Before(feed, from) <= i < Before(feed, to);
    assert rows[i - Before(feed, from)] == feed[i];
    assert feed[i] in rows;
  }

  // --- Coverage ---------------------------------------------------------------

  // Every valid candle of the window is in the table.
  ghost predicate Covers(t: Candles, feed: seq<Raw>, symbol: string, since: int, until: int) {
    forall i :: 0 <= i < |feed| && since <= feed[i].ts < until && Valid(feed[i]) ==> Key(symbol, feed[i].ts) in t
  }

  lemma CoversIffReached(feed: seq<Raw>, serve: int -> PageLen, symbol: string, since: int, until: int, step: int)
    requires step > 0 && Spaced(feed, step)
    ensures Covers(Backfilled(map[], feed, serve, symbol, since, until, step), feed, symbol, since, until) <==>
            forall i :: 0 <= i < |feed| && since <= feed[i].ts < until && Valid(feed[i]) ==>
                          feed[i].ts < Reached(feed, serve, since, until, step)
  {
    var c := Reached(feed, serve, since, until, step);
    var recs := RecordsBetween(feed, symbol, since, c);
    forall i | 0 <= i < |feed| && since <= feed[i].ts < until && Valid(feed[i])
      ensures Key(symbol, feed[i].ts) in InsertAll(map[], recs) <==> feed[i].ts < c
    {
      hide Spaced, Valid, RecordsBetween, InsertAll, Reached;
      var k := Key(symbol, feed[i].ts);
      assert Offers(feed, i, k.ts);
      WritesOnlyTheFeed(feed, symbol, since, c, step, k);
      MergeMeaning(map[], recs, k);
    }
    hide Spaced, Valid, RecordsBetween, InsertAll, Reached;
  }

  // A run that does not end on a page made up of invalid rows only leaves every valid
  // candle of the window in the table, whatever the table held and however pages were cut.
  lemma CoveredUnlessBadPage(t: Candles, feed: seq<Raw>, serve: int -> PageLen, symbol: string, since: int, until: int, step: int)
    requires step > 0 && Spaced(feed, step)
    requires var c := Reached(feed, serve, since, until, step); c < until ==> Page(feed, c, serve(c)) == []
    ensures Covers(Backfilled(t, feed, serve, symbol, since, until, step), feed, symbol, since, until)
  {
    hide Spaced, Valid, RecordsBetween, InsertAll, Reached, Before;
    var c := Reached(feed, serve, since, until, step);
    BeforeSplits(feed, c, step);
    forall i | 0 <= i < |feed| && since <= feed[i].ts < until && Valid(feed[i])
      ensures Key(symbol, feed[i].ts) in Backfilled(t, feed, serve, symbol, since, until, step)
    {
      var recs, k := RecordsBetween(feed, symbol, since, c), Key(symbol, feed[i].ts);
      assert feed[i].ts < c;
      assert Offers(feed, i, k.ts);
      WritesOnlyTheFeed(feed, symbol, since, c, step, k);
      MergeMeaning(t, recs, k);
    }
  }

  // No valid row of the window follows a full page of invalid rows.
  ghost predicate NoLongGap(feed: seq<Raw>, since: int, until: int, limit: PageLen) {
    forall j :: Before(feed, since) + limit <= j < |feed| && feed[j].ts < until && Valid(feed[j]) ==>
                  exists i :: j - limit <= i < j && Valid(feed[i])
  }

  lemma EmptyPage(feed: seq<Raw>, limit: PageLen, cursor: int, step: int, i: nat)
    requires NextCursor(feed, _ => limit, cursor, step).None?
    requires Before(feed, cursor) <= i < Before(feed, cursor) + limit && i < |feed|
    ensures !Valid(feed[i])
  {
    hide Before, ValidOf, Valid;
    var page, b := Page(feed, cursor, limit), Before(feed, cursor);
    NoneValid(page);
    assert page[i - b] == feed[i];
    assert feed[i] in page;
  }

  lemma {:induction false} GapCannotStart(feed: seq<Raw>, since: int, until: int, limit: PageLen, b: nat, j: nat)
    requires NoLongGap(feed, since, until, limit) && Before(feed, since) <= b <= j < |feed|
    requires forall i :: b <= i < b + limit && i < |feed| ==> !Valid(feed[i])
    requires forall i :: b <= i <= j ==> feed[i].ts < until
    ensures !Valid(feed[j])
    decreases j
  {
    hide Before, Valid;
    if j >= b + limit {
      forall i | b <= i < j ensures !Valid(feed[i]) {
        GapCannotStart(feed, since, until, limit, b, i);
      }
    }
  }

  lemma {:induction false} CoveredFrom(feed: seq<Raw>, limit: PageLen, since: int, cursor: int, until: int, step: int, j: nat)
    requires step > 0 && Spaced(feed, step) && Before(feed, since) <= Before(feed, cursor)
    requires NoLongGap(feed, since, until, limit)
    requires j < |feed| && feed[j].ts < until && Valid(feed[j])
    ensures feed[j].ts < Reached(feed, _ => limit, cursor, until, step)
    decreases until - cursor
  {
    hide Before, Valid, NextCursor, NoLongGap;
    if cursor < until {
      if NextCursor(feed, _ => limit, cursor, step).Some? {
        hide Spaced;
        var v := PageMoves(feed, _ => limit, cursor, step);
        CursorAdvances(feed, _ => limit, cursor, step);
        CoveredFrom(feed, limit, since, NextCursor(feed, _ => limit, cursor, step).value, until, step, j);
      } else {
        BeforeSplits(feed, cursor, step);
        forall i | Before(feed, cursor) <= i < Before(feed, cursor) + limit && i < |feed| ensures !Valid(feed[i]) {
          EmptyPage(feed, limit, cursor, step, i);
        }
        if Before(feed, cursor) <= j {
          assert forall i :: 0 <= i <= j ==> feed[i].ts <= feed[j].ts;
          GapCannotStart(feed, since, until, limit, Before(feed, cursor), j);
        }
      }
    }
  }

  lemma {:induction false} StuckBefore(feed: seq<Raw>, limit: PageLen, since: int, cursor: int, until: int, step: int, j: nat)
    requires step > 0 && Spaced(feed, step) && Before(feed, since) <= Before(feed, cursor)
    requires j < |feed| && feed[j].ts < until && Before(feed, cursor) + limit <= j
    requires forall i :: j - limit <= i < j ==> !Valid(feed[i])
    ensures Reached(feed, _ => limit, cursor, until, step) <= feed[j].ts
    decreases until - cursor
  {
    hide Before, Valid, NextCursor;
    BeforeSplits(feed, cursor, step);
    if cursor < until && NextCursor(feed, _ => limit, cursor, step).Some? {
      hide Spaced;
      var v := PageMoves(feed, _ => limit, cursor, step);
      CursorAdvances(feed, _ => limit, cursor, step);
      StuckBefore(feed, limit, since, NextCursor(feed, _ => limit, cursor, step).value, until, step, j);
    }
  }

  // Exact coverage: an exchange that always fills its pages has its window covered
  // exactly when no valid row of the window follows a full page of invalid ones. The loop
  // takes a page without a single valid row for the end of the data.
  lemma CoverageExact(feed: seq<Raw>, limit: PageLen, symbol: string, since: int, until: int, step: int)
    requires step > 0 && Spaced(feed, step)
    ensures Covers(Backfilled(map[], feed, _ => limit, symbol, since, until, step), feed, symbol, since, until)
            <==> NoLongGap(feed, since, until, limit)
  {
    CoversIffReached(feed, _ => limit, symbol, since, until, step);
    BeforeSplits(feed, since, step);
    hide Before, Valid, Reached, Spaced, Backfilled, Covers;
    if NoLongGap(feed, since, until, limit) {
      forall j | 0 <= j < |feed| && since <= feed[j].ts < until && Valid(feed[j])
        ensures feed[j].ts < Reached(feed, _ => limit, since, until, step)
      {
        CoveredFrom(feed, limit, since, since, until, step, j);
      }
    } else {
      var j :| Before(feed, since) + limit <= j < |feed| && feed[j].ts < until && Valid(feed[j])
               && forall i :: j - limit <= i < j ==> !Valid(feed[i]);
      StuckBefore(feed, limit, since, since, until, step, j);
    }
  }

  // In the window, no invalid row comes before a valid one.
  ghost predicate ValidUpFront(feed: seq<Raw>, since: int, until: int) {
    forall i, j :: 0 <= i < j < |feed| && since <= feed[i].ts && feed[j].ts < until && Valid(feed[j]) ==> Valid(feed[i])
  }

  lemma {:induction false} CoveredByAny(feed: seq<Raw>, serve: int -> PageLen, since: int, cursor: int, until: int, step: int, j: nat)
    requires step > 0 && Spaced(feed, step) && since <= cursor && ValidUpFront(feed, since, until)
    requires j < |feed| && feed[j].ts < until && Valid(feed[j])
    ensures feed[j].ts < Reached(feed, serve, cursor, until, step)
    decreases until - cursor
  {
    hide Valid;
    if cursor < until {
      if NextCursor(feed, serve, cursor, step).Some? {
        CursorAdvances(feed, serve, cursor, step);
        CoveredByAny(feed, serve, since, NextCursor(feed, serve, cursor, step).value, until, step, j);
      } else {
        BeforeSplits(feed, cursor, step);
        var b, page := Before(feed, cursor), Page(feed, cursor, serve(cursor));
        NoneValid(page);
        hide Before, ValidOf;
        if b < |feed| {
          assert page[0] == feed[b] && feed[b] in page;
        }
      }
    }
  }

  // Over every exchange that keeps the contract, however short its pages, the window is
  // covered exactly when no invalid row precedes a valid one in it.
  lemma CoverageForEveryExchange(feed: seq<Raw>, symbol: string, since: int, until: int, step: int)
    requires step > 0 && Spaced(feed, step)
    ensures (forall serve: int -> PageLen ::
               Covers(Backfilled(map[], feed, serve, symbol, since, until, step), feed, symbol, since, until))
            <==> ValidUpFront(feed, since, until)
  {
    if ValidUpFront(feed, since, until) {
      forall serve: int -> PageLen
        ensures Covers(Backfilled(map[], feed, serve, symbol, since, until, step), feed, symbol, since, until)
      {
        CoversIffReached(feed, serve, symbol, since, until, step);
        hide Before, Valid, Reached, Spaced, Backfilled, Covers, ValidUpFront;
        forall j | 0 <= j < |feed| && since <= feed[j].ts < until && Valid(feed[j])
          ensures feed[j].ts < Reached(feed, serve, since, until, step)
        {
          CoveredByAny(feed, serve, since, since, until, step, j);
        }
      }
    }
    if forall serve: int -> PageLen ::
         Covers(Backfilled(map[], feed, serve, symbol, since, until, step), feed, symbol, since, until) {
      CoverageExact(feed, 1, symbol, since, until, step);
      hide Backfilled, Covers, Reached;
      NoGapOfOne(feed, since, until, step);
    }
  }

  lemma NoGapOfOne(feed: seq<Raw>, since: int, until: int, step: int)
    requires step > 0 && Spaced(feed, step) && NoLongGap(feed, since, until, 1)
    ensures ValidUpFront(feed, since, until)
  {
    hide Valid;
    BeforeSplits(feed, since, step);
    forall i, j | 0 <= i < j < |feed| && since <= feed[i].ts && feed[j].ts < until && Valid(feed[j])
      ensures Valid(feed[i])
    {
      BackOne(feed, since, until, step, i, j);
    }
  }

  lemma {:induction false} BackOne(feed: seq<Raw>, since: int, until: int, step: int, i: nat, j: nat)
    requires step > 0 && Spaced(feed, step) && NoLongGap(feed, since, until, 1)
    requires Before(feed, since) <= i < j < |feed| && feed[j].ts < until && Valid(feed[j])
    ensures Valid(feed[i])
    decreases j
  {
    hide Valid, Before;
    assert Valid(feed[j - 1]);
    if i < j - 1 {
      BackOne(feed, since, until, step, i, j - 1);
    }
  }

  // --- Abort and rerun --------------------------------------------------------

  // The cursor after at most n pages.
  ghost function CursorAfter(feed: seq<Raw>, serve: int -> PageLen, since: int, until: int, step: int, n: nat): (c: int)
    requires step > 0 && Spaced(feed, step)
  {
    if n == 0 then since else
      var c := CursorAfter(feed, serve, since, until, step, n - 1);
      if c >= until || NextCursor(feed, serve, c, step).None? then c else NextCursor(feed, serve, c, step).value
  }

  lemma {:induction false} AbortedEarlier(feed: seq<Raw>, serve: int -> PageLen, since: int, until: int, step: int, n: nat)
    requires step > 0 && Spaced(feed, step)
    ensures since <= CursorAfter(feed, serve, since, until, step, n)
    ensures Reached(feed, serve, since, until, step)
            == Reached(feed, serve, CursorAfter(feed, serve, since, until, step, n), until, step)
  {
    hide Spaced, NextCursor, Reached;
    if n == 0 {
    } else {
      AbortedEarlier(feed, serve, since, until, step, n - 1);
      ReachedStep(feed, serve, CursorAfter(feed, serve, since, until, step, n - 1), until, step);
    }
  }

  // A run aborted after any number of pages and then rerun, on an exchange that may cut
  // its pages differently the second time, leaves the rows up to the further of the two
  // points reached.
  lemma RerunAfterAbort(
    t: Candles, feed: seq<Raw>, first: int -> PageLen, second: int -> PageLen, symbol: string,
    since: int, until: int, step: int, n: nat)
    requires step > 0 && Spaced(feed, step)
    ensures var c, r := CursorAfter(feed, first, since, until, step, n), Reached(feed, second, since, until, step);
            var aborted := InsertAll(t, RecordsBetween(feed, symbol, since, c));
            Backfilled(aborted, feed, second, symbol, since, until, step)
            == InsertAll(t, RecordsBetween(feed, symbol, since, if c <= r then r else c))
  {
    var c, r := CursorAfter(feed, first, since, until, step, n), Reached(feed, second, since, until, step);
    AbortedEarlier(feed, first, since, until, step, n);
    BeforeMonotone(feed, since, c, step);
    BeforeMonotone(feed, since, r, step);
    if c <= r {
      BeforeMonotone(feed, c, r, step);
      BetweenJoins(feed, symbol, since, c, r);
      ReplayPrefix(t, RecordsBetween(feed, symbol, since, c), RecordsBetween(feed, symbol, c, r));
    } else {
      BeforeMonotone(feed, r, c, step);
      BetweenJoins(feed, symbol, since, r, c);
      ReplayPrefix(t, RecordsBetween(feed, symbol, since, r), RecordsBetween(feed, symbol, r, c));
    }
  }

  // With the same pages the second time, the rerun table is that of one uninterrupted run.
  lemma RestartIsUninterrupted(
    t: Candles, feed: seq<Raw>, serve: int -> PageLen, symbol: string, since: int, until: int, step: int, n: nat)
    requires step > 0 && Spaced(feed, step)
    ensures var aborted := InsertAll(t, RecordsBetween(feed, symbol, since, CursorAfter(feed, serve, since, until, step, n)));
            Backfilled(aborted, feed, serve, symbol, since, until, step) == Backfilled(t, feed, serve, symbol, since, until, step)
  {
    RerunAfterAbort(t, feed, serve, serve, symbol, since, until, step, n);
    AbortedEarlier(feed, serve, since, until, step, n);
  }
}
