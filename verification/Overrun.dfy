// What a backfill does at and past the end of its window.
module Overrun {
  import opened Store
  import opened Market
  import opened Backfill

  // A valid row from which the loop goes on to another page.
  predicate Ready(feed: seq<Raw>, v: int, until: int, step: int) {
    0 <= v < |feed| && Valid(feed[v]) && feed[v].ts + step < until
  }

  predicate ReadyIn(feed: seq<Raw>, from: int, until: int, step: int) {
    exists v :: from <= v < from + PAGE_LIMIT && Ready(feed, v, until, step)
  }

  // Every full page of rows between two positions holds a row to go on from.
  ghost predicate Bridged(feed: seq<Raw>, from: int, to: int, until: int, step: int) {
    forall i :: from <= i && i + PAGE_LIMIT <= to ==> ReadyIn(feed, i, until, step)
  }

  // A valid row at or past the end that the window leads up to.
  ghost predicate Exposed(feed: seq<Raw>, since: int, until: int, step: int, j: int) {
    && 0 <= j < |feed| && feed[j].ts >= until && Valid(feed[j])
    && Bridged(feed, Before(feed, since), j, until, step)
  }

  ghost predicate NothingPast(t: Candles, until: int) {
    forall k :: k in t ==> k.ts < until
  }

  // A page that ends with a valid row moves the cursor just behind it.
  lemma PageEndsAt(feed: seq<Raw>, serve: int -> PageLen, cursor: int, step: int, v: nat)
    requires step > 0 && Spaced(feed, step)
    requires Before(feed, cursor) <= v < |feed| && Valid(feed[v]) && serve(cursor) >= v - Before(feed, cursor) + 1
    requires serve(cursor) == v - Before(feed, cursor) + 1 || v == |feed| - 1
    ensures NextCursor(feed, serve, cursor, step) == Some(feed[v].ts + step)
    ensures Before(feed, feed[v].ts + step) == v + 1
  {
    hide Before, Valid, ValidOf;
    var page, b := Page(feed, cursor, serve(cursor)), Before(feed, cursor);
    assert page == feed[b..v + 1] && page[v - b] == feed[v] && feed[v] in page;
    NoneValid(page);
    var i := LastValid(page);
    assert i == v - b;
    BeforeAt(feed, v + 1, feed[v].ts + step, step);
  }

  // Page lengths that lead to row j: up to it when it is within a page, else up to some
  // row to go on from.
  ghost function Lead(feed: seq<Raw>, j: int, until: int, step: int, cursor: int): PageLen {
    var b := Before(feed, cursor);
    if b <= j < b + PAGE_LIMIT then j - b + 1
    else if exists v :: b <= v < b + PAGE_LIMIT && Ready(feed, v, until, step) then
      var v :| b <= v < b + PAGE_LIMIT && Ready(feed, v, until, step);
      v - b + 1
    else 1
  }

  lemma {:induction false} LeadReaches(feed: seq<Raw>, since: int, cursor: int, until: int, step: int, j: nat)
    requires step > 0 && Spaced(feed, step) && Exposed(feed, since, until, step, j)
    requires cursor < until && Before(feed, since) <= Before(feed, cursor) <= j
    ensures Reached(feed, c => Lead(feed, j, until, step, c), cursor, until, step) > feed[j].ts
    decreases until - cursor
  {
    hide Spaced, Before, Valid, NextCursor, Reached;
    var serve: int -> PageLen := c => Lead(feed, j, until, step, c);
    var b := Before(feed, cursor);
    ReachedStep(feed, serve, cursor, until, step);
    if j < b + PAGE_LIMIT {
      PageEndsAt(feed, serve, cursor, step, j);
      ReachedStep(feed, serve, feed[j].ts + step, until, step);
    } else {
      assert ReadyIn(feed, b, until, step);
      var v := b + serve(cursor) - 1;
      assert Ready(feed, v, until, step) && b <= v;
      PageEndsAt(feed, serve, cursor, step, v);
      LeadReaches(feed, since, feed[v].ts + step, until, step, j);
    }
  }

  // The positions passed so far are bridged, and the cursor stands at the start or just
  // behind a row to go on from.
  ghost predicate Trail(feed: seq<Raw>, from: int, b: int, until: int, step: int) {
    from <= b && Bridged(feed, from, b, until, step) && (b == from || Ready(feed, b - 1, until, step))
  }

  // Within a page's reach of such a position everything is bridged.
  lemma TrailReach(feed: seq<Raw>, from: int, b: int, until: int, step: int, to: int)
    requires Trail(feed, from, b, until, step) && b <= to < b + PAGE_LIMIT
    ensures Bridged(feed, from, to, until, step)
    ensures Ready(feed, to, until, step) ==> Trail(feed, from, to + 1, until, step)
  {
    hide Ready;
    forall i | from <= i && i + PAGE_LIMIT <= to + 1 && (i + PAGE_LIMIT <= to || Ready(feed, to, until, step))
      ensures ReadyIn(feed, i, until, step)
    {
      if i + PAGE_LIMIT > b {
        var v := if i < b then b - 1 else to;
        assert i <= v < i + PAGE_LIMIT && Ready(feed, v, until, step);
      }
    }
  }

  lemma {:induction false} OverrunIsExposed(feed: seq<Raw>, serve: int -> PageLen, since: int, cursor: int, until: int, step: int, j: nat)
    requires step > 0 && Spaced(feed, step) && cursor < until
    requires Trail(feed, Before(feed, since), Before(feed, cursor), until, step)
    requires j < |feed| && feed[j].ts >= until && Valid(feed[j])
    requires Reached(feed, serve, cursor, until, step) > feed[j].ts
    ensures Exposed(feed, since, until, step, j)
    decreases until - cursor
  {
    hide Spaced, Before, Valid, NextCursor, Reached, Bridged, Trail;
    ReachedStep(feed, serve, cursor, until, step);
    var b := Before(feed, cursor);
    var v := PageMoves(feed, serve, cursor, step);
    var next := feed[v].ts + step;
    PastIsLater(feed, cursor, until, step, j);
    if next < until {
      TrailReach(feed, Before(feed, since), b, until, step, v);
      OverrunIsExposed(feed, serve, since, next, until, step, j);
    } else {
      ReachedStep(feed, serve, next, until, step);
      NotBehind(feed, step, v, j);
      TrailReach(feed, Before(feed, since), b, until, step, j);
    }
  }

  lemma PastIsLater(feed: seq<Raw>, cursor: int, until: int, step: int, j: nat)
    requires step > 0 && Spaced(feed, step) && cursor < until && j < |feed| && feed[j].ts >= until
    ensures Before(feed, cursor) <= j
  {
    BeforeSplits(feed, cursor, step);
    hide Before;
  }

  lemma NotBehind(feed: seq<Raw>, step: int, v: nat, j: nat)
    requires step > 0 && Spaced(feed, step) && v < |feed| && j < |feed| && feed[j].ts < feed[v].ts + step
    ensures j <= v
  {
  }

  // The end of the window is documented as exclusive. Over every exchange that keeps the
  // page contract, nothing at or past it is written exactly when the window is empty or
  // every valid row there lies behind a full page of rows none of which the loop can go
  // on from.
  lemma UntilRespectedIff(feed: seq<Raw>, symbol: string, since: int, until: int, step: int)
    requires step > 0 && Spaced(feed, step)
    ensures (forall serve: int -> PageLen :: NothingPast(Backfilled(map[], feed, serve, symbol, since, until, step), until))
            <==> since >= until || forall j :: !Exposed(feed, since, until, step, j)
  {
    hide Before, Valid, Reached, Spaced, Backfilled, Exposed;
    if since < until {
      if j :| Exposed(feed, since, until, step, j) {
        ExposedIsWritten(feed, symbol, since, until, step, j);
      } else {
        forall serve: int -> PageLen
          ensures NothingPast(Backfilled(map[], feed, serve, symbol, since, until, step), until)
        {
          UnexposedIsSafe(feed, serve, symbol, since, until, step);
        }
      }
    } else {
      forall serve: int -> PageLen
        ensures NothingPast(Backfilled(map[], feed, serve, symbol, since, until, step), until)
      {
        EmptyWindow(feed, serve, symbol, since, until, step);
      }
    }
  }

  lemma EmptyWindow(feed: seq<Raw>, serve: int -> PageLen, symbol: string, since: int, until: int, step: int)
    requires step > 0 && Spaced(feed, step) && since >= until
    ensures Backfilled(map[], feed, serve, symbol, since, until, step) == map[]
  {
    NothingBetween(map[], feed, symbol, since);
    hide RecordsBetween, InsertAll, Spaced;
  }

  lemma Written(feed: seq<Raw>, serve: int -> PageLen, symbol: string, since: int, until: int, step: int, k: Key)
    requires step > 0 && Spaced(feed, step)
    ensures k in Backfilled(map[], feed, serve, symbol, since, until, step) <==>
            && k.symbol == symbol && since <= k.ts < Reached(feed, serve, since, until, step)
            && exists i :: Offers(feed, i, k.ts)
  {
    hide Reached, RecordsBetween, InsertAll, Spaced, Offers;
    var c := Reached(feed, serve, since, until, step);
    WritesOnlyTheFeed(feed, symbol, since, c, step, k);
    MergeMeaning(map[], RecordsBetween(feed, symbol, since, c), k);
  }

  lemma ExposedIsWritten(feed: seq<Raw>, symbol: string, since: int, until: int, step: int, j: int)
    requires step > 0 && Spaced(feed, step) && since < until && Exposed(feed, since, until, step, j)
    ensures exists serve: int -> PageLen :: !NothingPast(Backfilled(map[], feed, serve, symbol, since, until, step), until)
  {
    var serve: int -> PageLen := c => Lead(feed, j, until, step, c);
    hide Before, Valid, Reached, Spaced, Backfilled, Bridged;
    PastIsLater(feed, since, until, step, j);
    LeadReaches(feed, since, since, until, step, j);
    var k := Key(symbol, feed[j].ts);
    assert Offers(feed, j, k.ts);
    Written(feed, serve, symbol, since, until, step, k);
    assert !NothingPast(Backfilled(map[], feed, serve, symbol, since, until, step), until);
  }

  lemma UnexposedIsSafe(feed: seq<Raw>, serve: int -> PageLen, symbol: string, since: int, until: int, step: int)
    requires step > 0 && Spaced(feed, step) && since < until && forall j :: !Exposed(feed, since, until, step, j)
    ensures NothingPast(Backfilled(map[], feed, serve, symbol, since, until, step), until)
  {
    hide Before, Valid, Reached, Spaced, Backfilled, Exposed;
    forall k | k in Backfilled(map[], feed, serve, symbol, since, until, step) ensures k.ts < until {
      Written(feed, serve, symbol, since, until, step, k);
      var j :| Offers(feed, j, k.ts);
      if k.ts >= until {
        OverrunIsExposed(feed, serve, since, since, until, step, j);
        assert false;
      }
    }
  }

  // A window of one minute with a candle on each end: the second is written although its
  // time is the exclusive end.
  lemma UntilExample(symbol: string, b: Bar)
    requires OhlcOk(b)
    ensures var feed := [Raw(0, Some(b)), Raw(60_000, Some(b))];
            Spaced(feed, 60_000) && Key(symbol, 60_000) in Backfilled(map[], feed, _ => 1000, symbol, 0, 60_000, 60_000)
  {
    var feed := [Raw(0, Some(b)), Raw(60_000, Some(b))];
    var serve: int -> PageLen := _ => 1000;
    hide Before, NextCursor, Reached, Backfilled;
    BeforeAt(feed, 0, 0, 60_000);
    PageEndsAt(feed, serve, 0, 60_000, 1);
    ReachedStep(feed, serve, 0, 60_000, 60_000);
    ReachedStep(feed, serve, 120_000, 60_000, 60_000);
    assert Offers(feed, 1, 60_000);
    Written(feed, serve, symbol, 0, 60_000, 60_000, Key(symbol, 60_000));
  }

  // --- How far ------------------------------------------------------------------

  // At most one page of rows at or past the end is written, and less than a page when the
  // exchange has a row in the last step of the window.
  lemma {:induction false} OverrunBounded(feed: seq<Raw>, serve: int -> PageLen, since: int, until: int, step: int)
    requires step > 0 && Spaced(feed, step) && since < until
    ensures |Between(feed, until, Reached(feed, serve, since, until, step))| <= 1000
    ensures (exists i :: 0 <= i < |feed| && since <= feed[i].ts && until - step <= feed[i].ts < until) ==>
              |Between(feed, until, Reached(feed, serve, since, until, step))| < 1000
    decreases until - since
  {
    hide Spaced, Before, Valid, NextCursor, Reached;
    ReachedStep(feed, serve, since, until, step);
    if NextCursor(feed, serve, since, step).None? {
      BeforeMonotone(feed, since, until, step);
    } else {
      var v := PageMoves(feed, serve, since, step);
      var next := feed[v].ts + step;
      BeforeMonotone(feed, since, until, step);
      if next < until {
        OverrunBounded(feed, serve, next, until, step);
        if i :| 0 <= i < |feed| && since <= feed[i].ts && until - step <= feed[i].ts < until {
          StepApart(feed, step, v, i);
        }
      } else {
        ReachedStep(feed, serve, next, until, step);
        if i :| 0 <= i < |feed| && since <= feed[i].ts && until - step <= feed[i].ts < until {
          RowBetween(feed, step, since, until, i);
        }
      }
    }
  }

  lemma StepApart(feed: seq<Raw>, step: int, v: nat, i: nat)
    requires step > 0 && Spaced(feed, step) && v < |feed| && i < |feed| && feed[v].ts < feed[i].ts
    ensures feed[v].ts + step <= feed[i].ts
  {
  }

  lemma RowBetween(feed: seq<Raw>, step: int, a: int, b: int, i: nat)
    requires step > 0 && Spaced(feed, step) && i < |feed| && a <= feed[i].ts < b
    ensures Before(feed, a) <= i < Before(feed, b)
  {
    BeforeSplits(feed, a, step);
    BeforeSplits(feed, b, step);
    hide Before;
  }

  // The bound is reached: a window without rows in front of a full page of valid ones.
  lemma WholePagePast(feed: seq<Raw>, since: int, until: int, step: int)
    requires step > 0 && Spaced(feed, step) && since < until && |feed| == 1000
    requires forall i :: 0 <= i < |feed| ==> feed[i].ts >= until && Valid(feed[i])
    ensures Between(feed, until, Reached(feed, _ => 1000, since, until, step)) == feed
  {
    hide Before, Valid, NextCursor, Reached;
    var serve: int -> PageLen := _ => 1000;
    BeforeAt(feed, 0, since, step);
    BeforeAt(feed, 0, until, step);
    PageEndsAt(feed, serve, since, step, 1000 - 1);
    ReachedStep(feed, serve, since, until, step);
    ReachedStep(feed, serve, feed[1000 - 1].ts + step, until, step);
  }
}
