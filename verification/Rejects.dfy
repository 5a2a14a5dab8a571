// Which rows a backfill rejects, and when it rejects a row more than once.
module Rejects {
  import opened Store
  import opened Market
  import opened Backfill
  import opened Overrun

  lemma {:induction false} RejectedOrigin(feed: seq<Raw>, serve: int -> PageLen, since: int, until: int, step: int, r: Raw)
    requires step > 0 && Spaced(feed, step) && r in DeadLetters(feed, serve, since, until, step)
    ensures r in feed && !Valid(r) && since <= r.ts
    decreases until - since
  {
    hide Spaced, Valid, NextCursor, RejectedOf, DeadLetters, Page;
    var page, next := Page(feed, since, serve(since)), NextCursor(feed, serve, since, step);
    DeadLettersStep(feed, serve, since, until, step);
    RejectedMembers(page);
    InPage(feed, serve, since, step);
    if r !in RejectedOf(page) {
      RejectedOrigin(feed, serve, next.value, until, step, r);
    }
  }

  lemma {:induction false} PassedIsRejected(feed: seq<Raw>, serve: int -> PageLen, since: int, until: int, step: int, i: nat)
    requires step > 0 && Spaced(feed, step)
    requires i < |feed| && since <= feed[i].ts < Reached(feed, serve, since, until, step) && !Valid(feed[i])
    ensures feed[i] in DeadLetters(feed, serve, since, until, step)
    decreases until - since
  {
    hide Spaced, Before, Valid, NextCursor, RejectedOf, Reached, DeadLetters, Page;
    DeadLettersStep(feed, serve, since, until, step);
    ReachedStep(feed, serve, since, until, step);
    RejectedMembers(Page(feed, since, serve(since)));
    var v := PageMoves(feed, serve, since, step);
    if feed[i].ts < feed[v].ts + step {
      PassedIsPaged(feed, serve, since, step, v, i);
    } else {
      PassedIsRejected(feed, serve, feed[v].ts + step, until, step, i);
    }
  }

  // Only invalid rows from since on are dead-lettered, and every invalid row the run has
  // passed is, at least once.
  lemma DeadLettersMean(feed: seq<Raw>, serve: int -> PageLen, since: int, until: int, step: int)
    requires step > 0 && Spaced(feed, step)
    ensures forall r :: r in DeadLetters(feed, serve, since, until, step) ==> r in feed && !Valid(r) && since <= r.ts
    ensures forall i :: 0 <= i < |feed| && since <= feed[i].ts < Reached(feed, serve, since, until, step) && !Valid(feed[i]) ==>
                          feed[i] in DeadLetters(feed, serve, since, until, step)
  {
    hide Spaced, Valid, Reached, DeadLetters;
    forall r | r in DeadLetters(feed, serve, since, until, step) ensures r in feed && !Valid(r) && since <= r.ts {
      RejectedOrigin(feed, serve, since, until, step, r);
    }
    forall i | 0 <= i < |feed| && since <= feed[i].ts < Reached(feed, serve, since, until, step) && !Valid(feed[i])
      ensures feed[i] in DeadLetters(feed, serve, since, until, step)
    {
      PassedIsRejected(feed, serve, since, until, step, i);
    }
  }

  lemma PassedIsPaged(feed: seq<Raw>, serve: int -> PageLen, cursor: int, step: int, v: nat, i: nat)
    requires step > 0 && Spaced(feed, step) && v < |feed| && i < |feed| && cursor <= feed[i].ts < feed[v].ts + step
    requires Before(feed, cursor) <= v < Before(feed, cursor) + serve(cursor)
    ensures feed[i] in Page(feed, cursor, serve(cursor))
  {
    hide Before;
    RowBetween(feed, step, cursor, feed[v].ts + step, i);
    NotBehind(feed, step, v, i);
    assert Page(feed, cursor, serve(cursor))[i - Before(feed, cursor)] == feed[i];
  }

  lemma InPage(feed: seq<Raw>, serve: int -> PageLen, cursor: int, step: int)
    requires step > 0 && Spaced(feed, step)
    ensures forall r :: r in Page(feed, cursor, serve(cursor)) ==> r in feed && cursor <= r.ts
  {
    BeforeSplits(feed, cursor, step);
    hide Before;
  }

  // The shortest way to reject a row twice: it lies behind the last valid row of its page,
  // and the page is not the last one.
  lemma RejectedTwice(b: Bar)
    requires OhlcOk(b)
    ensures var feed := [Raw(0, Some(b)), Raw(60_000, None), Raw(120_000, Some(b))];
            Spaced(feed, 60_000) && DeadLetters(feed, _ => 2, 0, 180_000, 60_000) == [feed[1], feed[1]]
  {
    var feed := [Raw(0, Some(b)), Raw(60_000, None), Raw(120_000, Some(b))];
    hide NextCursor, DeadLetters, ValidOf, RejectedOf, Before, Page;
    BeforeAt(feed, 0, 0, 60_000);
    BeforeAt(feed, 1, 60_000, 60_000);
    BeforeAt(feed, 3, 180_000, 60_000);
    TwoRows(feed, _ => 2, 0, 60_000, 0, feed[0], feed[1]);
    TwoRows(feed, _ => 2, 60_000, 60_000, 1, feed[1], feed[2]);
    DeadLettersStep(feed, _ => 2, 0, 180_000, 60_000);
    DeadLettersStep(feed, _ => 2, 60_000, 180_000, 60_000);
    DeadLettersStep(feed, _ => 2, 180_000, 180_000, 60_000);
  }

  lemma TwoRows(feed: seq<Raw>, serve: int -> PageLen, cursor: int, step: int, n: nat, a: Raw, c: Raw)
    requires serve(cursor) == 2 && Before(feed, cursor) == n && n + 2 <= |feed| && feed[n] == a && feed[n + 1] == c
    requires Valid(a) != Valid(c)
    ensures NextCursor(feed, serve, cursor, step) == Some(step + if Valid(a) then a.ts else c.ts)
    ensures RejectedOf(Page(feed, cursor, serve(cursor))) == [if Valid(a) then c else a]
  {
    hide Before, Valid, ValidOf, RejectedOf;
    assert Page(feed, cursor, serve(cursor)) == [a, c];
    PairOfRows(a, c);
  }

  lemma PairOfRows(a: Raw, c: Raw)
    requires Valid(a) != Valid(c)
    ensures var v := if Valid(a) then a else c; ValidOf([a, c]) == [Candle(v.ts, v.bar.value)]
    ensures RejectedOf([a, c]) == [if Valid(a) then c else a]
  {
    hide OhlcOk;
    var rows := [a, c];
    assert rows[..1] == [a] && [a][..0] == [];
    assert ValidOf([a]) == if Valid(a) then [Candle(a.ts, a.bar.value)] else [];
    assert RejectedOf([a]) == if Valid(a) then [] else [a];
  }

  // --- Once or more than once --------------------------------------------------------

  predicate Distinct(rs: seq<Raw>) { forall i, j :: 0 <= i < j < |rs| ==> rs[i] != rs[j] }

  lemma DistinctJoin(a: seq<Raw>, b: seq<Raw>)
    ensures Distinct(a + b) <==> Distinct(a) && Distinct(b) && forall r :: r in a ==> r !in b
  {
    var all := a + b;
    assert forall i :: 0 <= i < |a| ==> all[i] == a[i];
    assert forall i :: 0 <= i < |b| ==> all[|a| + i] == b[i];
    if Distinct(all) {
      forall i, j | 0 <= i < |a| && 0 <= j < |b| ensures a[i] != b[j] {
        assert all[i] != all[|a| + j];
      }
    } else {
      var i, j :| 0 <= i < j < |all| && all[i] == all[j];
      if i < |a| <= j {
        assert a[i] in a && b[j - |a|] in b;
      }
    }
  }

  predicate Later(rs: seq<Raw>) { forall i, j :: 0 <= i < j < |rs| ==> rs[i].ts < rs[j].ts }

  lemma {:induction false} RejectedDistinct(rows: seq<Raw>)
    requires Later(rows)
    ensures Later(RejectedOf(rows)) && Distinct(RejectedOf(rows))
  {
    if rows == [] {
    } else {
      var front, last := rows[..|rows| - 1], rows[|rows| - 1];
      RejectedDistinct(front);
      RejectedMembers(front);
      forall i | 0 <= i < |RejectedOf(front)| ensures RejectedOf(front)[i].ts < last.ts {
        assert RejectedOf(front)[i] in front;
      }
    }
  }

  predicate EndsValid(page: seq<Raw>) { page != [] && Valid(page[|page| - 1]) }

  // Every page that is followed by another one ends with a valid row.
  ghost predicate CleanPages(feed: seq<Raw>, serve: int -> PageLen, cursor: int, until: int, step: int)
    requires step > 0 && Spaced(feed, step)
    decreases until - cursor
  {
    if cursor >= until then true
    else
      var next := NextCursor(feed, serve, cursor, step);
      if next.None? || next.value >= until then true
      else
        CursorAdvances(feed, serve, cursor, step);
        EndsValid(Page(feed, cursor, serve(cursor))) && CleanPages(feed, serve, next.value, until, step)
  }

  lemma CleanStep(feed: seq<Raw>, serve: int -> PageLen, cursor: int, until: int, step: int)
    requires step > 0 && Spaced(feed, step)
    ensures var next := NextCursor(feed, serve, cursor, step);
            && (next.Some? ==> cursor < next.value)
            && (CleanPages(feed, serve, cursor, until, step) <==>
                (cursor < until && next.Some? && next.value < until ==>
                   EndsValid(Page(feed, cursor, serve(cursor))) && CleanPages(feed, serve, next.value, until, step)))
  {
    if NextCursor(feed, serve, cursor, step).Some? {
      CursorAdvances(feed, serve, cursor, step);
    }
    hide Spaced, NextCursor, Page, EndsValid;
  }

  // A page ends with a valid row exactly when its last valid row is its last one; otherwise
  // it holds the invalid row behind that.
  lemma PageTail(feed: seq<Raw>, serve: int -> PageLen, cursor: int, step: int, v: nat)
    requires step > 0 && Spaced(feed, step) && v < |feed| && NextCursor(feed, serve, cursor, step) == Some(feed[v].ts + step)
    ensures var page, b := Page(feed, cursor, serve(cursor)), Before(feed, cursor);
            && b <= v < b + |page|
            && (EndsValid(page) <==> v == b + |page| - 1)
            && (!EndsValid(page) ==> v + 1 < |feed| && feed[v + 1] in page && !Valid(feed[v + 1]))
  {
    hide Before, Valid, ValidOf, Spaced;
    var page, b := Page(feed, cursor, serve(cursor)), Before(feed, cursor);
    var i := LastValid(page);
    assert page[i] == feed[b + i];
    SameIndex(feed, step, b + i, v);
    if i < |page| - 1 {
      assert page[i + 1] == feed[v + 1] && page[i + 1] in page;
    }
  }

  lemma SameIndex(feed: seq<Raw>, step: int, i: nat, j: nat)
    requires step > 0 && Spaced(feed, step) && i < |feed| && j < |feed| && feed[i].ts == feed[j].ts
    ensures i == j
  {
  }

  // A run rejects every row at most once exactly when every page that is followed by
  // another one ends with a valid row.
  lemma {:induction false} RejectedOnceIff(feed: seq<Raw>, serve: int -> PageLen, since: int, until: int, step: int)
    requires step > 0 && Spaced(feed, step)
    ensures Distinct(DeadLetters(feed, serve, since, until, step)) <==> CleanPages(feed, serve, since, until, step)
    decreases until - since
  {
    hide Spaced, Before, Valid, ValidOf, NextCursor, RejectedOf, DeadLetters, CleanPages, Page, EndsValid, Distinct, Later;
    DeadLettersStep(feed, serve, since, until, step);
    CleanStep(feed, serve, since, until, step);
    if since >= until {
      NoneDistinct();
    } else {
      var page, next := Page(feed, since, serve(since)), NextCursor(feed, serve, since, step);
      PageLater(feed, since, step, serve(since));
      RejectedDistinct(page);
      if next.Some? {
        var rest := DeadLetters(feed, serve, next.value, until, step);
        RejectedOnceIff(feed, serve, next.value, until, step);
        DistinctJoin(RejectedOf(page), rest);
        if next.value < until {
          Overlap(feed, serve, since, until, step);
        } else {
          DeadLettersStep(feed, serve, next.value, until, step);
          CleanStep(feed, serve, next.value, until, step);
        }
      }
    }
  }

  lemma NoneDistinct()
    ensures Distinct([])
  {
  }

  lemma PageLater(feed: seq<Raw>, cursor: int, step: int, len: PageLen)
    requires step > 0 && Spaced(feed, step)
    ensures Later(Page(feed, cursor, len))
  {
    hide Before;
    var page, b := Page(feed, cursor, len), Before(feed, cursor);
    assert forall i :: 0 <= i < |page| ==> page[i] == feed[b + i];
  }

  // The rejects of a page and those of the pages after it have a row in common exactly when
  // the page ends with an invalid row.
  lemma Overlap(feed: seq<Raw>, serve: int -> PageLen, cursor: int, until: int, step: int)
    requires step > 0 && Spaced(feed, step) && cursor < until
    requires var next := NextCursor(feed, serve, cursor, step); next.Some? && next.value < until
    ensures var page, next := Page(feed, cursor, serve(cursor)), NextCursor(feed, serve, cursor, step).value;
            (forall r :: r in RejectedOf(page) ==> r !in DeadLetters(feed, serve, next, until, step)) <==> EndsValid(page)
  {
    hide Spaced, Before, Valid, ValidOf, NextCursor, RejectedOf, DeadLetters, Page;
    var page, next := Page(feed, cursor, serve(cursor)), NextCursor(feed, serve, cursor, step).value;
    var v := PageMoves(feed, serve, cursor, step);
    PageTail(feed, serve, cursor, step, v);
    RejectedMembers(page);
    if EndsValid(page) {
      PageBefore(feed, serve, cursor, step, v);
      forall r | r in RejectedOf(page) ensures r !in DeadLetters(feed, serve, next, until, step) {
        if r in DeadLetters(feed, serve, next, until, step) {
          RejectedOrigin(feed, serve, next, until, step, r);
        }
      }
    } else {
      var r := feed[v + 1];
      FirstOfPage(feed, next, serve(next), v + 1);
      RejectedMembers(Page(feed, next, serve(next)));
      DeadLettersStep(feed, serve, next, until, step);
      assert r in RejectedOf(page) && r in DeadLetters(feed, serve, next, until, step);
    }
  }

  lemma PageBefore(feed: seq<Raw>, serve: int -> PageLen, cursor: int, step: int, v: nat)
    requires step > 0 && Spaced(feed, step) && v < |feed|
    requires var page, b := Page(feed, cursor, serve(cursor)), Before(feed, cursor); v == b + |page| - 1
    ensures forall r :: r in Page(feed, cursor, serve(cursor)) ==> r.ts < feed[v].ts + step
  {
    hide Before;
    var page, b := Page(feed, cursor, serve(cursor)), Before(feed, cursor);
    assert forall i :: 0 <= i < |page| ==> page[i] == feed[b + i];
  }

  lemma FirstOfPage(feed: seq<Raw>, cursor: int, len: PageLen, n: nat)
    requires Before(feed, cursor) == n < |feed|
    ensures feed[n] in Page(feed, cursor, len)
  {
    hide Before;
    assert Page(feed, cursor, len)[0] == feed[n];
  }

  // --- Over every exchange -------------------------------------------------------------

  // A row to go on from with an invalid row behind it, and a way to a page that holds both:
  // no full page of rows before it lacks a row to go on from, nor does the stretch that with
  // it makes up a full page.
  ghost predicate Repeats(feed: seq<Raw>, since: int, until: int, step: int, v: int) {
    var b0 := Before(feed, since);
    && b0 <= v && Ready(feed, v, until, step) && v + 1 < |feed| && !Valid(feed[v + 1])
    && Bridged(feed, b0, v, until, step)
    && (b0 + PAGE_LIMIT <= v + 1 ==> exists w :: v + 1 - PAGE_LIMIT <= w < v && Ready(feed, w, until, step))
  }

  // Page lengths that lead to a page holding v and the row behind it.
  ghost function LeadPast(feed: seq<Raw>, v: int, until: int, step: int, cursor: int): PageLen {
    var b := Before(feed, cursor);
    if b <= v && v + 2 <= b + PAGE_LIMIT then v + 2 - b
    else if exists w :: b <= w < b + PAGE_LIMIT && w < v && Ready(feed, w, until, step) then
      var w :| b <= w < b + PAGE_LIMIT && w < v && Ready(feed, w, until, step);
      w - b + 1
    else 1
  }

  lemma {:induction false} LeadRepeats(feed: seq<Raw>, since: int, cursor: int, until: int, step: int, v: nat)
    requires step > 0 && Spaced(feed, step) && Repeats(feed, since, until, step, v)
    requires cursor < until && Before(feed, since) <= Before(feed, cursor) <= v
    ensures !CleanPages(feed, c => LeadPast(feed, v, until, step, c), cursor, until, step)
    decreases until - cursor
  {
    hide Spaced, Before, Valid, NextCursor, CleanPages, Page, EndsValid;
    var serve: int -> PageLen := c => LeadPast(feed, v, until, step, c);
    var b := Before(feed, cursor);
    CleanStep(feed, serve, cursor, until, step);
    if v + 2 <= b + PAGE_LIMIT {
      StopsBehind(feed, serve, cursor, step, v);
    } else {
      var w := Stepping(feed, since, until, step, v, b);
      var u := b + serve(cursor) - 1;
      assert b <= u < v && Ready(feed, u, until, step);
      PageEndsAt(feed, serve, cursor, step, u);
      LeadRepeats(feed, since, feed[u].ts + step, until, step, v);
    }
  }

  lemma Stepping(feed: seq<Raw>, since: int, until: int, step: int, v: nat, b: nat) returns (w: nat)
    requires Repeats(feed, since, until, step, v) && Before(feed, since) <= b <= v && v + 2 > b + PAGE_LIMIT
    ensures b <= w < b + PAGE_LIMIT && w < v && Ready(feed, w, until, step)
  {
    hide Before, Valid;
    if b + PAGE_LIMIT <= v {
      assert ReadyIn(feed, b, until, step);
      w :| b <= w < b + PAGE_LIMIT && Ready(feed, w, until, step);
    } else {
      w :| v + 1 - PAGE_LIMIT <= w < v && Ready(feed, w, until, step);
    }
  }

  lemma StopsBehind(feed: seq<Raw>, serve: int -> PageLen, cursor: int, step: int, v: nat)
    requires step > 0 && Spaced(feed, step)
    requires Before(feed, cursor) <= v && v + 1 < |feed| && Valid(feed[v]) && !Valid(feed[v + 1])
    requires serve(cursor) == v + 2 - Before(feed, cursor)
    ensures NextCursor(feed, serve, cursor, step) == Some(feed[v].ts + step)
    ensures !EndsValid(Page(feed, cursor, serve(cursor)))
  {
    hide Before, Valid, ValidOf;
    var page, b := Page(feed, cursor, serve(cursor)), Before(feed, cursor);
    assert page == feed[b..v + 2];
    LastButOne(page, v - b);
    hide Page, Spaced;
  }

  lemma LastButOne(page: seq<Raw>, i: nat)
    requires i + 2 == |page| && Valid(page[i]) && !Valid(page[i + 1])
    ensures ValidOf(page) != [] && ValidOf(page)[|ValidOf(page)| - 1].ts == page[i].ts
    ensures !EndsValid(page)
  {
    hide Valid, ValidOf;
    assert page[i] in page;
    NoneValid(page);
    var j := LastValid(page);
  }

  lemma {:induction false} UncleanRepeats(feed: seq<Raw>, serve: int -> PageLen, since: int, cursor: int, until: int, step: int)
    returns (v: nat)
    requires step > 0 && Spaced(feed, step)
    requires Trail(feed, Before(feed, since), Before(feed, cursor), until, step)
    requires !CleanPages(feed, serve, cursor, until, step)
    ensures Repeats(feed, since, until, step, v)
    decreases until - cursor
  {
    hide Spaced, Before, Valid, ValidOf, NextCursor, CleanPages, Page, EndsValid, Bridged;
    CleanStep(feed, serve, cursor, until, step);
    var b0, b := Before(feed, since), Before(feed, cursor);
    v := PageMoves(feed, serve, cursor, step);
    PageTail(feed, serve, cursor, step, v);
    PageFits(feed, cursor, serve(cursor));
    TrailReach(feed, b0, b, until, step, v);
    if EndsValid(Page(feed, cursor, serve(cursor))) {
      v := UncleanRepeats(feed, serve, since, feed[v].ts + step, until, step);
    } else if b0 + PAGE_LIMIT <= v + 1 {
      assert b > b0 && Ready(feed, b - 1, until, step);
    }
  }

  lemma PageFits(feed: seq<Raw>, cursor: int, len: PageLen)
    ensures |Page(feed, cursor, len)| <= len <= PAGE_LIMIT
  {
    hide Before;
  }

  // Over every exchange that keeps the page contract, no row is ever rejected twice exactly
  // when no row to go on from with an invalid row behind it is within reach.
  lemma RejectedOnceForEveryExchange(feed: seq<Raw>, since: int, until: int, step: int)
    requires step > 0 && Spaced(feed, step)
    ensures (forall serve: int -> PageLen :: Distinct(DeadLetters(feed, serve, since, until, step)))
            <==> forall v :: !Repeats(feed, since, until, step, v)
  {
    hide Spaced, Before, Valid, DeadLetters, CleanPages, Repeats, Distinct;
    if v :| Repeats(feed, since, until, step, v) {
      RepeatsInside(feed, since, until, step, v);
      var serve: int -> PageLen := c => LeadPast(feed, v, until, step, c);
      LeadRepeats(feed, since, since, until, step, v);
      RejectedOnceIff(feed, serve, since, until, step);
      assert !Distinct(DeadLetters(feed, serve, since, until, step));
    } else {
      forall serve: int -> PageLen ensures Distinct(DeadLetters(feed, serve, since, until, step)) {
        RejectedOnceIff(feed, serve, since, until, step);
        if !CleanPages(feed, serve, since, until, step) {
          var v := UncleanRepeats(feed, serve, since, since, until, step);
        }
      }
    }
  }

  lemma RepeatsInside(feed: seq<Raw>, since: int, until: int, step: int, v: int)
    requires step > 0 && Spaced(feed, step) && Repeats(feed, since, until, step, v)
    ensures since < until && 0 <= Before(feed, since) <= v
  {
    BeforeSplits(feed, since, step);
    hide Before;
  }
}
