// The freshness alerter: an edge-triggered check over the age of every feed.
module Freshness {
  import opened Store

  datatype FeedKey = FeedKey(source: string, dataset: string, symbol: string)

  // A gauge sample: labels as the registry holds them, and the last-update time, in seconds.
  datatype Sample = Sample(ours: bool, labels: Option<FeedKey>, updated: real)

  // EXPECTED_LAG, in seconds.
  function ExpectedLag(source: string, dataset: string): int {
    if source == "mexc_native" then
      if dataset == "candles_1m" then 90
      else if dataset == "funding" then 8 * 3600
      else if dataset == "oi" then 5 * 60
      else if dataset == "l2_top20" then 30
      else if dataset == "trades" then 90
      else if dataset == "liquidations" then 5 * 60
      else 600
    else if source == "coinglass_aggregate" then
      if dataset == "funding_agg" then 6 * 60
      else if dataset == "oi" then 6 * 60
      else if dataset == "liq" then 12 * 60
      else if dataset == "lsr" then 18 * 60
      else 600
    else if source == "coingecko" && dataset == "market" then 25 * 3600
    else 600
  }

  // A sample that is read at all; a value of zero or less means the gauge is not set yet.
  predicate Counts(s: Sample) { s.ours && s.labels.Some? && s.updated > 0.0 }

  predicate Stale(s: Sample, now: real) {
    Counts(s) && now - s.updated > (2 * ExpectedLag(s.labels.value.source, s.labels.value.dataset)) as real
  }

  // The keys over threshold.
  function StaleKeys(samples: seq<Sample>, now: real): set<FeedKey> {
    set i | 0 <= i < |samples| && Stale(samples[i], now) :: samples[i].labels.value
  }

  // The registry holds one sample per label combination.
  predicate Registry(samples: seq<Sample>) {
    forall i, j :: 0 <= i < j < |samples| && Counts(samples[i]) && Counts(samples[j]) ==>
      samples[i].labels != samples[j].labels
  }

  datatype Event = Degraded(key: FeedKey) | Recovered(key: FeedKey)

  function OfKey(es: seq<Event>, key: FeedKey): seq<Event> {
    if es == [] then []
    else OfKey(es[..|es| - 1], key) + if es[|es| - 1].key == key then [es[|es| - 1]] else []
  }

  // The events a key is due when the degraded set goes from one value to another.
  function Edge(key: FeedKey, before: set<FeedKey>, after: set<FeedKey>): seq<Event> {
    if key in after && key !in before then [Degraded(key)]
    else if key in before && key !in after then [Recovered(key)]
    else []
  }

  // Events that announce exactly the change of the degraded set, in any order of the keys.
  ghost predicate Edges(es: seq<Event>, before: set<FeedKey>, after: set<FeedKey>) {
    forall key :: OfKey(es, key) == Edge(key, before, after)
  }

  function AlertsOf(es: seq<Event>): seq<FeedKey> {
    if es == [] then []
    else AlertsOf(es[..|es| - 1]) + if es[|es| - 1].Degraded? then [es[|es| - 1].key] else []
  }

  lemma OfKeySnoc(es: seq<Event>, e: Event, key: FeedKey)
    ensures OfKey(es + [e], key) == if e.key == key then OfKey(es, key) + [e] else OfKey(es, key)
    ensures AlertsOf(es + [e]) == if e.Degraded? then AlertsOf(es) + [e.key] else AlertsOf(es)
  {
    assert (es + [e])[..|es|] == es;
  }

  lemma EdgesSnoc(es: seq<Event>, before: set<FeedKey>, mid: set<FeedKey>, e: Event)
    requires Edges(es, before, mid)
    requires if e.Degraded? then e.key !in before && e.key !in mid else e.key in before && e.key in mid
    ensures Edges(es + [e], before, if e.Degraded? then mid + {e.key} else mid - {e.key})
    ensures AlertsOf(es + [e]) == if e.Degraded? then AlertsOf(es) + [e.key] else AlertsOf(es)
  {
    hide OfKey, AlertsOf;
    OfKeySnoc(es, e, e.key);
    var after := if e.Degraded? then mid + {e.key} else mid - {e.key};
    forall key ensures OfKey(es + [e], key) == Edge(key, before, after) {
      OfKeySnoc(es, e, key);
      assert OfKey(es, key) == Edge(key, before, mid);
    }
  }

  // --- The check ------------------------------------------------------------------------

  lemma StaleSnoc(samples: seq<Sample>, i: nat, now: real)
    requires i < |samples| && Registry(samples)
    ensures StaleKeys(samples[..i + 1], now) ==
            if Stale(samples[i], now) then StaleKeys(samples[..i], now) + {samples[i].labels.value}
            else StaleKeys(samples[..i], now)
    ensures Stale(samples[i], now) ==> samples[i].labels.value !in StaleKeys(samples[..i], now)
  {
    hide ExpectedLag;
    var a, b := samples[..i], samples[..i + 1];
    assert forall j :: 0 <= j < i ==> a[j] == b[j];
    assert b[i] == samples[i];
  }

  lemma {:induction false} OfKeyMember(es: seq<Event>, e: Event)
    ensures e in es <==> e in OfKey(es, e.key)
  {
    if es == [] {
    } else {
      var front, last := es[..|es| - 1], es[|es| - 1];
      OfKeyMember(front, e);
      assert es == front + [last];
    }
  }

  lemma {:induction false} AlertMember(es: seq<Event>, key: FeedKey)
    ensures key in AlertsOf(es) <==> Degraded(key) in es
  {
    if es == [] {
    } else {
      var front, last := es[..|es| - 1], es[|es| - 1];
      AlertMember(front, key);
      assert es == front + [last];
    }
  }

  // What is announced: the keys that became stale, which are alerted too, and those that
  // stopped being so.
  lemma EdgesMean(es: seq<Event>, before: set<FeedKey>, after: set<FeedKey>)
    requires Edges(es, before, after)
    ensures forall key :: Degraded(key) in es <==> key in after && key !in before
    ensures forall key :: Recovered(key) in es <==> key in before && key !in after
    ensures forall key :: key in AlertsOf(es) <==> key in after && key !in before
  {
    hide OfKey, AlertsOf;
    forall key
      ensures Degraded(key) in es <==> key in after && key !in before
      ensures Recovered(key) in es <==> key in before && key !in after
      ensures key in AlertsOf(es) <==> key in after && key !in before
    {
      assert OfKey(es, key) == Edge(key, before, after);
      OfKeyMember(es, Degraded(key));
      OfKeyMember(es, Recovered(key));
      AlertMember(es, key);
    }
  }

  lemma StaleMeans(samples: seq<Sample>, now: real)
    ensures forall key :: key in StaleKeys(samples, now) <==> exists i ::
              && 0 <= i < |samples| && samples[i].ours && samples[i].labels == Some(key) && samples[i].updated > 0.0
              && now - samples[i].updated > (2 * ExpectedLag(key.source, key.dataset)) as real
  {
    hide ExpectedLag;
  }

  // The thresholds in seconds.
  lemma Thresholds(s: Sample, now: real)
    requires s.ours && s.labels.Some? && s.updated > 0.0
    ensures var feed := (s.labels.value.source, s.labels.value.dataset);
            var table := map[("mexc_native", "candles_1m") := 180, ("mexc_native", "funding") := 57600,
                             ("mexc_native", "oi") := 600, ("mexc_native", "l2_top20") := 60,
                             ("mexc_native", "trades") := 180, ("mexc_native", "liquidations") := 600,
                             ("coinglass_aggregate", "funding_agg") := 720, ("coinglass_aggregate", "oi") := 720,
                             ("coinglass_aggregate", "liq") := 1440, ("coinglass_aggregate", "lsr") := 2160,
                             ("coingecko", "market") := 180000];
            Stale(s, now) <==> now - s.updated > (if feed in table then table[feed] else 1200) as real
  {
  }

  class Alerter {
    var degraded: set<FeedKey>

    constructor ()
      ensures degraded == {}
    {
      degraded := {};
    }

    // freshness_check_job: the events in the order they are emitted, and the alerts sent.
    // The stored set ends up as the keys over threshold, and the events are its edges.
    method Check(samples: seq<Sample>, now: real) returns (events: seq<Event>, alerts: seq<FeedKey>)
      requires Registry(samples)
      modifies this
      ensures degraded == StaleKeys(samples, now)
      ensures Edges(events, old(degraded), degraded)
      ensures alerts == AlertsOf(events)
      // The same key by key.
      ensures forall key :: key in degraded <==> exists i ::
                && 0 <= i < |samples| && samples[i].ours && samples[i].labels == Some(key) && samples[i].updated > 0.0
                && now - samples[i].updated > (2 * ExpectedLag(key.source, key.dataset)) as real
      ensures forall key :: Degraded(key) in events <==> key in degraded && key !in old(degraded)
      ensures forall key :: Recovered(key) in events <==> key !in degraded && key in old(degraded)
      ensures forall key :: key in alerts <==> key in degraded && key !in old(degraded)
    {
      hide Edges, AlertsOf, StaleKeys, Registry;
      var current;
      events, alerts, current := Scan(samples, now);
      events := Recover(events, current);
      EdgesMean(events, degraded, current);
      StaleMeans(samples, now);
      degraded := current;
    }

    // The loop over the keys that are degraded no more.
    method Recover(scanned: seq<Event>, current: set<FeedKey>) returns (events: seq<Event>)
      requires Edges(scanned, degraded, degraded + current)
      ensures Edges(events, degraded, current) && AlertsOf(events) == AlertsOf(scanned)
    {
      hide Edges, AlertsOf;
      events := scanned;
      var rest := degraded - current;
      assert degraded + current == current + rest;
      while rest != {}
        invariant rest <= degraded - current
        invariant Edges(events, degraded, current + rest) && AlertsOf(events) == AlertsOf(scanned)
        decreases |rest|
      {
        var key :| key in rest;
        EdgesSnoc(events, degraded, current + rest, Recovered(key));
        assert (current + rest) - {key} == current + (rest - {key});
        events := events + [Recovered(key)];
        rest := rest - {key};
      }
      assert current + rest == current;
    }

    // The scan of the gauge samples.
    method Scan(samples: seq<Sample>, now: real)
      returns (events: seq<Event>, alerts: seq<FeedKey>, current: set<FeedKey>)
      requires Registry(samples)
      ensures current == StaleKeys(samples, now)
      ensures Edges(events, degraded, degraded + current)
      ensures alerts == AlertsOf(events)
    {
      events, alerts, current := [], [], {};
      var i := 0;
      while i < |samples|
        invariant 0 <= i <= |samples|
        invariant current == StaleKeys(samples[..i], now)
        invariant Edges(events, degraded, degraded + current)
        invariant alerts == AlertsOf(events)
      {
        StaleSnoc(samples, i, now);
        hide Edges, AlertsOf, StaleKeys, ExpectedLag;
        if Counts(samples[i]) {
          var key := samples[i].labels.value;
          var lag := now - samples[i].updated;
          var threshold := 2 * ExpectedLag(key.source, key.dataset);
          if lag > threshold as real {
            if key !in degraded {
              EdgesSnoc(events, degraded, degraded + current, Degraded(key));
              events := events + [Degraded(key)];
              alerts := alerts + [key];
            }
            assert degraded + current + {key} == degraded + (current + {key});
            assert key in degraded ==> degraded + (current + {key}) == degraded + current;
            current := current + {key};
          }
        }
        i := i + 1;
      }
      assert samples[..i] == samples;
    }
  }

  // --- What a recovery means ----------------------------------------------------------

  // Some counted sample of the key is within its threshold.
  predicate FreshSample(samples: seq<Sample>, now: real, key: FeedKey) {
    exists i :: 0 <= i < |samples| && Counts(samples[i]) && samples[i].labels == Some(key) && !Stale(samples[i], now)
  }

  // Some sample of the key counts at all.
  predicate Reported(samples: seq<Sample>, key: FeedKey) {
    exists i :: 0 <= i < |samples| && Counts(samples[i]) && samples[i].labels == Some(key)
  }

  // A check emits a recovery exactly for the keys that were degraded and are not over
  // threshold now; of these the feed is fresh exactly when its gauge is still reported.
  lemma RecoveredIff(samples: seq<Sample>, now: real, before: set<FeedKey>, es: seq<Event>, key: FeedKey)
    requires Registry(samples) && Edges(es, before, StaleKeys(samples, now))
    ensures Recovered(key) in es <==> key in before && key !in StaleKeys(samples, now)
    ensures Recovered(key) in es ==> (FreshSample(samples, now, key) <==> Reported(samples, key))
    ensures Recovered(key) in es && FreshSample(samples, now, key) <==> key in before && FreshSample(samples, now, key)
  {
    OfKeyMember(es, Recovered(key));
    assert OfKey(es, key) == Edge(key, before, StaleKeys(samples, now));
    hide OfKey, Edges, ExpectedLag;
    if i :| 0 <= i < |samples| && Counts(samples[i]) && samples[i].labels == Some(key) && !Stale(samples[i], now) {
      forall j | 0 <= j < |samples| && Stale(samples[j], now) ensures samples[j].labels.value != key {
        assert j < i || j == i || i < j;
      }
    }
  }

  // A gauge that drops to zero is announced as recovered although nothing is known of it.
  lemma ResetIsRecovered(key: FeedKey, now: real, es: seq<Event>)
    requires Edges(es, {key}, StaleKeys([Sample(true, Some(key), 0.0)], now))
    ensures Recovered(key) in es && !FreshSample([Sample(true, Some(key), 0.0)], now, key)
  {
    var samples := [Sample(true, Some(key), 0.0)];
    assert !Counts(samples[0]);
    RecoveredIff(samples, now, {key}, es, key);
  }

  // --- Runs of checks --------------------------------------------------------------------

  // What one check emitted and the degraded set it left.
  datatype Checked = Checked(events: seq<Event>, after: set<FeedKey>)

  function Before(hs: seq<Checked>, i: nat): set<FeedKey>
    requires i <= |hs|
  {
    if i == 0 then {} else hs[i - 1].after
  }

  // Checks one after the other, from a new process.
  ghost predicate History(hs: seq<Checked>) {
    forall i :: 0 <= i < |hs| ==> Edges(hs[i].events, Before(hs, i), hs[i].after)
  }

  function AllEvents(hs: seq<Checked>): seq<Event> {
    if hs == [] then [] else AllEvents(hs[..|hs| - 1]) + hs[|hs| - 1].events
  }

  predicate Alternating(es: seq<Event>, key: FeedKey) {
    forall i :: 0 <= i < |es| ==> es[i] == if i % 2 == 0 then Degraded(key) else Recovered(key)
  }

  // The checks that found a key stale which the check before had not.
  function Rises(hs: seq<Checked>, key: FeedKey): nat {
    if hs == [] then 0
    else
      var n := |hs| - 1;
      Rises(hs[..n], key) + if key in hs[n].after && key !in Before(hs, n) then 1 else 0
  }

  lemma OfKeyNone(es: seq<Event>, key: FeedKey)
    requires es == []
    ensures OfKey(es, key) == [] && AlertsOf(es) == []
  {
  }

  lemma {:induction false} OfKeyConcat(a: seq<Event>, b: seq<Event>, key: FeedKey)
    ensures OfKey(a + b, key) == OfKey(a, key) + OfKey(b, key)
    ensures AlertsOf(a + b) == AlertsOf(a) + AlertsOf(b)
    decreases |b|
  {
    hide OfKey, AlertsOf;
    if b == [] {
      assert a + b == a;
      OfKeyNone(b, key);
    } else {
      var front, e := b[..|b| - 1], b[|b| - 1];
      var ab := a + front;
      assert b == front + [e];
      assert a + b == ab + [e];
      OfKeyConcat(a, front, key);
      OfKeySnoc(ab, e, key);
      OfKeySnoc(front, e, key);
    }
  }

  // Per key, degraded and recovered events alternate, degraded first, over any run of
  // checks, and the last event tells whether the key is degraded now.
  lemma {:induction false} EventsAlternate(hs: seq<Checked>, key: FeedKey)
    requires History(hs)
    ensures var es := OfKey(AllEvents(hs), key);
            && Alternating(es, key)
            && (|es| % 2 == 1 <==> key in Before(hs, |hs|))
  {
    if hs == [] {
    } else {
      hide Edges, History, OfKey, Edge, Alternating, AlertsOf;
      var front, last := hs[..|hs| - 1], hs[|hs| - 1];
      FrontHistory(hs);
      EventsAlternate(front, key);
      OfKeyConcat(AllEvents(front), last.events, key);
      LastEdge(hs, key);
      AlternatingStep(OfKey(AllEvents(front), key), key, Before(hs, |front|), last.after);
    }
  }

  lemma AlternatingStep(es: seq<Event>, key: FeedKey, before: set<FeedKey>, after: set<FeedKey>)
    requires Alternating(es, key) && (|es| % 2 == 1 <==> key in before)
    ensures var all := es + Edge(key, before, after);
            Alternating(all, key) && (|all| % 2 == 1 <==> key in after)
  {
  }

  lemma LastEdge(hs: seq<Checked>, key: FeedKey)
    requires History(hs) && hs != []
    ensures var n := |hs| - 1; OfKey(hs[n].events, key) == Edge(key, Before(hs, n), hs[n].after)
  {
    hide OfKey;
    assert Edges(hs[|hs| - 1].events, Before(hs, |hs| - 1), hs[|hs| - 1].after);
  }

  lemma FrontHistory(hs: seq<Checked>)
    requires History(hs) && hs != []
    ensures var front := hs[..|hs| - 1]; History(front) && Before(front, |front|) == Before(hs, |front|)
  {
    hide Edges;
    var front := hs[..|hs| - 1];
    forall i | 0 <= i < |front| ensures Edges(front[i].events, Before(front, i), front[i].after) {
      assert front[i] == hs[i] && Before(front, i) == Before(hs, i);
    }
  }

  // A key is alerted once for every check that finds it newly stale, and never otherwise.
  lemma {:induction false} AlertsAreRises(hs: seq<Checked>, key: FeedKey)
    requires History(hs)
    ensures multiset(AlertsOf(AllEvents(hs)))[key] == Rises(hs, key)
  {
    if hs == [] {
    } else {
      var front, last := hs[..|hs| - 1], hs[|hs| - 1];
      FrontHistory(hs);
      AlertsAreRises(front, key);
      OfKeyConcat(AllEvents(front), last.events, key);
      LastEdge(hs, key);
      AlertsOfKey(last.events, key);
      hide Edges, History, OfKey, AlertsOf;
      DegradedCount(key, Before(hs, |front|), last.after);
    }
  }

  function CountDegraded(es: seq<Event>): nat {
    if es == [] then 0 else CountDegraded(es[..|es| - 1]) + if es[|es| - 1].Degraded? then 1 else 0
  }

  lemma {:induction false} AlertsOfKey(es: seq<Event>, key: FeedKey)
    ensures multiset(AlertsOf(es))[key] == CountDegraded(OfKey(es, key))
  {
    if es == [] {
    } else {
      var front, e := es[..|es| - 1], es[|es| - 1];
      AlertsOfKey(front, key);
      assert front + [e] == es;
      OfKeySnoc(front, e, key);
      CountSnoc(OfKey(front, key), e);
      hide OfKey, AlertsOf, CountDegraded;
    }
  }

  lemma CountSnoc(es: seq<Event>, e: Event)
    ensures CountDegraded(es + [e]) == CountDegraded(es) + if e.Degraded? then 1 else 0
  {
    assert (es + [e])[..|es|] == es;
  }

  lemma DegradedCount(key: FeedKey, before: set<FeedKey>, after: set<FeedKey>)
    ensures CountDegraded(Edge(key, before, after)) == if key in after && key !in before then 1 else 0
  {
    assert [Degraded(key)][..0] == [] && [Recovered(key)][..0] == [];
  }

  // The job called over and over, one call after the other.
  method RunChecks(rounds: seq<(seq<Sample>, real)>) returns (hs: seq<Checked>, alerts: seq<FeedKey>)
    requires forall i :: 0 <= i < |rounds| ==> Registry(rounds[i].0)
    ensures |hs| == |rounds| && History(hs) && alerts == AlertsOf(AllEvents(hs))
    ensures forall i :: 0 <= i < |rounds| ==> hs[i].after == StaleKeys(rounds[i].0, rounds[i].1)
  {
    hide Edges, StaleKeys, Registry, AlertsOf;
    var alerter := new Alerter();
    hs, alerts := [], [];
    NoEvents();
    hide History, AllEvents;
    var i := 0;
    while i < |rounds|
      invariant 0 <= i <= |rounds| && |hs| == i && fresh(alerter)
      invariant History(hs) && alerts == AlertsOf(AllEvents(hs)) && alerter.degraded == Before(hs, |hs|)
      invariant forall j :: 0 <= j < i ==> hs[j].after == StaleKeys(rounds[j].0, rounds[j].1)
    {
      var events, sent := alerter.Check(rounds[i].0, rounds[i].1);
      HistorySnoc(hs, Checked(events, alerter.degraded));
      hs := hs + [Checked(events, alerter.degraded)];
      alerts := alerts + sent;
      i := i + 1;
    }
  }

  lemma NoEvents()
    ensures History([]) && AlertsOf(AllEvents([])) == []
  {
  }

  lemma HistorySnoc(hs: seq<Checked>, h: Checked)
    requires History(hs) && Edges(h.events, Before(hs, |hs|), h.after)
    ensures History(hs + [h]) && AlertsOf(AllEvents(hs + [h])) == AlertsOf(AllEvents(hs)) + AlertsOf(h.events)
  {
    var all := hs + [h];
    assert all[..|hs|] == hs;
    OfKeyConcat(AllEvents(hs), h.events, FeedKey("", "", ""));
    hide Edges, AlertsOf, OfKey;
    forall i | 0 <= i < |all| ensures Edges(all[i].events, Before(all, i), all[i].after) {
      assert Before(all, i) == Before(hs, i);
      assert i < |hs| ==> all[i] == hs[i];
    }
  }
}
