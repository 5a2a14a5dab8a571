// What a run of daily dumps leaves in the bucket when any of its sweeps may raise half way,
// and what sweeping again does.
module RetentionRuns {
  import opened Store
  import opened DumpKeys
  import opened Retention
  import opened Sets

  // --- Sweeping again finishes the sweep ------------------------------------------------

  lemma {:induction false} ListingExists(names: set<string>)
    ensures exists s :: Descending(s) && Entries(s) == names
  {
    if names == {} {
      assert Entries([]) == names;
    } else {
      var k := Newest(names);
      ListingExists(names - {k});
      var s :| Descending(s) && Entries(s) == names - {k};
      var r := [k] + s;
      hide Less;
      forall j | 0 <= j < |s| ensures Less(s[j], k) {
        assert s[j] in Entries(s);
      }
      assert forall j :: 0 < j < |r| ==> r[j] == s[j - 1];
      assert Descending(r);
      forall x ensures x in Entries(r) <==> x in names {
        assert x in Entries(r) <==> x == k || x in Entries(s);
      }
    }
  }

  lemma KeptSize(names: set<string>, n: nat)
    ensures |Kept(names, n)| == if n < |names| then n else |names|
  {
    ListingExists(names);
    var s :| Descending(s) && Entries(s) == names;
    KeptCount(s, n);
    EntriesCount(s);
  }

  // Everything kept lies above everything cut.
  lemma KeptAboveCut(names: set<string>, n: nat, kept: string, cut: string)
    requires kept in Kept(names, n) && cut in names && cut !in Kept(names, n)
    ensures Less(cut, kept)
  {
    LessTotal(kept, cut);
    if Less(kept, cut) {
      AboveShrinks(names, kept, cut);
    }
  }

  // Names that contain what is kept of others, and besides only names below all of that,
  // keep the same when what is kept is already as much as may be.
  lemma KeptOf(names: set<string>, ys: set<string>, n: nat)
    requires Kept(names, n) <= ys
    requires forall y, z :: y in ys && y !in Kept(names, n) && z in Kept(names, n) ==> Less(y, z)
    requires ys != Kept(names, n) ==> |Kept(names, n)| == n
    ensures Kept(ys, n) == Kept(names, n)
  {
    var kept := Kept(names, n);
    forall z | z in kept ensures |Above(ys, z)| < n {
      forall y | y in Above(ys, z) ensures y in Above(names, z) {
        if y !in kept {
          LessTransitive(z, y, z);
          LessIrreflexive(z);
        }
      }
      SubsetSize(Above(ys, z), Above(names, z));
    }
    forall y | y in ys && y !in kept ensures |Above(ys, y)| >= n {
      assert kept <= Above(ys, y);
      SubsetSize(kept, Above(ys, y));
    }
  }

  // What a prune to n names may have left of a tier, wherever it stopped.
  ghost predicate Partial(y: Objects, x: Objects, n: nat) {
    Kept(x.Keys, n) <= y.Keys <= x.Keys && forall k :: k in y ==> y[k] == x[k]
  }

  lemma PartialKept(y: Objects, x: Objects, n: nat)
    requires Partial(y, x, n)
    ensures Kept(y.Keys, n) == Kept(x.Keys, n)
  {
    hide Less, Above;
    KeptSize(x.Keys, n);
    forall k, z | k in y && k !in Kept(x.Keys, n) && z in Kept(x.Keys, n) ensures Less(k, z) {
      KeptAboveCut(x.Keys, n, z, k);
    }
    if |x| <= n {
      SubsetSize(Kept(x.Keys, n), x.Keys);
    }
    hide Kept;
    KeptOf(x.Keys, y.Keys, n);
  }

  lemma TrimPartial(y: Objects, x: Objects, n: nat, limit: Option<nat>)
    requires Partial(y, x, n)
    ensures Partial(Trim(y, n, limit), x, n)
    ensures Trim(y, n, None) == Trim(x, n, None)
  {
    PartialKept(y, x, n);
    SparedAll(y.Keys, n, limit);
    SparedAll(x.Keys, n, limit);
    hide Kept, Spared;
  }

  lemma SparedAll(names: set<string>, n: nat, limit: Option<nat>)
    ensures Spared(names, n, None) == Kept(names, n) <= Spared(names, n, limit) <= names
  {
  }

  lemma WholeIsPartial(x: Objects, n: nat)
    ensures Partial(x, x, n)
  {
  }

  // Promoting once more, after a prune that may have stopped anywhere, and pruning to the end.
  lemma PromoteAgain(x: Objects, due: bool, target: string, dump: Dump, n: nat, y: Objects)
    requires Partial(y, Promote(x, due, target, dump), n)
    ensures Trim(Promote(y, due, target, dump), n, None) == Trim(Promote(x, due, target, dump), n, None)
  {
    var x1 := Promote(x, due, target, dump);
    if due && !Listed(y, target) {
      PrefixOfItself(target);
      assert Listed(x1, target);
      var cut :| cut in x1 && StartsWith(cut, target);
      PrefixNotAbove(target, cut);
      assert cut !in y && target !in y;
      CutOnceMore(x1, y, n, target, dump, cut);
    } else {
      TrimPartial(y, x1, n, None);
    }
  }

  // A name at or below one that was cut is cut again.
  lemma CutOnceMore(x: Objects, y: Objects, n: nat, low: string, dump: Dump, cut: string)
    requires Partial(y, x, n) && low !in y && cut in x && cut !in y && (low == cut || Less(low, cut))
    ensures Trim(y[low := dump], n, None) == Trim(x, n, None)
  {
    var kept, ys := Kept(x.Keys, n), y.Keys + {low};
    forall k, z | k in ys && k !in kept && z in kept ensures Less(k, z) {
      var c := if k == low then cut else k;
      KeptAboveCut(x.Keys, n, z, c);
      if k == low != cut {
        LessTransitive(low, cut, z);
      }
    }
    hide Less, Above;
    KeptSize(x.Keys, n);
    KeptStrict(x.Keys, n, cut);
    KeptOf(x.Keys, ys, n);
    assert y[low := dump].Keys == ys;
    SparedAll(ys, n, None);
    SparedAll(x.Keys, n, None);
    hide Kept, Spared;
  }

  lemma KeptStrict(names: set<string>, n: nat, cut: string)
    requires cut in names && cut !in Kept(names, n)
    ensures |Kept(names, n)| == n
  {
    KeptSize(names, n);
    SubsetSize(Kept(names, n), names);
  }

  lemma PrefixOfItself(k: string)
    ensures StartsWith(k, k)
  {
  }

  lemma SameNewest(m: Objects, r: Objects, n: nat)
    requires n > 0 && Tier(m, DAILY) != map[] && Partial(Tier(r, DAILY), Tier(m, DAILY), n)
    ensures Tier(r, DAILY) != map[] && Newest(Tier(r, DAILY).Keys) == Newest(Tier(m, DAILY).Keys)
    ensures var k := Newest(Tier(m, DAILY).Keys); r[k] == m[k]
  {
    var names := Tier(m, DAILY).Keys;
    assert names != {};
    var k := Newest(names);
    forall j | j in names ensures !Less(k, j) {
      LessIrreflexive(k);
      if j != k && Less(k, j) {
        LessTransitive(k, j, k);
      }
    }
    assert Above(names, k) == {};
    assert k in Tier(r, DAILY);
    assert Tier(r, DAILY)[k] == Tier(m, DAILY)[k];
    assert IsNewest(Tier(r, DAILY).Keys, k);
    NewestUnique(Tier(r, DAILY).Keys, k, Newest(Tier(r, DAILY).Keys));
  }

  lemma ResumeTier(x: Objects, due: bool, passed: bool, target: string, dump: Dump, n: nat, limit: Option<nat>)
    requires !passed ==> limit == Some(0)
    ensures var y := Trim(Promote(x, due && passed, target, dump), n, limit);
            Trim(Promote(y, due, target, dump), n, None) == Trim(Promote(x, due, target, dump), n, None)
  {
    var x1 := Promote(x, due && passed, target, dump);
    if due && !passed {
      assert Trim(x, n, limit) == x;
    } else {
      WholeIsPartial(x1, n);
      TrimPartial(x1, x1, n, limit);
      PromoteAgain(x, due, target, dump, n, Trim(x1, n, limit));
    }
  }

  lemma ResumeAnnual(x: Objects, due: bool, passed: bool, target: string, dump: Dump)
    ensures Promote(Promote(x, due && passed, target, dump), due, target, dump) == Promote(x, due, target, dump)
  {
    PrefixOfItself(target);
  }

  // In any bucket whatsoever, and wherever a sweep raised, sweeping again leaves what the
  // sweep would have left had it not raised.
  lemma SweepResumes(m: Objects, fault: Option<Fault>)
    ensures Sweep(Sweep(m, fault), None) == Sweep(m, None)
  {
    var time := SweepTime(m);
    if time.Some? {
      var t, r := time.value, Sweep(m, fault);
      var names := Tier(m, DAILY).Keys;
      assert names != {} && time == ParseKey(Newest(names));
      ParsedIsValid(Newest(names));
      SweepByTier(m, t, fault);
      assert Tier(m, DAILY) != map[];
      WholeIsPartial(Tier(m, DAILY), KEEP_DAILY);
      TrimPartial(Tier(m, DAILY), Tier(m, DAILY), KEEP_DAILY, Limit(fault, 0));
      SameNewest(m, r, KEEP_DAILY);
      assert SweepTime(r) == time;
      ResumeByTier(m, r, t, fault);
    }
  }

  lemma ResumeByTier(m: Objects, r: Objects, t: DateTime, fault: Option<Fault>)
    requires Valid(t) && SweepTime(m) == Some(t) && SweepTime(r) == Some(t) && r == Sweep(m, fault)
    requires m[Newest(Tier(m, DAILY).Keys)] == r[Newest(Tier(r, DAILY).Keys)]
    requires Partial(Tier(r, DAILY), Tier(m, DAILY), KEEP_DAILY)
    ensures Sweep(r, None) == Sweep(m, None)
  {
    var dump := m[Newest(Tier(m, DAILY).Keys)];
    hide Sweep, SweepTime, Tier, Untiered, Promote, Trim, IsNewest, KeyFor, Valid, Monday, FirstOfMonth, NewYear;
    SweepByTier(m, t, fault);
    SweepByTier(m, t, None);
    SweepByTier(r, t, None);
    TrimPartial(Tier(r, DAILY), Tier(m, DAILY), KEEP_DAILY, None);
    ResumeTier(Tier(m, WEEKLY), Monday(t), Passes(fault, 1), KeyFor(WEEKLY, t), dump, KEEP_WEEKLY, Limit(fault, 1));
    ResumeTier(Tier(m, MONTHLY), FirstOfMonth(t), Passes(fault, 2), KeyFor(MONTHLY, t), dump, KEEP_MONTHLY, Limit(fault, 2));
    ResumeAnnual(Tier(m, ANNUAL), NewYear(t), Passes(fault, 3), KeyFor(ANNUAL, t), dump);
    TiersDecide(Sweep(r, None), Sweep(m, None));
  }

  // In particular a second sweep changes nothing.
  lemma SweepTwice(m: Objects)
    ensures Sweep(Sweep(m, None), None) == Sweep(m, None)
  {
    SweepResumes(m, None);
  }

  // In any bucket, the copy a sweep makes outlives that sweep exactly when fewer names of
  // its tier than the tier keeps are above it.
  lemma FreshCopySurvivesIff(m: Objects, t: DateTime)
    requires SweepTime(m) == Some(t)
    ensures Valid(t)
    ensures Monday(t) && !Listed(Tier(m, WEEKLY), KeyFor(WEEKLY, t)) ==>
              (KeyFor(WEEKLY, t) in Sweep(m, None) <==> |Above(Tier(m, WEEKLY).Keys, KeyFor(WEEKLY, t))| < 4)
    ensures FirstOfMonth(t) && !Listed(Tier(m, MONTHLY), KeyFor(MONTHLY, t)) ==>
              (KeyFor(MONTHLY, t) in Sweep(m, None) <==> |Above(Tier(m, MONTHLY).Keys, KeyFor(MONTHLY, t))| < 6)
  {
    hide Monday, FirstOfMonth, KeyFor, Sweep, Trim, Untiered, Above, Listed, ParseKey, Valid;
    ParsedIsValid(Newest(Tier(m, DAILY).Keys));
    SweepByTier(m, t, None);
    hide SweepTime;
    var dump := m[Newest(Tier(m, DAILY).Keys)];
    FreshInTier(m, Tier(m, WEEKLY), WEEKLY, t, dump, KEEP_WEEKLY);
    FreshInTier(m, Tier(m, MONTHLY), MONTHLY, t, dump, KEEP_MONTHLY);
    hide Tier;
  }

  lemma FreshInTier(m: Objects, x: Objects, p: string, t: DateTime, dump: Dump, n: nat)
    requires Valid(t)
    ensures var k := KeyFor(p, t);
            && (k in Sweep(m, None) <==> k in Tier(Sweep(m, None), p))
            && (k in Trim(x[k := dump], n, None) <==> |Above(x.Keys, k)| < n)
  {
    assert StartsWith(KeyFor(p, t), p);
    hide KeyFor, Sweep, Valid;
    FreshInTrim(x, KeyFor(p, t), dump, n);
  }

  lemma FreshInTrim(x: Objects, target: string, dump: Dump, n: nat)
    ensures target in Trim(x[target := dump], n, None) <==> |Above(x.Keys, target)| < n
  {
    LessIrreflexive(target);
    assert Above(x[target := dump].Keys, target) == Above(x.Keys, target);
  }


  // --- When the sweep does nothing ---------------------------------------------------------

  predicate WithinBounds(m: Objects) {
    && |Tier(m, "daily/")| <= 7 && |Tier(m, "weekly/")| <= 4 && |Tier(m, "monthly/")| <= 6
  }

  lemma TrimSize(x: Objects, n: nat)
    ensures |Trim(x, n, None)| <= n
  {
    SparedAll(x.Keys, n, None);
    KeptSize(x.Keys, n);
    hide Kept, Spared;
    assert Trim(x, n, None).Keys == Kept(x.Keys, n);
  }

  // A sweep leaves every tier within its bound exactly when there is a newest daily dump
  // whose name parses, or the tiers were within their bounds already.
  lemma BoundedAfterSweepIff(m: Objects)
    ensures WithinBounds(Sweep(m, None)) <==> SweepTime(m).Some? || WithinBounds(m)
  {
    hide WithinBounds, Tier, Promoted, Pruned;
    if SweepTime(m).Some? {
      ParsedIsValid(Newest(Tier(m, DAILY).Keys));
      BoundedSweep(m, SweepTime(m).value);
    }
  }

  lemma BoundedSweep(m: Objects, t: DateTime)
    requires SweepTime(m) == Some(t) && Valid(t)
    ensures WithinBounds(Sweep(m, None))
  {
    var dump := m[Newest(Tier(m, DAILY).Keys)];
    hide Tier, Sweep, Trim, SweepTime, Promote, KeyFor, Valid, Untiered, Monday, FirstOfMonth, NewYear;
    SweepByTier(m, t, None);
    TrimSize(Tier(m, DAILY), KEEP_DAILY);
    TrimSize(Promote(Tier(m, WEEKLY), Monday(t), KeyFor(WEEKLY, t), dump), KEEP_WEEKLY);
    TrimSize(Promote(Tier(m, MONTHLY), FirstOfMonth(t), KeyFor(MONTHLY, t), dump), KEEP_MONTHLY);
  }

  // One name that does not parse and sorts above the dumps to come stops the sweep for good:
  // nothing is deleted from then on.
  lemma {:induction false} StuckForGood(m: Objects, stuck: string, bs: seq<Backup>)
    requires Times(bs) && stuck in m && StartsWith(stuck, DAILY) && ParseKey(stuck).None?
    requires IsNewest(Tier(m, DAILY).Keys, stuck)
    requires forall i :: 0 <= i < |bs| ==> Less(KeyFor(DAILY, bs[i].time), stuck)
    ensures IsNewest(Tier(AfterFrom(m, bs), DAILY).Keys, stuck)
    ensures m.Keys <= AfterFrom(m, bs).Keys
    ensures forall i :: 0 <= i < |bs| ==> KeyFor(DAILY, bs[i].time) in AfterFrom(m, bs)
  {
    hide Less, ParseKey, KeyFor, Valid, Sweep, IsNewest, Tier;
    if bs == [] {
    } else {
      var front, b := bs[..|bs| - 1], bs[|bs| - 1];
      assert forall i :: 0 <= i < |front| ==> front[i] == bs[i];
      StuckForGood(m, stuck, front);
      StuckStep(AfterFrom(m, front), stuck, b);
    }
  }

  lemma StuckStep(m: Objects, stuck: string, b: Backup)
    requires Valid(b.time) && StartsWith(stuck, DAILY) && ParseKey(stuck).None?
    requires IsNewest(Tier(m, DAILY).Keys, stuck) && Less(KeyFor(DAILY, b.time), stuck)
    ensures var p := m[KeyFor(DAILY, b.time) := b.dump];
            Sweep(p, b.fault) == p && IsNewest(Tier(p, DAILY).Keys, stuck)
  {
    hide Less, ParseKey, KeyFor, Valid, Pruned, Promoted;
    var p := m[KeyFor(DAILY, b.time) := b.dump];
    assert IsNewest(Tier(p, DAILY).Keys, stuck);
    NewestUnique(Tier(p, DAILY).Keys, stuck, Newest(Tier(p, DAILY).Keys));
  }

  // --- Runs of daily dumps -------------------------------------------------------------

  // A dump, and where the sweep after it raised if it did.
  datatype Backup = Backup(time: DateTime, dump: Dump, fault: Option<Fault>)

  // Each dump is put under daily/ and swept before the next.
  ghost function AfterFrom(m: Objects, bs: seq<Backup>): Objects
    requires Times(bs)
  {
    if bs == [] then m
    else
      var b := bs[|bs| - 1];
      Sweep(AfterFrom(m, bs[..|bs| - 1])[KeyFor(DAILY, b.time) := b.dump], b.fault)
  }

  ghost function After(bs: seq<Backup>): Objects
    requires Times(bs)
  {
    AfterFrom(map[], bs)
  }

  predicate Times(bs: seq<Backup>) { forall i :: 0 <= i < |bs| ==> Valid(bs[i].time) }

  predicate Increasing(bs: seq<Backup>) {
    Times(bs) && forall i, j :: 0 <= i < j < |bs| ==> Earlier(bs[i].time, bs[j].time)
  }

  // The backups of a run that meet a condition, in order.
  function Select(bs: seq<Backup>, due: Backup -> bool): seq<Backup> {
    if bs == [] then []
    else
      var b := bs[|bs| - 1];
      Select(bs[..|bs| - 1], due) + if due(b) then [b] else []
  }

  // The dumps that are due for a tier and whose sweep got as far as copying them there.
  predicate ToWeekly(b: Backup) { Monday(b.time) && Passes(b.fault, 1) }

  predicate ToMonthly(b: Backup) { FirstOfMonth(b.time) && Passes(b.fault, 2) }

  predicate ToAnnual(b: Backup) { NewYear(b.time) && Passes(b.fault, 3) }

  function LastOf(bs: seq<Backup>, n: nat): seq<Backup> {
    if |bs| <= n then bs else bs[|bs| - n..]
  }

  // Exactly these backups under one prefix.
  function Stored(prefix: string, bs: seq<Backup>): Objects
    requires Times(bs)
  {
    if bs == [] then map[]
    else
      var b := bs[|bs| - 1];
      Stored(prefix, bs[..|bs| - 1])[KeyFor(prefix, b.time) := b.dump]
  }

  lemma {:induction false} StoredMeans(p: string, bs: seq<Backup>, k: string)
    requires Increasing(bs)
    ensures k in Stored(p, bs) <==> exists i :: 0 <= i < |bs| && KeyFor(p, bs[i].time) == k
    ensures forall i :: 0 <= i < |bs| && KeyFor(p, bs[i].time) == k ==> Stored(p, bs)[k] == bs[i].dump
  {
    hide KeyFor, Earlier;
    if bs == [] {
    } else {
      var front, b := bs[..|bs| - 1], bs[|bs| - 1];
      StoredMeans(p, front, k);
      assert forall i :: 0 <= i < |front| ==> front[i] == bs[i];
      forall i | 0 <= i < |front| ensures KeyFor(p, bs[i].time) != KeyFor(p, b.time) {
        KeyOrder(p, bs[i].time, b.time);
        EarlierStrict(bs[i].time);
      }
      hide Stored, Less;
    }
  }

  lemma EarlierStrict(t: DateTime)
    ensures !Earlier(t, t)
  {
  }

  function NamesDescending(p: string, bs: seq<Backup>): (s: seq<string>)
    requires Times(bs)
    ensures |s| == |bs|
  {
    if bs == [] then []
    else [KeyFor(p, bs[|bs| - 1].time)] + NamesDescending(p, bs[..|bs| - 1])
  }

  lemma {:induction false} NamesSorted(p: string, bs: seq<Backup>)
    requires Increasing(bs)
    ensures Descending(NamesDescending(p, bs))
    ensures Entries(NamesDescending(p, bs)) == Stored(p, bs).Keys
  {
    hide KeyFor, Earlier, Less, Valid;
    if bs == [] {
    } else {
      var front, b := bs[..|bs| - 1], bs[|bs| - 1];
      NamesSorted(p, front);
      var top, s := KeyFor(p, b.time), NamesDescending(p, front);
      forall k | k in s ensures Less(k, top) {
        assert k in Entries(s);
        StoredMeans(p, front, k);
        var i :| 0 <= i < |front| && KeyFor(p, front[i].time) == k;
        KeyOrder(p, bs[i].time, b.time);
      }
      DescendingCons(top, s);
    }
  }

  lemma DescendingCons(top: string, s: seq<string>)
    requires Descending(s) && forall k :: k in s ==> Less(k, top)
    ensures Descending([top] + s) && Entries([top] + s) == {top} + Entries(s)
  {
    hide Less;
  }

  lemma SuffixIncreasing(bs: seq<Backup>, k: nat)
    requires Increasing(bs) && k <= |bs|
    ensures Increasing(bs[k..])
  {
    hide Earlier, Valid;
    var late := bs[k..];
    forall i, j | 0 <= i < j < |late| ensures Earlier(late[i].time, late[j].time) {
      assert late[i] == bs[k + i] && late[j] == bs[k + j];
    }
  }

  lemma NewestIncreasing(bs: seq<Backup>, n: nat)
    requires Increasing(bs)
    ensures Increasing(LastOf(bs, n))
  {
    if n < |bs| {
      SuffixIncreasing(bs, |bs| - n);
    }
    hide Increasing;
  }

  // Cutting a tier down to its n newest names keeps the n newest backups.
  lemma TrimStored(p: string, bs: seq<Backup>, n: nat)
    requires Increasing(bs)
    ensures Increasing(LastOf(bs, n))
    ensures Trim(Stored(p, bs), n, None) == Stored(p, LastOf(bs, n))
  {
    NewestIncreasing(bs, n);
    var late := LastOf(bs, n);
    KeptStored(p, bs, n);
    forall k | k in Stored(p, late) ensures k in Stored(p, bs) && Stored(p, late)[k] == Stored(p, bs)[k] {
      SuffixStored(p, bs, n, k);
    }
    hide Stored, Increasing, Kept;
  }

  lemma KeptStored(p: string, bs: seq<Backup>, n: nat)
    requires Increasing(bs)
    ensures Increasing(LastOf(bs, n))
    ensures Kept(Stored(p, bs).Keys, n) == Stored(p, LastOf(bs, n)).Keys
  {
    hide Valid, Earlier, Stored, NamesDescending, KeyFor, Descending, Kept, Entries;
    NewestIncreasing(bs, n);
    var late := LastOf(bs, n);
    NamesSorted(p, bs);
    NamesSorted(p, late);
    hide Increasing, Times;
    KeptCount(NamesDescending(p, bs), n);
    NamesOfNewest(p, bs, |late|);
    assert late == bs[|bs| - |late|..];
  }

  lemma {:induction false} NamesOfNewest(p: string, bs: seq<Backup>, m: nat)
    requires Times(bs) && m <= |bs|
    ensures Times(bs[|bs| - m..]) && NamesDescending(p, bs[|bs| - m..]) == NamesDescending(p, bs)[..m]
  {
    hide KeyFor, Valid;
    if m == 0 {
    } else {
      var front := bs[..|bs| - 1];
      NamesOfNewest(p, front, m - 1);
      var late := bs[|bs| - m..];
      assert late[..m - 1] == front[|front| - (m - 1)..];
    }
  }

  lemma SuffixStored(p: string, bs: seq<Backup>, n: nat, k: string)
    requires Increasing(bs) && Increasing(LastOf(bs, n))
    requires k in Stored(p, LastOf(bs, n))
    ensures k in Stored(p, bs) && Stored(p, LastOf(bs, n))[k] == Stored(p, bs)[k]
  {
    hide Stored, Earlier, KeyFor, Valid;
    var late := LastOf(bs, n);
    StoredMeans(p, late, k);
    StoredMeans(p, bs, k);
    hide Increasing;
    var i :| 0 <= i < |late| && KeyFor(p, late[i].time) == k;
    assert bs[|bs| - |late| + i] == late[i];
  }

  // --- One step of the run, tier by tier ---------------------------------------------

  // A later backup is not in the tier yet, not even under a longer name.
  lemma LaterNotListed(p: string, bs: seq<Backup>, b: Backup)
    requires Increasing(bs + [b])
    ensures Increasing(bs) && Valid(b.time) && !Listed(Stored(p, bs), KeyFor(p, b.time))
  {
    FrontIncreasing(bs, b);
    assert forall i :: 0 <= i < |bs| ==> (bs + [b])[i] == bs[i];
    assert (bs + [b])[|bs|] == b;
    hide Earlier, Stored, Valid;
    var target := KeyFor(p, b.time);
    if Listed(Stored(p, bs), target) {
      var k :| k in Stored(p, bs) && StartsWith(k, target);
      StoredMeans(p, bs, k);
      var i :| 0 <= i < |bs| && KeyFor(p, bs[i].time) == k;
      KeyOrder(p, bs[i].time, b.time);
      EarlierStrict(b.time);
      SameLength(p, bs[i].time, b.time);
      SamePrefix(target, k);
    }
  }

  lemma SamePrefix(p: string, k: string)
    requires StartsWith(k, p) && |k| == |p|
    ensures k == p
  {
  }

  lemma SameLength(p: string, a: DateTime, b: DateTime)
    requires Valid(a) && Valid(b)
    ensures |KeyFor(p, a)| == |KeyFor(p, b)|
  {
  }

  lemma StoredSnoc(p: string, bs: seq<Backup>, b: Backup)
    requires Times(bs + [b])
    ensures Times(bs) && Valid(b.time) && Stored(p, bs + [b]) == Stored(p, bs)[KeyFor(p, b.time) := b.dump]
  {
    assert forall i :: 0 <= i < |bs| ==> (bs + [b])[i] == bs[i];
    assert (bs + [b])[|bs|] == b && (bs + [b])[..|bs|] == bs;
  }

  // all holds every backup copied to a tier so far, the tier is what prunes have left of
  // them, and b is the next backup of the run.
  lemma TierStep(p: string, y: Objects, all: seq<Backup>, b: Backup, due: bool, n: nat, limit: Option<nat>)
    requires Increasing(all + [b]) && n > 0
    requires Increasing(all) && Partial(y, Stored(p, all), n)
    ensures Valid(b.time)
    ensures var next, r := if due then all + [b] else all, Trim(Promote(y, due, KeyFor(p, b.time), b.dump), n, limit);
            && Increasing(next) && Partial(r, Stored(p, next), n)
            && (limit.None? ==> r == Trim(Stored(p, next), n, None))
  {
    hide Earlier, KeyFor, Kept;
    LaterNotListed(p, all, b);
    if due {
      StoredSnoc(p, all, b);
      hide Stored;
      assert !Listed(y, KeyFor(p, b.time));
      hide Listed;
      PutPartial(y, Stored(p, all), n, KeyFor(p, b.time), b.dump);
    }
    var next := if due then all + [b] else all;
    hide Stored, Increasing, Partial;
    TrimPartial(Promote(y, due, KeyFor(p, b.time), b.dump), Stored(p, next), n, limit);
  }

  lemma PutPartial(y: Objects, x: Objects, n: nat, k: string, dump: Dump)
    requires Partial(y, x, n)
    ensures Partial(y[k := dump], x[k := dump], n)
  {
    forall j | j in Kept(x[k := dump].Keys, n) && j != k ensures j in Kept(x.Keys, n) {
      SubsetSize(Above(x.Keys, j), Above(x[k := dump].Keys, j));
    }
  }

  lemma FrontIncreasing(bs: seq<Backup>, b: Backup)
    requires Increasing(bs + [b])
    ensures Increasing(bs) && Valid(b.time)
  {
    hide Earlier, Valid;
    assert forall i :: 0 <= i < |bs| ==> (bs + [b])[i] == bs[i];
    assert (bs + [b])[|bs|] == b;
  }

  lemma AnnualStep(all: seq<Backup>, b: Backup, due: bool)
    requires Increasing(all + [b])
    ensures Valid(b.time) && Increasing(all)
    ensures var next := if due then all + [b] else all;
            Promote(Stored(ANNUAL, all), due, KeyFor(ANNUAL, b.time), b.dump) == Stored(ANNUAL, next)
  {
    LaterNotListed(ANNUAL, all, b);
    hide Earlier, KeyFor, Listed;
    if due {
      StoredSnoc(ANNUAL, all, b);
    }
    hide Stored;
  }

  lemma PutDaily(m: Objects, t: DateTime, dump: Dump)
    requires Valid(t)
    ensures var r := m[KeyFor(DAILY, t) := dump];
            && Tier(r, DAILY) == Tier(m, DAILY)[KeyFor(DAILY, t) := dump]
            && Tier(r, WEEKLY) == Tier(m, WEEKLY) && Tier(r, MONTHLY) == Tier(m, MONTHLY)
            && Tier(r, ANNUAL) == Tier(m, ANNUAL) && Untiered(r) == Untiered(m)
  {
    var k := KeyFor(DAILY, t);
    assert StartsWith(k, DAILY) && k[0] == 'd';
    hide KeyFor;
    assert !StartsWith(k, WEEKLY) && !StartsWith(k, MONTHLY) && !StartsWith(k, ANNUAL);
    hide StartsWith;
  }

  // The dump just put is the newest one, and its name tells its time.
  lemma PutIsNewest(m: Objects, all: seq<Backup>, b: Backup)
    requires Increasing(all + [b]) && Increasing(all)
    requires Tier(m, DAILY).Keys <= Stored(DAILY, all).Keys
    ensures Valid(b.time)
    ensures var k := KeyFor(DAILY, b.time);
            var p := m[k := b.dump];
            SweepTime(p) == Some(b.time) && Newest(Tier(p, DAILY).Keys) == k
  {
    FrontIncreasing(all, b);
    PutDaily(m, b.time, b.dump);
    hide Earlier, Stored, Less, Valid, ParseKey;
    var k := KeyFor(DAILY, b.time);
    var p := m[k := b.dump];
    var names := Tier(p, DAILY).Keys;
    forall j | j in names ensures j == k || Less(j, k) {
      if j != k {
        StoredMeans(DAILY, all, j);
        var i :| 0 <= i < |all| && KeyFor(DAILY, all[i].time) == j;
        assert (all + [b])[i] == all[i] && (all + [b])[|all|] == b;
        KeyOrder(DAILY, all[i].time, b.time);
      }
    }
    assert IsNewest(names, k);
    NewestUnique(names, k, Newest(names));
    ParseFormatted(DAILY, b.time);
    hide KeyFor;
  }

  lemma {:induction false} SelectIncreasing(bs: seq<Backup>, due: Backup -> bool, b: Backup)
    requires Increasing(bs + [b])
    ensures Increasing(Select(bs, due) + [b])
  {
    FrontIncreasing(bs, b);
    if bs == [] {
      assert bs + [b] == [] + [b];
    } else {
      var front, c := bs[..|bs| - 1], bs[|bs| - 1];
      assert front + [c] == bs;
      assert (bs + [b])[|front|] == c && (bs + [b])[|bs|] == b;
      SelectIncreasing(front, due, c);
      SkipIncreasing(front, c, b);
      SelectIncreasing(front, due, b);
      assert Earlier(c.time, b.time);
      hide Increasing;
      if due(c) {
        SnocIncreasing(Select(front, due), c, b);
        assert Select(bs, due) + [b] == Select(front, due) + [c] + [b];
      } else {
        assert Select(bs, due) == Select(front, due);
      }
    }
  }

  lemma SkipIncreasing(front: seq<Backup>, c: Backup, b: Backup)
    requires Increasing(front + [c] + [b])
    ensures Increasing(front + [b])
  {
    hide Earlier, Valid;
    var bs, all := front + [b], front + [c] + [b];
    assert forall i :: 0 <= i < |bs| ==> bs[i] == if i < |front| then all[i] else all[|front| + 1];
  }

  lemma SnocIncreasing(front: seq<Backup>, c: Backup, b: Backup)
    requires Increasing(front + [c]) && Increasing(front + [b]) && Earlier(c.time, b.time)
    ensures Increasing(front + [c] + [b])
  {
    hide Earlier, Valid;
    var all := front + [c] + [b];
    var one, two := front + [c], front + [b];
    assert forall i :: 0 <= i < |all| ==> all[i] == if i <= |front| then one[i] else two[|front|];
    assert forall i :: 0 <= i < |front| ==> all[i] == two[i];
  }

  lemma SelectSnoc(bs: seq<Backup>, due: Backup -> bool, b: Backup)
    ensures Select(bs + [b], due) == if due(b) then Select(bs, due) + [b] else Select(bs, due)
  {
    assert (bs + [b])[..|bs|] == bs;
  }

  lemma SelectedIncreasing(bs: seq<Backup>, due: Backup -> bool)
    requires Increasing(bs)
    ensures Increasing(Select(bs, due))
  {
    if bs == [] {
    } else {
      var front, b := bs[..|bs| - 1], bs[|bs| - 1];
      assert front + [b] == bs;
      SelectIncreasing(front, due, b);
      FrontIncreasing(Select(front, due), b);
      SelectSnoc(front, due, b);
    }
    hide Increasing, Select;
  }

  // What the bucket is at any time: in each tier that is pruned, what prunes that may have
  // stopped half way have left of the dumps copied there; every dump copied to annual/; and
  // nothing else.
  ghost predicate Holds(m: Objects, bs: seq<Backup>)
    requires Increasing(bs)
  {
    SelectedIncreasing(bs, ToWeekly);
    SelectedIncreasing(bs, ToMonthly);
    SelectedIncreasing(bs, ToAnnual);
    && Partial(Tier(m, DAILY), Stored(DAILY, bs), KEEP_DAILY)
    && Partial(Tier(m, WEEKLY), Stored(WEEKLY, Select(bs, ToWeekly)), KEEP_WEEKLY)
    && Partial(Tier(m, MONTHLY), Stored(MONTHLY, Select(bs, ToMonthly)), KEEP_MONTHLY)
    && Tier(m, ANNUAL) == Stored(ANNUAL, Select(bs, ToAnnual))
    && Untiered(m) == map[]
  }

  // What it is once a sweep has ended: the newest 7, 4 and 6 of them.
  ghost predicate Retains(m: Objects, bs: seq<Backup>)
    requires Increasing(bs)
  {
    SelectedIncreasing(bs, ToWeekly);
    SelectedIncreasing(bs, ToMonthly);
    SelectedIncreasing(bs, ToAnnual);
    NewestIncreasing(bs, KEEP_DAILY);
    NewestIncreasing(Select(bs, ToWeekly), KEEP_WEEKLY);
    NewestIncreasing(Select(bs, ToMonthly), KEEP_MONTHLY);
    && Tier(m, DAILY) == Stored(DAILY, LastOf(bs, KEEP_DAILY))
    && Tier(m, WEEKLY) == Stored(WEEKLY, LastOf(Select(bs, ToWeekly), KEEP_WEEKLY))
    && Tier(m, MONTHLY) == Stored(MONTHLY, LastOf(Select(bs, ToMonthly), KEEP_MONTHLY))
    && Tier(m, ANNUAL) == Stored(ANNUAL, Select(bs, ToAnnual))
    && Untiered(m) == map[]
  }

  // A dump later than all before it, followed by a sweep wherever it ends, keeps the bucket
  // as described.
  lemma HoldsStep(m: Objects, bs: seq<Backup>, b: Backup)
    requires Increasing(bs + [b]) && Increasing(bs) && Holds(m, bs)
    ensures Valid(b.time)
    ensures var r := Sweep(m[KeyFor(DAILY, b.time) := b.dump], b.fault);
            Holds(r, bs + [b]) && (b.fault.None? ==> Retains(r, bs + [b]))
  {
    hide Increasing, Sweep, Earlier, Valid, Stored, Select, Trim, Promote, Tier, Untiered, KeyFor, SweepTime, Newest, Limit,
         Monday, FirstOfMonth, NewYear, Passes, LastOf, Partial;
    FrontIncreasing(bs, b);
    var p := m[KeyFor(DAILY, b.time) := b.dump];
    PutDaily(m, b.time, b.dump);
    DailyStep(m, bs, b);
    SweepByTier(p, b.time, b.fault);
    SelectedIncreasing(bs, ToWeekly);
    SelectedIncreasing(bs, ToMonthly);
    TierOf(Tier(p, WEEKLY), WEEKLY, bs, ToWeekly, b, KEEP_WEEKLY, Limit(b.fault, 1));
    TierOf(Tier(p, MONTHLY), MONTHLY, bs, ToMonthly, b, KEEP_MONTHLY, Limit(b.fault, 2));
    SelectedIncreasing(bs, ToAnnual);
    SelectIncreasing(bs, ToAnnual, b);
    AnnualStep(Select(bs, ToAnnual), b, ToAnnual(b));
    SelectSnoc(bs, ToAnnual, b);
    NoLimit(b.fault);
  }

  lemma NoLimit(fault: Option<Fault>)
    ensures fault.None? ==> Limit(fault, 0) == Limit(fault, 1) == Limit(fault, 2) == None
  {
  }

  lemma TierOf(y: Objects, p: string, bs: seq<Backup>, due: Backup -> bool, b: Backup, n: nat, limit: Option<nat>)
    requires Increasing(bs + [b]) && n > 0 && Increasing(bs) && Increasing(Select(bs, due))
    requires Partial(y, Stored(p, Select(bs, due)), n)
    ensures Valid(b.time) && Increasing(Select(bs + [b], due)) && Increasing(LastOf(Select(bs + [b], due), n))
    ensures var r := Trim(Promote(y, due(b), KeyFor(p, b.time), b.dump), n, limit);
            && Partial(r, Stored(p, Select(bs + [b], due)), n)
            && (limit.None? ==> r == Stored(p, LastOf(Select(bs + [b], due), n)))
  {
    hide Increasing, Stored, Trim, Promote, Partial, Select, Valid, KeyFor, LastOf;
    SelectIncreasing(bs, due, b);
    SelectSnoc(bs, due, b);
    TierStep(p, y, Select(bs, due), b, due(b), n, limit);
    TrimStored(p, Select(bs + [b], due), n);
  }

  lemma DailyStep(m: Objects, bs: seq<Backup>, b: Backup)
    requires Increasing(bs + [b]) && Increasing(bs) && Valid(b.time)
    requires Partial(Tier(m, DAILY), Stored(DAILY, bs), KEEP_DAILY)
    ensures Increasing(LastOf(bs + [b], KEEP_DAILY))
    ensures var p := m[KeyFor(DAILY, b.time) := b.dump];
            var r := Trim(Tier(p, DAILY), KEEP_DAILY, Limit(b.fault, 0));
            && SweepTime(p) == Some(b.time)
            && Newest(Tier(p, DAILY).Keys) == KeyFor(DAILY, b.time)
            && Partial(r, Stored(DAILY, bs + [b]), KEEP_DAILY)
            && (b.fault.None? ==> r == Stored(DAILY, LastOf(bs + [b], KEEP_DAILY)))
  {
    var p, k := m[KeyFor(DAILY, b.time) := b.dump], KeyFor(DAILY, b.time);
    PutIsNewest(m, bs, b);
    hide Increasing, Earlier, Valid, KeyFor, Stored, Tier, Trim, SweepTime, IsNewest, Partial, LastOf;
    PutDaily(m, b.time, b.dump);
    StoredSnoc(DAILY, bs, b);
    PutPartial(Tier(m, DAILY), Stored(DAILY, bs), KEEP_DAILY, k, b.dump);
    TrimPartial(Tier(p, DAILY), Stored(DAILY, bs + [b]), KEEP_DAILY, Limit(b.fault, 0));
    TrimStored(DAILY, bs + [b], KEEP_DAILY);
    NoLimit(b.fault);
  }

  // Over whole runs, with sweeps raising anywhere: once a sweep has ended, daily holds
  // exactly the 7 newest dumps, weekly the 4 newest Monday dumps that were copied, monthly
  // the 6 newest dumps of a first of the month that were copied, annual every copied dump
  // of a first of January, each with its content, and the bucket holds nothing else.
  lemma {:induction false} RetentionUnderFaults(bs: seq<Backup>)
    requires Increasing(bs)
    ensures Holds(After(bs), bs)
    ensures bs == [] || bs[|bs| - 1].fault.None? ==> Retains(After(bs), bs)
  {
    if bs == [] {
    } else {
      var front, b := bs[..|bs| - 1], bs[|bs| - 1];
      assert front + [b] == bs;
      FrontIncreasing(front, b);
      RetentionUnderFaults(front);
      HoldsStep(After(front), front, b);
      hide Holds, Retains, Increasing;
    }
  }

  predicate OnMonday(b: Backup) { Monday(b.time) }

  predicate OnFirst(b: Backup) { FirstOfMonth(b.time) }

  predicate OnNewYear(b: Backup) { NewYear(b.time) }

  // Without faults these are all the Monday, first-of-month and January 1 dumps.
  lemma RetentionOverRuns(bs: seq<Backup>)
    requires Increasing(bs) && forall i :: 0 <= i < |bs| ==> bs[i].fault.None?
    ensures Increasing(LastOf(bs, KEEP_DAILY)) && Increasing(LastOf(Select(bs, OnMonday), KEEP_WEEKLY))
    ensures Increasing(LastOf(Select(bs, OnFirst), KEEP_MONTHLY)) && Increasing(Select(bs, OnNewYear))
    ensures var m := After(bs);
            && Tier(m, DAILY) == Stored(DAILY, LastOf(bs, KEEP_DAILY))
            && Tier(m, WEEKLY) == Stored(WEEKLY, LastOf(Select(bs, OnMonday), KEEP_WEEKLY))
            && Tier(m, MONTHLY) == Stored(MONTHLY, LastOf(Select(bs, OnFirst), KEEP_MONTHLY))
            && Tier(m, ANNUAL) == Stored(ANNUAL, Select(bs, OnNewYear))
            && Untiered(m) == map[]
  {
    RetentionUnderFaults(bs);
    hide Increasing, Stored, Tier, After, LastOf, Valid, Earlier;
    SelectSame(bs, ToWeekly, OnMonday);
    SelectSame(bs, ToMonthly, OnFirst);
    SelectSame(bs, ToAnnual, OnNewYear);
    SelectedIncreasing(bs, ToWeekly);
    SelectedIncreasing(bs, ToMonthly);
    SelectedIncreasing(bs, ToAnnual);
    NewestIncreasing(bs, KEEP_DAILY);
    NewestIncreasing(Select(bs, ToWeekly), KEEP_WEEKLY);
    NewestIncreasing(Select(bs, ToMonthly), KEEP_MONTHLY);
    hide Select;
  }

  // The same in figures, on the calendar and with the names of the tiers written out, for
  // predicates that tell the days of a run: 5 January 2026 is a Monday.
  lemma RetentionByCalendar(bs: seq<Backup>, monday: Backup -> bool, first: Backup -> bool, newYear: Backup -> bool)
    requires Increasing(bs) && forall i :: 0 <= i < |bs| ==> bs[i].fault.None?
    requires forall i :: 0 <= i < |bs| ==> var t := bs[i].time;
               && (monday(bs[i]) <==> (Ordinal(t.year, t.month, t.day) - Ordinal(2026, 1, 5)) % 7 == 0)
               && (first(bs[i]) <==> t.day == 1)
               && (newYear(bs[i]) <==> t.month == 1 && t.day == 1)
    ensures Increasing(LastOf(bs, 7)) && Increasing(LastOf(Select(bs, monday), 4))
    ensures Increasing(LastOf(Select(bs, first), 6)) && Increasing(Select(bs, newYear))
    ensures var m := After(bs);
            && (map k | k in m && "daily/" <= k :: m[k]) == Stored("daily/", LastOf(bs, 7))
            && (map k | k in m && "weekly/" <= k :: m[k]) == Stored("weekly/", LastOf(Select(bs, monday), 4))
            && (map k | k in m && "monthly/" <= k :: m[k]) == Stored("monthly/", LastOf(Select(bs, first), 6))
            && (map k | k in m && "annual/" <= k :: m[k]) == Stored("annual/", Select(bs, newYear))
            && forall k :: k in m ==> "daily/" <= k || "weekly/" <= k || "monthly/" <= k || "annual/" <= k
  {
    hide Stored, After, LastOf, Valid, Earlier, Select, Tier, Untiered, Ordinal, OnMonday, OnFirst, OnNewYear;
    InTiers(After(bs));
    hide Increasing;
    RetentionOverRuns(bs);
    SelectDays(bs, monday, first, newYear);
  }

  lemma SelectDays(bs: seq<Backup>, monday: Backup -> bool, first: Backup -> bool, newYear: Backup -> bool)
    requires forall i :: 0 <= i < |bs| ==> var t := bs[i].time;
               && (monday(bs[i]) <==> (Ordinal(t.year, t.month, t.day) - Ordinal(2026, 1, 5)) % 7 == 0)
               && (first(bs[i]) <==> t.day == 1)
               && (newYear(bs[i]) <==> t.month == 1 && t.day == 1)
    ensures Select(bs, OnMonday) == Select(bs, monday) && Select(bs, OnFirst) == Select(bs, first)
    ensures Select(bs, OnNewYear) == Select(bs, newYear)
  {
    hide Ordinal, Monday, Select;
    forall i | 0 <= i < |bs| ensures monday(bs[i]) == OnMonday(bs[i]) { MondayByCount(bs[i].time); }
    SelectSame(bs, OnMonday, monday);
    SelectSame(bs, OnFirst, first);
    SelectSame(bs, OnNewYear, newYear);
  }

  lemma InTiers(m: Objects)
    ensures Tier(m, DAILY) == (map k | k in m && "daily/" <= k :: m[k])
    ensures Tier(m, WEEKLY) == (map k | k in m && "weekly/" <= k :: m[k])
    ensures Tier(m, MONTHLY) == (map k | k in m && "monthly/" <= k :: m[k])
    ensures Tier(m, ANNUAL) == (map k | k in m && "annual/" <= k :: m[k])
    ensures Untiered(m) == map[] ==>
              forall k :: k in m ==> "daily/" <= k || "weekly/" <= k || "monthly/" <= k || "annual/" <= k
  {
    assert forall k :: k in m && !Tiered(k) ==> k in Untiered(m);
  }

  lemma MondayByCount(t: DateTime)
    ensures Monday(t) <==> (Ordinal(t.year, t.month, t.day) - Ordinal(2026, 1, 5)) % 7 == 0
  {
    Anchor();
    hide Ordinal;
    Congruent(Ordinal(t.year, t.month, t.day), Ordinal(2026, 1, 5));
  }

  lemma Congruent(x: int, n: int)
    requires (n + 6) % 7 == 0
    ensures (x + 6) % 7 == 0 <==> (x - n) % 7 == 0
  {
  }

  lemma {:induction false} SelectSame(bs: seq<Backup>, p: Backup -> bool, q: Backup -> bool)
    requires forall i :: 0 <= i < |bs| ==> p(bs[i]) == q(bs[i])
    ensures Select(bs, p) == Select(bs, q)
  {
    if bs == [] {
    } else {
      SelectSame(bs[..|bs| - 1], p, q);
    }
  }

  // No sweep of a run deletes a copy it has just made, wherever it ends.
  lemma PromotedCopySurvives(bs: seq<Backup>)
    requires Increasing(bs) && bs != []
    ensures var m, b := After(bs), bs[|bs| - 1];
            var t, f := b.time, b.fault;
            && ((Ordinal(t.year, t.month, t.day) - Ordinal(2026, 1, 5)) % 7 == 0 && (f.Some? && f.value.Copying? ==> f.value.passed >= 1) ==>
                  KeyFor("weekly/", t) in m && m[KeyFor("weekly/", t)] == b.dump)
            && (t.day == 1 && (f.Some? && f.value.Copying? ==> f.value.passed >= 2) ==>
                  KeyFor("monthly/", t) in m && m[KeyFor("monthly/", t)] == b.dump)
            && (t.month == 1 && t.day == 1 && (f.Some? && f.value.Copying? ==> f.value.passed >= 3) ==>
                  KeyFor("annual/", t) in m && m[KeyFor("annual/", t)] == b.dump)
  {
    hide After, KeyFor, Valid, Earlier, ToWeekly, ToMonthly, ToAnnual, Ordinal;
    DueAndPassed(bs[|bs| - 1]);
    CopiesSurvive(bs);
    assert WEEKLY == "weekly/" && MONTHLY == "monthly/" && ANNUAL == "annual/";
  }

  lemma DueAndPassed(b: Backup)
    ensures var t, f := b.time, b.fault;
            && (ToWeekly(b) <==> (Ordinal(t.year, t.month, t.day) - Ordinal(2026, 1, 5)) % 7 == 0 &&
                                 (f.Some? && f.value.Copying? ==> f.value.passed >= 1))
            && (ToMonthly(b) <==> t.day == 1 && (f.Some? && f.value.Copying? ==> f.value.passed >= 2))
            && (ToAnnual(b) <==> t.month == 1 && t.day == 1 && (f.Some? && f.value.Copying? ==> f.value.passed >= 3))
  {
    MondayByCount(b.time);
    hide Ordinal, Monday;
  }

  lemma CopiesSurvive(bs: seq<Backup>)
    requires Increasing(bs) && bs != []
    ensures var m, b := After(bs), bs[|bs| - 1];
            && (ToWeekly(b) ==> KeyFor(WEEKLY, b.time) in m && m[KeyFor(WEEKLY, b.time)] == b.dump)
            && (ToMonthly(b) ==> KeyFor(MONTHLY, b.time) in m && m[KeyFor(MONTHLY, b.time)] == b.dump)
            && (ToAnnual(b) ==> KeyFor(ANNUAL, b.time) in m && m[KeyFor(ANNUAL, b.time)] == b.dump)
  {
    hide After, KeyFor, Stored, Valid, Earlier, Tier, Select, Untiered, Monday, FirstOfMonth, NewYear, Passes, Partial;
    RetentionUnderFaults(bs);
    SelectedIncreasing(bs, ToWeekly);
    SelectedIncreasing(bs, ToMonthly);
    SelectedIncreasing(bs, ToAnnual);
    var m, b := After(bs), bs[|bs| - 1];
    if ToWeekly(b) {
      LastCopied(m, WEEKLY, bs, ToWeekly, KEEP_WEEKLY);
    }
    if ToMonthly(b) {
      LastCopied(m, MONTHLY, bs, ToMonthly, KEEP_MONTHLY);
    }
    if ToAnnual(b) {
      WholeIsPartial(Tier(m, ANNUAL), 1);
      LastCopied(m, ANNUAL, bs, ToAnnual, 1);
    }
  }

  // The last backup, when copied, has the newest name of its tier, which is always kept.
  lemma LastCopied(m: Objects, p: string, bs: seq<Backup>, due: Backup -> bool, n: nat)
    requires Increasing(bs) && Increasing(Select(bs, due)) && bs != [] && due(bs[|bs| - 1]) && n > 0
    requires Partial(Tier(m, p), Stored(p, Select(bs, due)), n)
    ensures var b := bs[|bs| - 1]; KeyFor(p, b.time) in m && m[KeyFor(p, b.time)] == b.dump
  {
    var b, all := bs[|bs| - 1], Select(bs, due);
    assert all[|all| - 1] == b;
    hide Select;
    LastStored(p, all, b);
    NothingAbove(p, all, b);
    hide Stored, Increasing, KeyFor, Above;
    assert KeyFor(p, b.time) in Tier(m, p);
  }

  lemma LastStored(p: string, bs: seq<Backup>, b: Backup)
    requires Times(bs) && bs != [] && bs[|bs| - 1] == b
    ensures KeyFor(p, b.time) in Stored(p, bs) && Stored(p, bs)[KeyFor(p, b.time)] == b.dump
  {
  }

  lemma NothingAbove(p: string, bs: seq<Backup>, b: Backup)
    requires Increasing(bs) && bs != [] && bs[|bs| - 1] == b
    ensures Above(Stored(p, bs).Keys, KeyFor(p, b.time)) == {}
  {
    hide Stored, KeyFor, Less, Valid;
    forall j | j in Stored(p, bs) ensures !Less(KeyFor(p, b.time), j) {
      StoredMeans(p, bs, j);
      var i :| 0 <= i < |bs| && KeyFor(p, bs[i].time) == j;
      KeyOrder(p, b.time, bs[i].time);
      if i < |bs| - 1 {
        LaterNotEarlier(bs[i].time, b.time);
      } else {
        EarlierStrict(b.time);
      }
    }
  }

  lemma LaterNotEarlier(a: DateTime, b: DateTime)
    requires Earlier(a, b)
    ensures !Earlier(b, a)
  {
  }

  // A promotion is lost for good when its sweep raised before the copy: no later sweep
  // makes up for it.
  lemma LostPromotion(bs: seq<Backup>, i: nat)
    requires Increasing(bs) && i < |bs|
    ensures bs[i].fault == Some(Copying(0)) ==> KeyFor("weekly/", bs[i].time) !in After(bs)
    ensures bs[i].fault in {Some(Copying(0)), Some(Copying(1))} ==> KeyFor("monthly/", bs[i].time) !in After(bs)
    ensures bs[i].fault in {Some(Copying(0)), Some(Copying(1)), Some(Copying(2))} ==>
              KeyFor("annual/", bs[i].time) !in After(bs)
  {
    hide After, KeyFor, Stored, Valid, Earlier, Tier, Select, Untiered, Monday, FirstOfMonth, NewYear, Kept;
    RetentionUnderFaults(bs);
    SelectedIncreasing(bs, ToWeekly);
    SelectedIncreasing(bs, ToMonthly);
    SelectedIncreasing(bs, ToAnnual);
    var m := After(bs);
    NotSelected(m, WEEKLY, bs, ToWeekly, i);
    NotSelected(m, MONTHLY, bs, ToMonthly, i);
    NotSelected(m, ANNUAL, bs, ToAnnual, i);
  }

  // A dump that failed after its upload, and so was not swept, takes up one of the seven
  // daily places until seven newer ones are there, and is never promoted.
  lemma FailedDumpTakesPlace(bs: seq<Backup>, i: nat)
    requires Increasing(bs) && i < |bs| && bs[i].fault == Some(Copying(0)) && bs[|bs| - 1].fault.None?
    ensures KeyFor("daily/", bs[i].time) in After(bs) <==> |bs| - i <= 7
    ensures |bs| - i <= 7 ==> After(bs)[KeyFor("daily/", bs[i].time)] == bs[i].dump
    ensures KeyFor("weekly/", bs[i].time) !in After(bs) && KeyFor("monthly/", bs[i].time) !in After(bs)
    ensures KeyFor("annual/", bs[i].time) !in After(bs)
  {
    LostPromotion(bs, i);
    hide After, KeyFor, Valid, Earlier, Tier, Select, Untiered, Stored;
    RetentionUnderFaults(bs);
    NewestIncreasing(bs, KEEP_DAILY);
    DailyPlace(After(bs), bs, i);
  }

  lemma DailyPlace(m: Objects, bs: seq<Backup>, i: nat)
    requires Increasing(bs) && i < |bs| && Increasing(LastOf(bs, KEEP_DAILY))
    requires Tier(m, DAILY) == Stored(DAILY, LastOf(bs, KEEP_DAILY))
    ensures KeyFor(DAILY, bs[i].time) in m <==> |bs| - i <= KEEP_DAILY
    ensures |bs| - i <= KEEP_DAILY ==> m[KeyFor(DAILY, bs[i].time)] == bs[i].dump
  {
    hide Tier, Stored, Valid, Earlier;
    InTier(m, DAILY, bs[i].time);
    hide KeyFor, Increasing;
    NewestPlace(DAILY, bs, KEEP_DAILY, i);
  }

  lemma InTier(m: Objects, p: string, t: DateTime)
    requires Valid(t)
    ensures var k := KeyFor(p, t); (k in m <==> k in Tier(m, p)) && (k in m ==> m[k] == Tier(m, p)[k])
  {
    assert StartsWith(KeyFor(p, t), p);
    hide KeyFor;
  }

  lemma NewestPlace(p: string, bs: seq<Backup>, n: nat, i: nat)
    requires Increasing(bs) && i < |bs| && Increasing(LastOf(bs, n))
    ensures KeyFor(p, bs[i].time) in Stored(p, LastOf(bs, n)) <==> |bs| - i <= n
    ensures |bs| - i <= n ==> Stored(p, LastOf(bs, n))[KeyFor(p, bs[i].time)] == bs[i].dump
  {
    hide KeyFor, Valid, Earlier, Stored, Less;
    var k, late := KeyFor(p, bs[i].time), LastOf(bs, n);
    StoredMeans(p, late, k);
    var from := |bs| - |late|;
    if |bs| - i <= n {
      assert late[i - from] == bs[i];
    } else {
      forall j | 0 <= j < |late| ensures KeyFor(p, late[j].time) != k {
        assert late[j] == bs[from + j];
        KeyOrder(p, bs[i].time, bs[from + j].time);
        if bs[i].time == bs[from + j].time {
          SameTime(bs, i, from + j);
        }
      }
    }
  }

  lemma NotSelected(m: Objects, p: string, bs: seq<Backup>, due: Backup -> bool, i: nat)
    requires Increasing(bs) && i < |bs| && Increasing(Select(bs, due))
    requires Tier(m, p).Keys <= Stored(p, Select(bs, due)).Keys
    ensures !due(bs[i]) ==> KeyFor(p, bs[i].time) !in m
  {
    var k, all := KeyFor(p, bs[i].time), Select(bs, due);
    assert StartsWith(k, p);
    hide KeyFor, Valid, Stored, Earlier;
    if !due(bs[i]) && k in m {
      assert k in Tier(m, p);
      StoredMeans(p, all, k);
      var j :| 0 <= j < |all| && KeyFor(p, all[j].time) == k;
      var l := Origin(bs, due, j);
      KeyOrder(p, bs[i].time, bs[l].time);
      SameTime(bs, i, l);
    }
  }

  lemma SameTime(bs: seq<Backup>, i: nat, l: nat)
    requires Increasing(bs) && i < |bs| && l < |bs| && bs[i].time == bs[l].time
    ensures i == l
  {
    EarlierStrict(bs[i].time);
    hide Earlier, Valid;
  }

  lemma {:induction false} Origin(bs: seq<Backup>, due: Backup -> bool, j: nat) returns (i: nat)
    requires j < |Select(bs, due)|
    ensures i < |bs| && bs[i] == Select(bs, due)[j] && due(bs[i])
  {
    var front := bs[..|bs| - 1];
    if j < |Select(front, due)| {
      i := Origin(front, due, j);
    } else {
      i := |front|;
    }
  }

  // The program run on a new bucket.
  method RunBackups(bs: seq<Backup>) returns (bucket: BackupBucket)
    requires Increasing(bs)
    ensures bucket.objects == After(bs) && Holds(bucket.objects, bs)
    ensures bs == [] || bs[|bs| - 1].fault.None? ==> Retains(bucket.objects, bs)
  {
    bucket := new BackupBucket();
    var i := 0;
    assert bs[..0] == [];
    while i < |bs|
      invariant 0 <= i <= |bs| && fresh(bucket)
      invariant Times(bs[..i]) && bucket.objects == After(bs[..i])
    {
      assert bs[..i + 1][..i] == bs[..i];
      bucket.DailyDump(bs[i].time, bs[i].dump, false, bs[i].fault);
      i := i + 1;
    }
    assert bs[..i] == bs;
    RetentionUnderFaults(bs);
  }
}
