// Retention of the backup bucket: promotion of the newest dump and deletion of old ones.
module Retention {
  import opened Sets
  import opened Store
  import opened DumpKeys

  type Dump = string
  type Objects = map<string, Dump>

  const DAILY := "daily/"
  const WEEKLY := "weekly/"
  const MONTHLY := "monthly/"
  const ANNUAL := "annual/"

  const KEEP_DAILY := 7
  const KEEP_WEEKLY := 4
  const KEEP_MONTHLY := 6

  predicate StartsWith(k: string, prefix: string) { prefix <= k }

  // --- Sorted listings ----------------------------------------------------------

  predicate Descending(s: seq<string>) {
    forall i, j :: 0 <= i < j < |s| ==> Less(s[j], s[i])
  }

  // The names under which fewer names lie above than a limit are found by counting.
  ghost function Above(names: set<string>, k: string): set<string> {
    set j | j in names && Less(k, j)
  }

  lemma AboveShrinks(names: set<string>, a: string, b: string)
    requires Less(a, b)
    ensures Above(names, b) <= Above(names, a)
    ensures b in names ==> |Above(names, b)| < |Above(names, a)|
  {
    forall j | j in Above(names, b) ensures j in Above(names, a) { LessTransitive(a, b, j); }
    if b in names {
      LessIrreflexive(b);
      SubsetSize(Above(names, b) + {b}, Above(names, a));
    }
  }

  // In a descending listing, as many names lie above an entry as come before it.
  lemma {:induction false} AboveIndex(s: seq<string>, i: nat)
    requires Descending(s) && i < |s|
    ensures Above(Entries(s), s[i]) == Entries(s[..i]) && |Entries(s[..i])| == i
  {
    forall k | k in Above(Entries(s), s[i]) ensures k in Entries(s[..i]) {
      var j :| 0 <= j < |s| && s[j] == k;
      LessIrreflexive(k);
      if i < j {
        LessTransitive(k, s[i], k);
      }
      assert s[..i][j] == k;
    }
    EntriesCount(s[..i]);
  }

  function Entries(s: seq<string>): set<string> { set k | k in s }

  lemma {:induction false} EntriesCount(s: seq<string>)
    requires Descending(s)
    ensures |Entries(s)| == |s|
  {
    if s == [] {
    } else {
      var front, last := s[..|s| - 1], s[|s| - 1];
      EntriesCount(front);
      if last in front {
        LessIrreflexive(last);
      }
      assert Entries(s) == Entries(front) + {last};
    }
  }

  // The names kept when only the n newest are to stay.
  ghost function Kept(names: set<string>, n: nat): set<string> {
    set k | k in names && |Above(names, k)| < n
  }

  // Keeping n of at least n names keeps exactly n; keeping n of fewer keeps all; what is
  // kept is above what is not.
  lemma KeptCount(s: seq<string>, n: nat)
    requires Descending(s)
    ensures Kept(Entries(s), n) == Entries(s[..if n < |s| then n else |s|])
    ensures |Kept(Entries(s), n)| == if n < |s| then n else |s|
  {
    var m := if n < |s| then n else |s|;
    forall k | k in Entries(s) ensures k in Kept(Entries(s), n) <==> k in Entries(s[..m]) {
      var i :| 0 <= i < |s| && s[i] == k;
      AboveIndex(s, i);
      if k in s[..m] && m <= i {
        LessIrreflexive(k);
      }
      if i < m {
        assert s[..m][i] == k;
      }
    }
    EntriesCount(s[..m]);
  }

  // --- The sweep as a function of the bucket ---------------------------------------

  function Tier(m: Objects, prefix: string): Objects {
    map k | k in m && StartsWith(k, prefix) :: m[k]
  }

  lemma TierHolds(m: Objects, prefix: string)
    ensures forall k :: k in Tier(m, prefix) <==> k in m && prefix <= k
  {
  }

  // The newest name of a listing.
  ghost predicate IsNewest(names: set<string>, k: string) {
    k in names && forall j :: j in names ==> j == k || Less(j, k)
  }

  lemma {:induction false} NewestExists(names: set<string>)
    requires names != {}
    ensures exists k :: IsNewest(names, k)
  {
    var x :| x in names;
    var rest := names - {x};
    assert names == rest + {x};
    if rest == {} {
      assert IsNewest(names, x);
    } else {
      NewestExists(rest);
      var y :| IsNewest(rest, y);
      LessTotal(x, y);
      if Less(x, y) {
        assert IsNewest(names, y);
      } else {
        forall j | j in rest ensures Less(j, x) {
          if j != y { LessTransitive(j, y, x); }
        }
        assert x == y || Less(y, x);
        assert IsNewest(names, x);
      }
    }
  }

  lemma NewestUnique(names: set<string>, a: string, b: string)
    requires IsNewest(names, a) && IsNewest(names, b)
    ensures a == b
  {
    if a != b {
      LessTransitive(a, b, a);
      LessIrreflexive(a);
    }
  }

  ghost function Newest(names: set<string>): (k: string)
    requires names != {}
    ensures IsNewest(names, k)
  {
    NewestExists(names);
    var k :| IsNewest(names, k);
    k
  }

  // One copy from the newest daily dump to a tier, skipped when the tier lists the target
  // name (or a longer one) already.
  predicate Listed(m: Objects, target: string) { exists k :: k in m && StartsWith(k, target) }

  function Promote(m: Objects, due: bool, target: string, dump: Dump): Objects {
    if due && !Listed(m, target) then m[target := dump] else m
  }

  // What is spared when deletion goes down the listing from the n-th name on and stops
  // after a number of deletions, or, without such a limit, only at its end.
  ghost function Spared(names: set<string>, n: nat, limit: Option<nat>): set<string> {
    set k | k in names && (|Above(names, k)| < n || (limit.Some? && n + limit.value <= |Above(names, k)|))
  }

  ghost function Prune(m: Objects, prefix: string, n: nat, limit: Option<nat>): Objects {
    map k | k in m && (StartsWith(k, prefix) ==> k in Spared(Tier(m, prefix).Keys, n, limit)) :: m[k]
  }

  // The same on a whole tier.
  ghost function Trim(tier: Objects, n: nat, limit: Option<nat>): Objects {
    map k | k in tier && k in Spared(tier.Keys, n, limit) :: tier[k]
  }

  // Where a sweep that raises stops: after so many of its three promotion steps, or after
  // so many deletions in one of the three tiers it prunes. The caller logs it and goes on.
  datatype Fault = Copying(passed: nat) | Deleting(tier: nat, deletions: nat)

  predicate Passes(fault: Option<Fault>, step: nat) {
    fault.None? || fault.value.Deleting? || step <= fault.value.passed
  }

  function Limit(fault: Option<Fault>, tier: nat): Option<nat> {
    if fault.None? then None
    else
      match fault.value
      case Copying(_) => Some(0)
      case Deleting(i, n) => if tier < i then None else if tier == i then Some(n) else Some(0)
  }

  predicate Monday(t: DateTime) { Weekday(t) == 0 }

  predicate FirstOfMonth(t: DateTime) { t.day == 1 }

  predicate NewYear(t: DateTime) { t.month == 1 && t.day == 1 }

  ghost function Promoted(m: Objects, t: DateTime, dump: Dump, fault: Option<Fault>): Objects
    requires Valid(t)
  {
    var w := Promote(m, Monday(t) && Passes(fault, 1), KeyFor(WEEKLY, t), dump);
    var mo := Promote(w, FirstOfMonth(t) && Passes(fault, 2), KeyFor(MONTHLY, t), dump);
    Promote(mo, NewYear(t) && Passes(fault, 3), KeyFor(ANNUAL, t), dump)
  }

  ghost function Pruned(m: Objects, fault: Option<Fault>): Objects {
    var d := Prune(m, DAILY, KEEP_DAILY, Limit(fault, 0));
    var w := Prune(d, WEEKLY, KEEP_WEEKLY, Limit(fault, 1));
    Prune(w, MONTHLY, KEEP_MONTHLY, Limit(fault, 2))
  }

  // The time of the newest daily dump, if there is one and its name parses.
  ghost function SweepTime(m: Objects): Option<DateTime> {
    var daily := Tier(m, DAILY).Keys;
    if daily == {} then None else ParseKey(Newest(daily))
  }

  // _sundown_sweep, with the point at which it raises if it does.
  ghost function Sweep(m: Objects, fault: Option<Fault>): Objects {
    var time := SweepTime(m);
    if time.None? then m
    else Pruned(Promoted(m, time.value, m[Newest(Tier(m, DAILY).Keys)], fault), fault)
  }

  // --- The sweep tier by tier ----------------------------------------------------------

  // Two prefixes that no name can have both of.
  predicate Apart(p: string, q: string) { p != [] && q != [] && p[0] != q[0] }

  lemma TierPrune(m: Objects, p: string, n: nat, limit: Option<nat>, q: string)
    requires Apart(p, q)
    ensures Tier(Prune(m, p, n, limit), p) == Trim(Tier(m, p), n, limit)
    ensures Tier(Prune(m, p, n, limit), q) == Tier(m, q)
  {
    hide Spared;
    forall k | StartsWith(k, q) ensures !StartsWith(k, p) { assert q[0] == k[0]; }
  }

  lemma TierPromote(m: Objects, due: bool, p: string, rest: string, dump: Dump, q: string)
    requires Apart(p, q)
    ensures Tier(Promote(m, due, p + rest, dump), p) == Promote(Tier(m, p), due, p + rest, dump)
    ensures Tier(Promote(m, due, p + rest, dump), q) == Tier(m, q)
  {
    var target := p + rest;
    assert StartsWith(target, p) && target[0] == p[0];
    forall k | StartsWith(k, target) ensures StartsWith(k, p) { assert p == target[..|p|] == k[..|p|]; }
    if Listed(m, target) {
      var k :| k in m && StartsWith(k, target);
      assert k in Tier(m, p);
    }
    assert Listed(m, target) <==> Listed(Tier(m, p), target);
    assert !StartsWith(target, q);
  }

  lemma PrefixesApart()
    ensures Apart(DAILY, WEEKLY) && Apart(DAILY, MONTHLY) && Apart(DAILY, ANNUAL)
    ensures Apart(WEEKLY, DAILY) && Apart(WEEKLY, MONTHLY) && Apart(WEEKLY, ANNUAL)
    ensures Apart(MONTHLY, DAILY) && Apart(MONTHLY, WEEKLY) && Apart(MONTHLY, ANNUAL)
    ensures Apart(ANNUAL, DAILY) && Apart(ANNUAL, WEEKLY) && Apart(ANNUAL, MONTHLY)
  {
  }

  predicate Tiered(k: string) {
    StartsWith(k, DAILY) || StartsWith(k, WEEKLY) || StartsWith(k, MONTHLY) || StartsWith(k, ANNUAL)
  }

  function Untiered(m: Objects): Objects {
    map k | k in m && !Tiered(k) :: m[k]
  }

  // A bucket is its four tiers and the rest.
  lemma TiersDecide(a: Objects, b: Objects)
    requires Tier(a, DAILY) == Tier(b, DAILY) && Tier(a, WEEKLY) == Tier(b, WEEKLY)
    requires Tier(a, MONTHLY) == Tier(b, MONTHLY) && Tier(a, ANNUAL) == Tier(b, ANNUAL)
    requires Untiered(a) == Untiered(b)
    ensures a == b
  {
    HalfDecides(a, b);
    HalfDecides(b, a);
  }

  lemma HalfDecides(a: Objects, b: Objects)
    requires Tier(a, DAILY) == Tier(b, DAILY) && Tier(a, WEEKLY) == Tier(b, WEEKLY)
    requires Tier(a, MONTHLY) == Tier(b, MONTHLY) && Tier(a, ANNUAL) == Tier(b, ANNUAL)
    requires Untiered(a) == Untiered(b)
    ensures forall k :: k in a ==> k in b && a[k] == b[k]
  {
    hide StartsWith;
    forall k | k in a ensures k in b && a[k] == b[k] {
      if StartsWith(k, DAILY) {
        assert k in Tier(a, DAILY);
      } else if StartsWith(k, WEEKLY) {
        assert k in Tier(a, WEEKLY);
      } else if StartsWith(k, MONTHLY) {
        assert k in Tier(a, MONTHLY);
      } else if StartsWith(k, ANNUAL) {
        assert k in Tier(a, ANNUAL);
      } else {
        assert k in Untiered(a);
      }
    }
  }

  // What one sweep does to each tier, when it does not return early.
  lemma SweepByTier(m: Objects, t: DateTime, fault: Option<Fault>)
    requires Valid(t) && SweepTime(m) == Some(t)
    ensures var dump, after := m[Newest(Tier(m, DAILY).Keys)], Sweep(m, fault);
            && Tier(after, DAILY) == Trim(Tier(m, DAILY), KEEP_DAILY, Limit(fault, 0))
            && Tier(after, WEEKLY) ==
               Trim(Promote(Tier(m, WEEKLY), Monday(t) && Passes(fault, 1), KeyFor(WEEKLY, t), dump),
                    KEEP_WEEKLY, Limit(fault, 1))
            && Tier(after, MONTHLY) ==
               Trim(Promote(Tier(m, MONTHLY), FirstOfMonth(t) && Passes(fault, 2), KeyFor(MONTHLY, t), dump),
                    KEEP_MONTHLY, Limit(fault, 2))
            && Tier(after, ANNUAL) == Promote(Tier(m, ANNUAL), NewYear(t) && Passes(fault, 3), KeyFor(ANNUAL, t), dump)
            && Untiered(after) == Untiered(m)
  {
    var dump := m[Newest(Tier(m, DAILY).Keys)];
    var a := Promoted(m, t, dump, fault);
    assert Sweep(m, fault) == Pruned(a, fault);
    hide Sweep, SweepTime;
    PromotedByTier(m, t, dump, fault);
    PrunedByTier(a, fault);
    hide Promoted, Pruned, Tier, Untiered, Passes, Limit;
  }

  // Where a sweep that raises while deleting stops: the tiers before that one are cut down to
  // 7, 4 and 6 names, in it so many names are gone from the 8th, 5th or 7th newest on, and the
  // tiers after it lose nothing.
  lemma WhereDeletionStops(m: Objects, t: DateTime, tier: nat, n: nat, k: string)
    requires Valid(t) && SweepTime(m) == Some(t)
    ensures var after, dump := Sweep(m, Some(Deleting(tier, n))), m[Newest(Tier(m, "daily/").Keys)];
            var d := Tier(m, "daily/");
            var w := Promote(Tier(m, "weekly/"), Monday(t), KeyFor("weekly/", t), dump);
            var mo := Promote(Tier(m, "monthly/"), t.day == 1, KeyFor("monthly/", t), dump);
            && (k in Tier(after, "daily/") <==>
                  k in d && (|Above(d.Keys, k)| < 7 || (tier == 0 && 7 + n <= |Above(d.Keys, k)|)))
            && (k in Tier(after, "weekly/") <==>
                  k in w && (|Above(w.Keys, k)| < 4 || tier == 0 || (tier == 1 && 4 + n <= |Above(w.Keys, k)|)))
            && (k in Tier(after, "monthly/") <==>
                  k in mo && (|Above(mo.Keys, k)| < 6 || tier < 2 || (tier == 2 && 6 + n <= |Above(mo.Keys, k)|)))
  {
    var dump := m[Newest(Tier(m, DAILY).Keys)];
    hide Sweep, SweepTime, Tier, Untiered, Promote, Trim, Above, Monday, KeyFor, Valid, IsNewest, Limit;
    var fault := Some(Deleting(tier, n));
    SweepByTier(m, t, fault);
    assert DAILY == "daily/" && WEEKLY == "weekly/" && MONTHLY == "monthly/";
    StopsIn(Tier(m, DAILY), 7, Limit(fault, 0), k);
    StopsIn(Promote(Tier(m, WEEKLY), Monday(t), KeyFor(WEEKLY, t), dump), 4, Limit(fault, 1), k);
    StopsIn(Promote(Tier(m, MONTHLY), FirstOfMonth(t), KeyFor(MONTHLY, t), dump), 6, Limit(fault, 2), k);
    LimitsAre(tier, n);
  }

  lemma StopsIn(x: Objects, keep: nat, limit: Option<nat>, k: string)
    ensures k in Trim(x, keep, limit) <==>
            k in x && (|Above(x.Keys, k)| < keep || (limit.Some? && keep + limit.value <= |Above(x.Keys, k)|))
  {
    hide Above;
  }

  lemma LimitsAre(tier: nat, n: nat)
    ensures var fault := Some(Deleting(tier, n));
            && Limit(fault, 0) == (if tier == 0 then Some(n) else None)
            && Limit(fault, 1) == (if tier == 0 then Some(0) else if tier == 1 then Some(n) else None)
            && Limit(fault, 2) == (if tier < 2 then Some(0) else if tier == 2 then Some(n) else None)
  {
  }

  lemma PromotedByTier(m: Objects, t: DateTime, dump: Dump, fault: Option<Fault>)
    requires Valid(t)
    ensures var a := Promoted(m, t, dump, fault);
            && Tier(a, DAILY) == Tier(m, DAILY)
            && Tier(a, WEEKLY) == Promote(Tier(m, WEEKLY), Monday(t) && Passes(fault, 1), KeyFor(WEEKLY, t), dump)
            && Tier(a, MONTHLY) == Promote(Tier(m, MONTHLY), FirstOfMonth(t) && Passes(fault, 2), KeyFor(MONTHLY, t), dump)
            && Tier(a, ANNUAL) == Promote(Tier(m, ANNUAL), NewYear(t) && Passes(fault, 3), KeyFor(ANNUAL, t), dump)
            && Untiered(a) == Untiered(m)
  {
    PrefixesApart();
    hide Apart, Stamp, Monday, FirstOfMonth, NewYear, Passes, Promote, Tier, Untiered;
    var rest := Stamp(t) + SUFFIX;
    var dw, dm, dy := Monday(t) && Passes(fault, 1), FirstOfMonth(t) && Passes(fault, 2), NewYear(t) && Passes(fault, 3);
    var w := Promote(m, dw, WEEKLY + rest, dump);
    var mo := Promote(w, dm, MONTHLY + rest, dump);
    PromoteUntiered(m, dw, WEEKLY, rest, dump);
    PromoteUntiered(w, dm, MONTHLY, rest, dump);
    PromoteUntiered(mo, dy, ANNUAL, rest, dump);
    TierPromote(m, dw, WEEKLY, rest, dump, DAILY);
    TierPromote(m, dw, WEEKLY, rest, dump, MONTHLY);
    TierPromote(m, dw, WEEKLY, rest, dump, ANNUAL);
    TierPromote(w, dm, MONTHLY, rest, dump, DAILY);
    TierPromote(w, dm, MONTHLY, rest, dump, WEEKLY);
    TierPromote(w, dm, MONTHLY, rest, dump, ANNUAL);
    TierPromote(mo, dy, ANNUAL, rest, dump, DAILY);
    TierPromote(mo, dy, ANNUAL, rest, dump, WEEKLY);
    TierPromote(mo, dy, ANNUAL, rest, dump, MONTHLY);
  }

  lemma PromoteUntiered(m: Objects, due: bool, p: string, rest: string, dump: Dump)
    requires p == DAILY || p == WEEKLY || p == MONTHLY || p == ANNUAL
    ensures Untiered(Promote(m, due, p + rest, dump)) == Untiered(m)
  {
    assert StartsWith(p + rest, p);
  }

  lemma PrunedByTier(m: Objects, fault: Option<Fault>)
    ensures var r := Pruned(m, fault);
            && Tier(r, DAILY) == Trim(Tier(m, DAILY), KEEP_DAILY, Limit(fault, 0))
            && Tier(r, WEEKLY) == Trim(Tier(m, WEEKLY), KEEP_WEEKLY, Limit(fault, 1))
            && Tier(r, MONTHLY) == Trim(Tier(m, MONTHLY), KEEP_MONTHLY, Limit(fault, 2))
            && Tier(r, ANNUAL) == Tier(m, ANNUAL)
            && Untiered(r) == Untiered(m)
  {
    PrefixesApart();
    hide Apart, Prune, Tier, Untiered, Limit;
    var ld, lw, lm := Limit(fault, 0), Limit(fault, 1), Limit(fault, 2);
    var d := Prune(m, DAILY, KEEP_DAILY, ld);
    var w := Prune(d, WEEKLY, KEEP_WEEKLY, lw);
    TierPrune(m, DAILY, KEEP_DAILY, ld, WEEKLY);
    TierPrune(m, DAILY, KEEP_DAILY, ld, MONTHLY);
    TierPrune(m, DAILY, KEEP_DAILY, ld, ANNUAL);
    TierPrune(d, WEEKLY, KEEP_WEEKLY, lw, DAILY);
    TierPrune(d, WEEKLY, KEEP_WEEKLY, lw, MONTHLY);
    TierPrune(d, WEEKLY, KEEP_WEEKLY, lw, ANNUAL);
    TierPrune(w, MONTHLY, KEEP_MONTHLY, lm, DAILY);
    TierPrune(w, MONTHLY, KEEP_MONTHLY, lm, WEEKLY);
    TierPrune(w, MONTHLY, KEEP_MONTHLY, lm, ANNUAL);
    PruneUntiered(m, DAILY, KEEP_DAILY, ld);
    PruneUntiered(d, WEEKLY, KEEP_WEEKLY, lw);
    PruneUntiered(w, MONTHLY, KEEP_MONTHLY, lm);
  }

  lemma PruneUntiered(m: Objects, p: string, n: nat, limit: Option<nat>)
    requires p == DAILY || p == WEEKLY || p == MONTHLY || p == ANNUAL
    ensures Untiered(Prune(m, p, n, limit)) == Untiered(m)
  {
    hide Spared, StartsWith;
  }

  // Stopping before the first deletion deletes nothing.
  lemma PruneNothing(m: Objects, prefix: string, n: nat)
    ensures Prune(m, prefix, n, Some(0)) == m
  {
  }

  // --- The sweep as it runs --------------------------------------------------------------

  method InsertName(s: seq<string>, k: string) returns (r: seq<string>)
    requires Descending(s) && k !in s
    ensures Descending(r) && Entries(r) == Entries(s) + {k}
  {
    var i := 0;
    while i < |s| && Less(k, s[i])
      invariant 0 <= i <= |s|
      invariant forall j :: 0 <= j < i ==> Less(k, s[j])
    {
      i := i + 1;
    }
    r := s[..i] + [k] + s[i..];
    forall j | i <= j < |s| ensures Less(s[j], k) {
      LessTotal(k, s[i]);
      assert k != s[i];
      if i < j {
        LessTransitive(s[j], s[i], k);
      }
    }
    hide Less;
  }

  lemma FirstIsNewest(s: seq<string>)
    requires Descending(s) && s != []
    ensures IsNewest(Entries(s), s[0])
  {
    hide Less;
  }

  // Being in the deleted part of a listing is not being spared.
  lemma RankSplit(s: seq<string>, keep: nat, limit: Option<nat>, k: string)
    requires Descending(s)
    ensures (exists j :: keep <= j < |s| && (limit.None? || j < keep + limit.value) && s[j] == k) <==>
            k in Entries(s) && k !in Spared(Entries(s), keep, limit)
  {
    if k in Entries(s) {
      var i :| 0 <= i < |s| && s[i] == k;
      AboveIndex(s, i);
      if j :| keep <= j < |s| && (limit.None? || j < keep + limit.value) && s[j] == k {
        AboveIndex(s, j);
      }
    }
  }

  // Deleting that part of a tier is the prune.
  lemma PruneDeletes(m: Objects, prefix: string, keep: nat, limit: Option<nat>, s: seq<string>, gone: set<string>)
    requires Descending(s) && Entries(s) == Tier(m, prefix).Keys
    requires forall k :: k in gone <==> exists j :: keep <= j < |s| && (limit.None? || j < keep + limit.value) && s[j] == k
    ensures m - gone == Prune(m, prefix, keep, limit)
  {
    hide Spared, Descending, StartsWith;
    forall k | k in m ensures k in gone <==> StartsWith(k, prefix) && k !in Spared(Entries(s), keep, limit) {
      RankSplit(s, keep, limit, k);
      assert k in Entries(s) <==> k in Tier(m, prefix);
    }
  }

  class BackupBucket {
    var objects: Objects

    constructor ()
      ensures objects == map[]
    {
      objects := map[];
    }

    // Every listed name, newest first.
    method ListSortedDesc(prefix: string) returns (s: seq<string>)
      ensures Descending(s) && Entries(s) == Tier(objects, prefix).Keys
      ensures forall k :: k in s <==> k in objects && prefix <= k
    {
      hide Less, Tier;
      var rest := Tier(objects, prefix).Keys;
      s := [];
      while rest != {}
        invariant Descending(s) && rest + Entries(s) == Tier(objects, prefix).Keys
        invariant rest * Entries(s) == {}
        decreases |rest|
      {
        var k :| k in rest;
        assert k !in s by { assert k !in Entries(s); }
        s := InsertName(s, k);
        rest := rest - {k};
      }
      TierHolds(objects, prefix);
      assert forall k :: k in s <==> k in Entries(s);
    }

    method CopyTo(prefix: string, t: DateTime, source: string)
      requires Valid(t) && source in objects
      modifies this
      ensures objects == Promote(old(objects), true, KeyFor(prefix, t), old(objects[source]))
      ensures objects == if exists k :: k in old(objects) && KeyFor(prefix, t) <= k then old(objects)
                         else old(objects)[KeyFor(prefix, t) := old(objects[source])]
      ensures source in objects && objects[source] == old(objects[source])
    {
      var target := KeyFor(prefix, t);
      if !Listed(objects, target) {
        assert StartsWith(target, target);
        objects := objects[target := objects[source]];
      }
    }

    // Deletes from the keep-th name on; with a limit, the deletion after that many raises.
    method DeleteOld(prefix: string, keep: nat, limit: Option<nat>)
      modifies this
      ensures objects == Prune(old(objects), prefix, keep, limit)
    {
      var s := ListSortedDesc(prefix);
      ghost var before := objects;
      ghost var gone: set<string> := {};
      var i := keep;
      while i < |s| && (limit.None? || i < keep + limit.value)
        invariant keep <= i && (i <= |s| || i == keep) && (limit.None? || i <= keep + limit.value)
        invariant forall k :: k in gone <==> exists j :: keep <= j < i && j < |s| && s[j] == k
        invariant objects == before - gone
        decreases |s| - i
      {
        objects := objects - {s[i]};
        gone := gone + {s[i]};
        i := i + 1;
      }
      PruneDeletes(before, prefix, keep, limit, s, gone);
    }

    method PromoteAll(t: DateTime, newest: string, fault: Option<Fault>)
      requires Valid(t) && newest in objects
      modifies this
      ensures objects == Promoted(old(objects), t, old(objects[newest]), fault)
    {
      if Passes(fault, 1) && Weekday(t) == 0 {
        CopyTo(WEEKLY, t, newest);
      }
      if Passes(fault, 2) && t.day == 1 {
        CopyTo(MONTHLY, t, newest);
      }
      if Passes(fault, 3) && t.month == 1 && t.day == 1 {
        CopyTo(ANNUAL, t, newest);
      }
    }

    method PruneAll(fault: Option<Fault>)
      modifies this
      ensures objects == Pruned(old(objects), fault)
    {
      PruneNothing(objects, DAILY, KEEP_DAILY);
      PruneNothing(objects, WEEKLY, KEEP_WEEKLY);
      PruneNothing(objects, MONTHLY, KEEP_MONTHLY);
      if fault.Some? && fault.value.Copying? {
        return;
      }
      DeleteOld(DAILY, KEEP_DAILY, Limit(fault, 0));
      DeleteOld(WEEKLY, KEEP_WEEKLY, Limit(fault, 1));
      DeleteOld(MONTHLY, KEEP_MONTHLY, Limit(fault, 2));
    }

    method SundownSweep(fault: Option<Fault>)
      modifies this
      ensures objects == Sweep(old(objects), fault)
    {
      var daily := ListSortedDesc(DAILY);
      if daily == [] {
        assert Tier(objects, DAILY).Keys == {};
        return;
      }
      var newest := daily[0];
      FirstIsNewest(daily);
      assert newest in Entries(daily) && newest in Tier(objects, DAILY).Keys;
      NewestUnique(Tier(objects, DAILY).Keys, newest, Newest(Tier(objects, DAILY).Keys));
      var time := ParseKey(newest);
      if time.None? {
        return;
      }
      hide Tier, ParseKey, Promoted, Pruned;
      ParsedIsValid(newest);
      PromoteAll(time.value, newest, fault);
      PruneAll(fault);
    }

    // daily_pg_dump_to_r2 once the upload is done. When pg_dump then turns out to have
    // failed, its truncated object stays and the sweep is skipped, which is a sweep that
    // raises before its first step; a sweep that raises is logged only.
    method DailyDump(now: DateTime, dump: Dump, dumpFails: bool, fault: Option<Fault>)
      requires Valid(now)
      modifies this
      ensures objects ==
              Sweep(old(objects)[KeyFor(DAILY, now) := dump], if dumpFails then Some(Copying(0)) else fault)
    {
      objects := objects[KeyFor(DAILY, now) := dump];
      if dumpFails {
        NoSweep(objects);
        return;
      }
      SundownSweep(fault);
    }
  }

  // A sweep that raises before its first step changes nothing.
  lemma NoSweep(m: Objects)
    ensures Sweep(m, Some(Copying(0))) == m
  {
    hide Tier, KeyFor, ParseKey;
    PruneNothing(m, DAILY, KEEP_DAILY);
    PruneNothing(m, WEEKLY, KEEP_WEEKLY);
    PruneNothing(m, MONTHLY, KEEP_MONTHLY);
    if SweepTime(m).Some? {
      ParsedIsValid(Newest(Tier(m, DAILY).Keys));
    }
    hide Prune;
  }

  lemma ParsedIsValid(key: string)
    ensures ParseKey(key).Some? ==> Valid(ParseKey(key).value)
  {
    hide Match;
  }
}
