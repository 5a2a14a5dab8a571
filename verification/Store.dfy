// The single write path of the platform: records go to a per-connection staging
// table and are merged from there into the target table, where a row whose key is
// already present is skipped (first write wins).
module Store {

  datatype Option<+T> = None | Some(value: T)

  // One record of a batch: the conflict columns and the remaining columns.
  datatype Record<K, V> = Record(key: K, val: V)

  // INSERT ... ON CONFLICT DO NOTHING, one row.
  function Insert<K, V>(t: map<K, V>, r: Record<K, V>): map<K, V> {
    if r.key in t then t else t[r.key := r.val]
  }

  // The same statement fed by a whole batch in scan order.
  function InsertAll<K, V>(t: map<K, V>, rs: seq<Record<K, V>>): map<K, V> {
    if rs == [] then t else Insert(InsertAll(t, rs[..|rs| - 1]), rs[|rs| - 1])
  }

  predicate Mentions<K(==), V>(rs: seq<Record<K, V>>, k: K) {
    exists i :: 0 <= i < |rs| && rs[i].key == k
  }

  // The first value a batch offers for a key.
  function FirstFor<K(==), V>(rs: seq<Record<K, V>>, k: K): (v: V)
    requires Mentions(rs, k)
    ensures exists i :: 0 <= i < |rs| && rs[i] == Record(k, v) && forall j :: 0 <= j < i ==> rs[j].key != k
  {
    var front := rs[..|rs| - 1];
    assert forall i :: 0 <= i < |front| ==> front[i] == rs[i];
    if Mentions(front, k) then FirstFor(front, k) else rs[|rs| - 1].val
  }

  // What the merge means: the old rows are untouched, and every other key of the
  // batch gets the first value the batch holds for it.
  lemma {:induction false} MergeMeaning<K, V>(t: map<K, V>, rs: seq<Record<K, V>>, k: K)
    ensures k in InsertAll(t, rs) <==> k in t || Mentions(rs, k)
    ensures k in t ==> InsertAll(t, rs)[k] == t[k]
    ensures k !in t && Mentions(rs, k) ==> InsertAll(t, rs)[k] == FirstFor(rs, k)
  {
    if rs == [] {
    } else {
      var front := rs[..|rs| - 1];
      MergeMeaning(t, front, k);
      assert forall i :: 0 <= i < |front| ==> front[i] == rs[i];
      assert Mentions(rs, k) <==> Mentions(front, k) || rs[|rs| - 1].key == k;
    }
  }

  // Splitting a batch anywhere gives the same table.
  lemma {:induction false} Split<K, V>(t: map<K, V>, a: seq<Record<K, V>>, b: seq<Record<K, V>>)
    ensures InsertAll(t, a + b) == InsertAll(InsertAll(t, a), b)
    decreases |b|
  {
    if b == [] {
      assert a + b == a;
    } else {
      var front := b[..|b| - 1];
      Split(t, a, front);
      assert (a + b)[..|a + b| - 1] == a + front;
      assert (a + b)[|a + b| - 1] == b[|b| - 1];
    }
  }

  predicate DistinctKeys<K(==), V>(rs: seq<Record<K, V>>) {
    forall i, j :: 0 <= i < j < |rs| ==> rs[i].key != rs[j].key
  }

  // The size of a batch is the number of rows it inserts exactly when its keys are pairwise
  // distinct and none of them is in the table; otherwise it inserts fewer.
  lemma {:induction false} InsertedCount<K, V>(t: map<K, V>, rs: seq<Record<K, V>>)
    ensures |t| <= |InsertAll(t, rs)| <= |t| + |rs|
    ensures |InsertAll(t, rs)| == |t| + |rs| <==> DistinctKeys(rs) && forall i :: 0 <= i < |rs| ==> rs[i].key !in t
  {
    if rs == [] {
    } else {
      var front, last := rs[..|rs| - 1], rs[|rs| - 1];
      InsertedCount(t, front);
      MergeMeaning(t, front, last.key);
      InsertedOne(InsertAll(t, front), last);
      assert forall i :: 0 <= i < |front| ==> front[i] == rs[i];
      hide Insert;
      if Mentions(front, last.key) {
        var i :| 0 <= i < |front| && front[i].key == last.key;
        assert !DistinctKeys(rs);
      }
    }
  }

  lemma InsertedOne<K, V>(t: map<K, V>, r: Record<K, V>)
    ensures |Insert(t, r)| == if r.key in t then |t| else |t| + 1
  {
    if r.key !in t {
      assert t[r.key := r.val].Keys == t.Keys + {r.key};
    }
  }

  // A batch whose keys are all present changes nothing.
  lemma {:induction false} Absorbed<K, V>(t: map<K, V>, rs: seq<Record<K, V>>)
    requires forall i :: 0 <= i < |rs| ==> rs[i].key in t
    ensures InsertAll(t, rs) == t
  {
    if rs == [] {
    } else {
      Absorbed(t, rs[..|rs| - 1]);
    }
  }

  // Every key of a batch is present once the batch is merged.
  lemma AllPresent<K, V>(t: map<K, V>, rs: seq<Record<K, V>>)
    ensures forall i :: 0 <= i < |rs| ==> rs[i].key in InsertAll(t, rs)
    ensures forall k :: k in t ==> k in InsertAll(t, rs) && InsertAll(t, rs)[k] == t[k]
  {
    forall i | 0 <= i < |rs| ensures rs[i].key in InsertAll(t, rs) {
      assert Mentions(rs, rs[i].key);
      MergeMeaning(t, rs, rs[i].key);
    }
    forall k | k in t ensures k in InsertAll(t, rs) && InsertAll(t, rs)[k] == t[k] {
      MergeMeaning(t, rs, k);
    }
  }

  // Replaying a batch, or any prefix of it, before or after the batch itself is a no-op.
  lemma ReplayPrefix<K, V>(t: map<K, V>, a: seq<Record<K, V>>, b: seq<Record<K, V>>)
    ensures InsertAll(InsertAll(t, a), a + b) == InsertAll(t, a + b)
    ensures InsertAll(InsertAll(t, a + b), a) == InsertAll(t, a + b)
  {
    AllPresent(t, a);
    Absorbed(InsertAll(t, a), a);
    Split(InsertAll(t, a), a, b);
    Split(t, a, b);
    AllPresent(t, a + b);
    forall i | 0 <= i < |a| ensures a[i].key in InsertAll(t, a + b) { assert (a + b)[i] == a[i]; }
    Absorbed(InsertAll(t, a + b), a);
  }

  // Batches over disjoint keys commute.
  lemma DisjointCommute<K, V>(t: map<K, V>, a: seq<Record<K, V>>, b: seq<Record<K, V>>)
    requires forall i, j :: 0 <= i < |a| && 0 <= j < |b| ==> a[i].key != b[j].key
    ensures InsertAll(InsertAll(t, a), b) == InsertAll(InsertAll(t, b), a)
  {
    var l, r := InsertAll(InsertAll(t, a), b), InsertAll(InsertAll(t, b), a);
    forall k | k in l ensures k in r && l[k] == r[k] { DisjointAt(t, a, b, k); }
    forall k | k in r ensures k in l { DisjointAt(t, a, b, k); }
    assert l.Keys == r.Keys;
  }

  lemma DisjointAt<K, V>(t: map<K, V>, a: seq<Record<K, V>>, b: seq<Record<K, V>>, k: K)
    requires forall i, j :: 0 <= i < |a| && 0 <= j < |b| ==> a[i].key != b[j].key
    ensures k in InsertAll(InsertAll(t, a), b) <==> k in InsertAll(InsertAll(t, b), a)
    ensures k in InsertAll(InsertAll(t, a), b) ==>
              InsertAll(InsertAll(t, a), b)[k] == InsertAll(InsertAll(t, b), a)[k]
  {
    MergeMeaning(t, a, k);
    MergeMeaning(InsertAll(t, a), b, k);
    MergeMeaning(t, b, k);
    MergeMeaning(InsertAll(t, b), a, k);
    if Mentions(a, k) {
      var i :| 0 <= i < |a| && a[i].key == k;
      assert !Mentions(b, k);
    }
  }

  // A target table and, per database connection, its staging table.
  class Hypertable<K(==), V> {
    var rows: map<K, V>

    constructor (init: map<K, V>)
      ensures rows == init
    {
      rows := init;
    }
  }

  class Connection<K(==), V> {
    var staging: seq<Record<K, V>>

    constructor ()
      ensures staging == []
    {
      staging := [];
    }
  }

  // copy_into_hypertable. The count is the size of the batch; InsertedCount says when that
  // is what was new.
  method CopyIntoHypertable<K, V>(conn: Connection<K, V>, target: Hypertable<K, V>, records: seq<Record<K, V>>)
    returns (n: nat)
    modifies conn, target
    ensures target.rows == InsertAll(old(target.rows), records)
    ensures n == |records|
    ensures conn.staging == if records == [] then old(conn.staging) else records
  {
    if records == [] {
      return 0;
    }
    conn.staging := [];
    conn.staging := conn.staging + records;
    assert conn.staging == records;
    hide Insert;
    var i := 0;
    while i < |conn.staging|
      invariant 0 <= i <= |records| && conn.staging == records
      invariant target.rows == InsertAll(old(target.rows), records[..i])
    {
      assert records[..i + 1][..i] == records[..i];
      target.rows := Insert(target.rows, conn.staging[i]);
      i := i + 1;
    }
    assert records[..i] == records;
    n := |records|;
  }
}
