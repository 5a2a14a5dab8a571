// Time grids: time_bucket as a floor on the epoch.
module Grid {

  predicate OnGrid(ts: int, width: int)
    requires width > 0
  {
    ts % width == 0
  }

  // time_bucket(width, ts).
  function FloorTo(ts: int, width: int): int
    requires width > 0
  {
    ts - ts % width
  }

  lemma MulSign(w: int, d: int)
    requires w > 0
    ensures d >= 1 ==> w * d >= w
    ensures d <= -1 ==> w * d <= -w
    ensures d == 0 ==> w * d == 0
  {
  }

  lemma Multiple(q: int, w: int)
    requires w > 0
    ensures OnGrid(w * q, w)
  {
    var r, d := (w * q) % w, (w * q) / w;
    assert w * q == w * d + r;
    assert w * (q - d) == r;
    MulSign(w, q - d);
  }

  lemma Floor(ts: int, w: int)
    requires w > 0
    ensures OnGrid(FloorTo(ts, w), w)
    ensures FloorTo(ts, w) <= ts < FloorTo(ts, w) + w
  {
    assert ts - ts % w == w * (ts / w);
    Multiple(ts / w, w);
  }

  // The grid point at or below ts is the only one within a step of it.
  lemma FloorUnique(b: int, ts: int, w: int)
    requires w > 0 && OnGrid(b, w) && b <= ts < b + w
    ensures FloorTo(ts, w) == b
  {
    Floor(ts, w);
    var c := FloorTo(ts, w);
    assert b == w * (b / w) && c == w * (c / w);
    assert c - b == w * (c / w - b / w);
    MulSign(w, c / w - b / w);
  }

  lemma OffGrid(b: int, ts: int, w: int)
    requires w > 0 && OnGrid(b, w) && b < ts < b + w
    ensures !OnGrid(ts, w)
  {
    FloorUnique(b, ts, w);
  }

  lemma GridShift(d: int, w: int)
    requires w > 0
    ensures OnGrid(d, w) <==> OnGrid(d - w, w)
    ensures OnGrid(0, w)
  {
    assert OnGrid(d, w) ==> d - w == w * (d / w - 1);
    assert OnGrid(d - w, w) ==> d == w * ((d - w) / w + 1);
    Multiple(d / w - 1, w);
    Multiple((d - w) / w + 1, w);
  }

  // The grid point n steps after lo.
  function Step(lo: int, n: nat, w: int): int {
    if n == 0 then lo else Step(lo, n - 1, w) + w
  }

  lemma {:induction false} StepOnGrid(lo: int, n: nat, w: int)
    requires w > 0 && OnGrid(lo, w)
    ensures OnGrid(Step(lo, n, w), w) && lo <= Step(lo, n, w)
  {
    if n == 0 {
    } else {
      StepOnGrid(lo, n - 1, w);
      var p := Step(lo, n - 1, w);
      assert p + w == w * (p / w + 1);
      Multiple(p / w + 1, w);
    }
  }

  lemma {:induction false} StepIsMultiple(lo: int, n: nat, w: int)
    ensures Step(lo, n, w) == lo + n * w
  {
    if n == 0 {
    } else {
      StepIsMultiple(lo, n - 1, w);
    }
  }

  // A coarse bucket is a whole number of fine steps.
  lemma CoarseSteps(lo: int, fine: int, coarse: int) returns (n: nat)
    requires fine > 0 && coarse > 0 && OnGrid(coarse, fine)
    ensures Step(lo, n, fine) == lo + coarse
  {
    n := coarse / fine;
    StepIsMultiple(lo, n, fine);
  }

  lemma Refine(b: int, fine: int, coarse: int)
    requires fine > 0 && coarse > 0 && OnGrid(coarse, fine) && OnGrid(b, coarse)
    ensures OnGrid(b, fine)
  {
    var n := coarse / fine;
    assert b == coarse * (b / coarse) && coarse == fine * n;
    assert b == fine * (n * (b / coarse)) by { Assoc(fine, n, b / coarse); }
    Multiple(n * (b / coarse), fine);
  }

  lemma Assoc(a: int, b: int, c: int)
    ensures (a * b) * c == a * (b * c)
  {
  }
}
