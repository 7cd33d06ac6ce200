/** Runs of free blocks, true standing for a used block. */
module FreeRuns {

  /** n free blocks from block i on. */
  ghost predicate FreeRun(u: seq<bool>, i: nat, n: nat) {
    i + n <= |u| && forall k :: i <= k < i + n ==> !u[k]
  }

  /** The least start of n consecutive free blocks. */
  ghost predicate FirstFit(u: seq<bool>, i: nat, n: nat) {
    FreeRun(u, i, n) && forall j: nat :: j < i ==> !FreeRun(u, j, n)
  }

  /** How many free blocks end right in front of block i. */
  function FreeBefore(u: seq<bool>, i: nat): (n: nat)
    requires i <= |u|
    ensures n <= i
  {
    if i == 0 || u[i - 1] then 0 else 1 + FreeBefore(u, i - 1)
  }

  /** How many free blocks start at block i. */
  function FreeAfter(u: seq<bool>, i: nat): (n: nat)
    requires i <= |u|
    ensures i + n <= |u|
    decreases |u| - i
  {
    if i == |u| || u[i] then 0 else 1 + FreeAfter(u, i + 1)
  }

  /** Among the first i blocks, the length of the longest run of free ones that a used one ends. */
  function LongestEnded(u: seq<bool>, i: nat): (n: nat)
    requires i <= |u|
    ensures n <= i
  {
    if i == 0 then 0
    else
      var n := LongestEnded(u, i - 1);
      if u[i - 1] && FreeBefore(u, i - 1) > n then FreeBefore(u, i - 1) else n
  }

  /** A run of free blocks and the used block that ends it, among the first i. */
  ghost predicate EndedRun(u: seq<bool>, i: nat, j: nat, n: nat) {
    j + n < i <= |u| && FreeRun(u, j, n) && u[j + n]
  }

  lemma {:induction false} BeforeIs(u: seq<bool>, i: nat)
    requires i <= |u|
    ensures FreeRun(u, i - FreeBefore(u, i), FreeBefore(u, i))
    ensures FreeBefore(u, i) < i ==> u[i - FreeBefore(u, i) - 1]
  {
    if i > 0 && !u[i - 1] { BeforeIs(u, i - 1); }
  }

  lemma {:induction false} AfterIs(u: seq<bool>, i: nat)
    requires i <= |u|
    ensures FreeRun(u, i, FreeAfter(u, i))
    ensures i + FreeAfter(u, i) < |u| ==> u[i + FreeAfter(u, i)]
    decreases |u| - i
  {
    if i < |u| && !u[i] { AfterIs(u, i + 1); }
  }

  /** A run that ends in front of block i is no longer than the one FreeBefore measures. */
  lemma {:induction false} BeforeMost(u: seq<bool>, j: nat, n: nat)
    requires FreeRun(u, j, n)
    ensures n <= FreeBefore(u, j + n)
  {
    if n > 0 { BeforeMost(u, j, n - 1); }
  }

  /** LongestEnded is the length of such a run, and none is longer. */
  lemma {:induction false} EndedIs(u: seq<bool>, i: nat)
    requires i <= |u|
    ensures LongestEnded(u, i) == 0 || exists j: nat :: EndedRun(u, i, j, LongestEnded(u, i))
    ensures forall j: nat, n: nat :: EndedRun(u, i, j, n) ==> n <= LongestEnded(u, i)
  {
    if i > 0 {
      EndedIs(u, i - 1);
      var n, b := LongestEnded(u, i - 1), FreeBefore(u, i - 1);
      forall j: nat, m: nat | EndedRun(u, i, j, m)
        ensures m <= LongestEnded(u, i)
      {
        if j + m == i - 1 { BeforeMost(u, j, m); } else { assert EndedRun(u, i - 1, j, m); }
      }
      if u[i - 1] && b > n {
        BeforeIs(u, i - 1);
        assert EndedRun(u, i, i - 1 - b, b);
      } else if n > 0 {
        var j: nat :| EndedRun(u, i - 1, j, n);
        assert EndedRun(u, i, j, n);
      }
    }
  }

  // ---- bounds of all runs ----------------------------------------------------------------

  /** No run of free blocks is longer than most. */
  ghost predicate Bounds(u: seq<bool>, most: nat) {
    forall j: nat, n: nat :: FreeRun(u, j, n) ==> n <= most
  }

  /** A run is ended by a used block, or by the end. */
  lemma {:induction false} RunEnds(u: seq<bool>, j: nat, n: nat)
    requires FreeRun(u, j, n)
    ensures n <= LongestEnded(u, |u|) || n <= FreeBefore(u, |u|)
  {
    var m := FreeAfter(u, j + n);
    AfterIs(u, j + n);
    assert FreeRun(u, j, n + m);
    if j + n + m < |u| {
      EndedIs(u, |u|);
      assert EndedRun(u, |u|, j, n + m);
    } else {
      BeforeMost(u, j, n + m);
    }
  }

  /** The longest run is one that a used block ends, or the one behind the last used block. */
  lemma {:induction false} BoundsIff(u: seq<bool>, most: nat)
    ensures Bounds(u, most) <==> LongestEnded(u, |u|) <= most && FreeBefore(u, |u|) <= most
  {
    EndedIs(u, |u|);
    BeforeIs(u, |u|);
    if Bounds(u, most) {
      var n := LongestEnded(u, |u|);
      if n > 0 {
        var j: nat :| EndedRun(u, |u|, j, n);
        assert FreeRun(u, j, n);
      }
      assert FreeRun(u, |u| - FreeBefore(u, |u|), FreeBefore(u, |u|));
    } else {
      var j: nat, n: nat :| FreeRun(u, j, n) && n > most;
      RunEnds(u, j, n);
    }
  }

  /** v is u with n used blocks from block i on freed. */
  ghost predicate Freed(u: seq<bool>, v: seq<bool>, i: nat, n: nat) {
    && |v| == |u| && i + n <= |u| && n > 0
    && (forall k :: i <= k < i + n ==> u[k] && !v[k])
    && (forall k :: 0 <= k < |u| && !(i <= k < i + n) ==> v[k] == u[k])
  }

  /** Freed blocks join the free blocks on either side: a bound of all runs is one of the runs
      there were and of the joined one. */
  lemma {:induction false} FreedBounds(u: seq<bool>, v: seq<bool>, i: nat, n: nat, most: nat)
    requires Freed(u, v, i, n)
    ensures Bounds(v, most) <==> Bounds(u, most) && FreeBefore(u, i) + n + FreeAfter(u, i + n) <= most
  {
    var l, r := FreeBefore(u, i), FreeAfter(u, i + n);
    BeforeIs(u, i);
    AfterIs(u, i + n);
    if Bounds(v, most) {
      assert FreeRun(v, i - l, l + n + r);
      forall j: nat, m: nat | FreeRun(u, j, m)
        ensures m <= most
      {
        assert FreeRun(v, j, m);
      }
    }
    if Bounds(u, most) && l + n + r <= most {
      forall j: nat, m: nat | FreeRun(v, j, m)
        ensures m <= most
      {
        FreedRun(u, v, i, n, j, m);
      }
    }
  }

  lemma {:induction false} FreedRun(u: seq<bool>, v: seq<bool>, i: nat, n: nat, j: nat, m: nat)
    requires Freed(u, v, i, n) && FreeRun(v, j, m)
    ensures FreeRun(u, j, m) || m <= FreeBefore(u, i) + n + FreeAfter(u, i + n)
  {
    var l, r := FreeBefore(u, i), FreeAfter(u, i + n);
    BeforeIs(u, i);
    AfterIs(u, i + n);
    assert l < i ==> v[i - l - 1];
    assert i + n + r < |u| ==> v[i + n + r];
    if j < i + n && i < j + m {
      assert j >= i - l && j + m <= i + n + r;
    } else {
      forall k | j <= k < j + m
        ensures !u[k]
      {
        assert !v[k];
      }
    }
  }
}
