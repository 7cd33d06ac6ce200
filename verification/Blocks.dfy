/** What the two bit arrays of a node say: which runs of blocks are allocated. */
module Blocks {
  import opened Word32
  import opened Bits
  import opened Bitmap
  import opened FreeRuns
  import opened Freeing

  /** Allocations by first block, with their number of blocks. */
  type Live = map<nat, nat>

  predicate Covers(l: Live, s: nat, b: int) { s in l && s <= b < s + l[s] }

  /** A block that another block of the same allocation follows. */
  predicate Continues(l: Live, s: nat, b: int) { Covers(l, s, b) && b + 1 < s + l[s] }

  /** Allocations lie within n blocks and do not overlap. */
  ghost predicate Separate(l: Live, n: nat) {
    && (forall s :: s in l ==> l[s] > 0 && s + l[s] <= n)
    && (forall s, t :: s in l && t in l && s < t ==> s + l[s] <= t)
  }

  /** u has exactly the bits of the allocated blocks, c those of the blocks that are not the
      last of their allocation. */
  ghost predicate Encodes(u: seq<bool>, c: seq<bool>, l: Live) {
    && |u| == |c| && Separate(l, |u|)
    && (forall b :: 0 <= b < |u| ==> (u[b] <==> exists s :: Covers(l, s, b)))
    && (forall b :: 0 <= b < |c| ==> (c[b] <==> exists s :: Continues(l, s, b)))
  }

  /** The blocks freed when, from block i of the allocation at start, only keep stay; none when
      nothing would stay or nothing would go. */
  function Tail(l: Live, start: nat, i: nat, keep: nat): nat {
    if Covers(l, start, i) && 0 < keep < start + l[start] - i then start + l[start] - i - keep else 0
  }

  function Shortened(l: Live, start: nat, i: nat, keep: nat): Live {
    if Tail(l, start, i, keep) > 0 then l[start := i - start + keep] else l
  }

  // ---- bits changed -----------------------------------------------------------------------

  ghost predicate Sets(u: seq<bool>, v: seq<bool>, i: nat, n: nat) {
    |v| == |u| && forall b :: 0 <= b < |u| ==> (v[b] <==> u[b] || i <= b < i + n)
  }

  ghost predicate Clears(u: seq<bool>, v: seq<bool>, i: nat, n: nat) {
    |v| == |u| && forall b :: 0 <= b < |u| ==> (v[b] <==> u[b] && !(i <= b < i + n))
  }

  lemma {:induction false} SetBitsOf(s: seq<Word>, r: seq<Word>, n: nat, i: nat, k: nat)
    requires SetIn(s, r, i, k) && n <= W * |s|
    ensures Sets(BitsOf(s, n), BitsOf(r, n), i, k)
  {
    var u, v := BitsOf(s, n), BitsOf(r, n);
    forall b | 0 <= b < n
      ensures v[b] <==> u[b] || i <= b < i + k
    {
      assert BitAt(r, b) <==> BitAt(s, b) || i <= b < i + k;
    }
  }

  lemma {:induction false} ClearBitsOf(s: seq<Word>, r: seq<Word>, n: nat, i: nat, k: nat)
    requires ClearIn(s, r, i, k) && n <= W * |s|
    ensures Clears(BitsOf(s, n), BitsOf(r, n), i, k)
  {
    var u, v := BitsOf(s, n), BitsOf(r, n);
    forall b | 0 <= b < n
      ensures v[b] <==> u[b] && !(i <= b < i + k)
    {
      assert BitAt(r, b) <==> BitAt(s, b) && !(i <= b < i + k);
    }
  }

  // ---- allocation -------------------------------------------------------------------------

  lemma {:induction false} FreeApart(u: seq<bool>, c: seq<bool>, l: Live, i: nat, n: nat)
    requires Encodes(u, c, l) && FreeRun(u, i, n) && n > 0
    ensures forall s :: s in l ==> s + l[s] <= i || i + n <= s
  {
    forall s | s in l
      ensures s + l[s] <= i || i + n <= s
    {
      var b := if s >= i then s else i;
      assert Covers(l, s, b) ==> b < |u| && u[b];
      assert i <= b < i + n ==> !u[b];
    }
  }

  /** Setting the bits of a free run adds the allocation. */
  lemma {:induction false} AllocEncodes(u: seq<bool>, c: seq<bool>, l: Live, i: nat, n: nat, v: seq<bool>, d: seq<bool>)
    requires Encodes(u, c, l) && FreeRun(u, i, n) && n > 0
    requires Sets(u, v, i, n) && Sets(c, d, i, n - 1)
    ensures i !in l && Encodes(v, d, l[i := n])
  {
    FreeApart(u, c, l, i, n);
    var m := l[i := n];
    forall b | 0 <= b < |v|
      ensures v[b] <==> exists s :: Covers(m, s, b)
    {
      if u[b] { var s :| Covers(l, s, b); assert Covers(m, s, b); }
      if i <= b < i + n { assert Covers(m, i, b); }
      if s :| Covers(m, s, b) && s != i { assert Covers(l, s, b); }
    }
    forall b | 0 <= b < |d|
      ensures d[b] <==> exists s :: Continues(m, s, b)
    {
      if c[b] { var s :| Continues(l, s, b); assert Continues(m, s, b); }
      if i <= b < i + n - 1 { assert Continues(m, i, b); }
      if s :| Continues(m, s, b) && s != i { assert Continues(l, s, b); }
    }
  }

  // ---- release and shrink --------------------------------------------------------------------

  lemma {:induction false} Elsewhere(l: Live, n: nat, i: nat, s: nat, b: int)
    requires Separate(l, n) && i in l && Covers(l, s, b) && s != i
    ensures !(i <= b < i + l[i])
  {
  }

  lemma {:induction false} OnlyOwner(l: Live, n: nat, s: nat, t: nat, b: int)
    requires Separate(l, n) && Covers(l, s, b) && Covers(l, t, b)
    ensures s == t
  {
  }

  /** From any block of an allocation the continue bits lead to its end. */
  lemma {:induction false} ExtentWithin(u: seq<bool>, c: seq<bool>, l: Live, s: nat, b: nat)
    requires Encodes(u, c, l) && Covers(l, s, b)
    ensures b + Extent(c, b) == s + l[s]
    decreases s + l[s] - b
  {
    if b + 1 < s + l[s] {
      assert Continues(l, s, b);
      ExtentWithin(u, c, l, s, b + 1);
    } else {
      if c[b] {
        var t :| Continues(l, t, b);
        OnlyOwner(l, |u|, s, t, b);
      }
    }
  }

  /** Clearing the bits of an allocation removes it. */
  lemma {:induction false} ReleaseEncodes(u: seq<bool>, c: seq<bool>, l: Live, i: nat, v: seq<bool>, d: seq<bool>)
    requires Encodes(u, c, l) && i in l && Clears(u, v, i, l[i]) && Clears(c, d, i, l[i])
    ensures Encodes(v, d, l - {i})
  {
    var m := l - {i};
    forall b | 0 <= b < |v|
      ensures v[b] <==> exists s :: Covers(m, s, b)
    {
      if v[b] { var s :| Covers(l, s, b); assert s != i; assert Covers(m, s, b); }
      if s :| Covers(m, s, b) {
        assert Covers(l, s, b);
        if s != i { Elsewhere(l, |u|, i, s, b); }
      }
    }
    forall b | 0 <= b < |d|
      ensures d[b] <==> exists s :: Continues(m, s, b)
    {
      if d[b] { var s :| Continues(l, s, b); assert s != i; assert Continues(m, s, b); }
      if s :| Continues(m, s, b) {
        assert Continues(l, s, b);
        if s != i { Elsewhere(l, |u|, i, s, b); }
      }
    }
  }

  /** The bits that release clears from block i on leave books in order, and as many blocks fewer
      as it counts, if and only if an allocation starts at block i. */
  lemma {:induction false} ReleaseExact(u: seq<bool>, c: seq<bool>, l: Live, i: nat, v: seq<bool>, d: seq<bool>)
    requires Encodes(u, c, l) && i < |u|
    requires Clears(u, v, i, Extent(c, i)) && Clears(c, d, i, Extent(c, i))
    ensures (exists m :: Encodes(v, d, m)) && Count(v) + Extent(c, i) == Count(u) <==> i in l
  {
    if i in l {
      assert Covers(l, i, i);
      ExtentWithin(u, c, l, i, i);
      ReleaseEncodes(u, c, l, i, v, d);
      UsedBlocks(u, c, l, i);
      CountCleared(u, v, i, l[i]);
    } else if u[i] {
      var s :| Covers(l, s, i);
      assert Continues(l, s, i - 1) && d[i - 1] && !v[i];
      NoneContinues(v, d, i - 1);
    } else {
      NothingCleared(u, c, l, i, v, d);
    }
  }

  /** A continue bit in front of a block that is not used is in nobody's books. */
  lemma {:induction false} NoneContinues(v: seq<bool>, d: seq<bool>, b: nat)
    requires b + 1 < |v| == |d| && d[b] && !v[b + 1]
    ensures forall m :: !Encodes(v, d, m)
  {
    forall m
      ensures !Encodes(v, d, m)
    {
      if Encodes(v, d, m) {
        var s :| Continues(m, s, b);
        assert Covers(m, s, b + 1);
        assert false;
      }
    }
  }

  lemma {:induction false} NothingCleared(u: seq<bool>, c: seq<bool>, l: Live, i: nat, v: seq<bool>, d: seq<bool>)
    requires Encodes(u, c, l) && i < |u| && !u[i]
    requires Clears(u, v, i, Extent(c, i)) && Clears(c, d, i, Extent(c, i))
    ensures Extent(c, i) == 1 && v == u
  {
    assert forall s :: Continues(l, s, i) ==> Covers(l, s, i);
  }

  /** Clearing the tail's bits, and the continue bit in front of it, shortens the allocation. */
  lemma {:induction false} ShrinkEncodes(u: seq<bool>, c: seq<bool>, l: Live, i: nat, keep: nat, v: seq<bool>, d: seq<bool>)
    requires Encodes(u, c, l) && i in l && 0 < keep < l[i]
    requires Clears(u, v, i + keep, l[i] - keep) && Clears(c, d, i + keep - 1, l[i] - keep + 1)
    ensures Encodes(v, d, l[i := keep])
  {
    var m := l[i := keep];
    forall b | 0 <= b < |v|
      ensures v[b] <==> exists s :: Covers(m, s, b)
    {
      if v[b] { var s :| Covers(l, s, b); assert Covers(m, s, b); }
      if s :| Covers(m, s, b) {
        assert Covers(l, s, b);
        if s != i { Elsewhere(l, |u|, i, s, b); }
      }
    }
    forall b | 0 <= b < |d|
      ensures d[b] <==> exists s :: Continues(m, s, b)
    {
      if d[b] { var s :| Continues(l, s, b); assert Continues(m, s, b); }
      if s :| Continues(m, s, b) {
        assert Continues(l, s, b);
        if s != i { Elsewhere(l, |u|, i, s, b); }
      }
    }
  }

  // ---- counting --------------------------------------------------------------------------------

  /** How many blocks are used. */
  function Count(u: seq<bool>): nat {
    if |u| == 0 then 0 else Count(u[..|u| - 1]) + if u[|u| - 1] then 1 else 0
  }

  lemma {:induction false} CountSet(u: seq<bool>, v: seq<bool>, i: nat, n: nat)
    requires FreeRun(u, i, n) && Sets(u, v, i, n)
    ensures Count(v) == Count(u) + n
    decreases |u|
  {
    if |u| > 0 {
      var k := |u| - 1;
      if i + n == |u| && n > 0 { CountSet(u[..k], v[..k], i, n - 1); }
      else if n == 0 { assert u == v; }
      else { CountSet(u[..k], v[..k], i, n); }
    }
  }

  lemma {:induction false} CountCleared(u: seq<bool>, v: seq<bool>, i: nat, n: nat)
    requires i + n <= |u| && (forall b :: i <= b < i + n ==> u[b]) && Clears(u, v, i, n)
    ensures Count(v) + n == Count(u)
  {
    assert Sets(v, u, i, n);
    CountSet(v, u, i, n);
  }

  lemma {:induction false} CountBound(u: seq<bool>)
    ensures Count(u) <= |u|
    ensures Count(u) == 0 <==> forall b :: 0 <= b < |u| ==> !u[b]
  {
    if |u| > 0 {
      var t := u[..|u| - 1];
      CountBound(t);
      if Count(u) == 0 {
        forall b | 0 <= b < |u| ensures !u[b] { if b < |t| { assert !t[b]; } }
      }
      if forall b :: 0 <= b < |u| ==> !u[b] {
        forall b | 0 <= b < |t| ensures !t[b] { assert !u[b]; }
      }
    }
  }

  lemma {:induction false} SomeUsed(u: seq<bool>, c: seq<bool>, l: Live, s: nat)
    requires Encodes(u, c, l) && s in l
    ensures Count(u) > 0
  {
    CountBound(u);
    assert Covers(l, s, s);
    assert u[s];
  }

  /** No block is used exactly when nothing is allocated. */
  lemma {:induction false} EmptyNode(u: seq<bool>, c: seq<bool>, l: Live)
    requires Encodes(u, c, l)
    ensures Count(u) == 0 <==> l == map[]
  {
    if l == map[] {
      NoneUsed(u, c, l);
    } else {
      var s :| s in l;
      SomeUsed(u, c, l, s);
    }
  }

  lemma {:induction false} NoneUsed(u: seq<bool>, c: seq<bool>, l: Live)
    requires Encodes(u, c, l) && l == map[]
    ensures Count(u) == 0
  {
    CountBound(u);
    assert forall b :: 0 <= b < |u| ==> !u[b];
  }

  lemma {:induction false} UsedBlocks(u: seq<bool>, c: seq<bool>, l: Live, i: nat)
    requires Encodes(u, c, l) && i in l
    ensures forall b :: i <= b < i + l[i] ==> u[b]
  {
    forall b | i <= b < i + l[i] ensures u[b] { assert Covers(l, i, b); }
  }
}
