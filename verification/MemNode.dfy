/** One mapped range, handed out in blocks of 64 bytes. */
module MemNode {
  import opened Word32
  import opened Bits
  import opened Bitmap
  import opened FreeRuns
  import opened Freeing
  import opened Blocks

  const DENSITY := 64

  class Node {
    const mem: nat
    const size: nat
    const blocks: nat
    var used: nat
    var largestBlock: nat
    const baUsed: array<Word>
    const baCont: array<Word>
    /** The allocations in this node, by first block. */
    ghost var live: Live

    ghost function UsedBits(): seq<bool>
      requires blocks <= W * baUsed.Length
      reads baUsed
    {
      BitsOf(baUsed[..], blocks)
    }

    ghost function ContBits(): seq<bool>
      requires blocks <= W * baCont.Length
      reads baCont
    {
      BitsOf(baCont[..], blocks)
    }

    ghost predicate Shape() {
      && baUsed != baCont && baUsed.Length == baCont.Length && blocks <= W * baUsed.Length
      && blocks > 0 && size == DENSITY * blocks
    }

    ghost predicate Valid()
      reads this, baUsed, baCont
    {
      Shape() && Encodes(UsedBits(), ContBits(), live) && used == DENSITY * Count(UsedBits())
    }

    /** No run of free blocks has more bytes than that. */
    ghost predicate BoundedBy(bytes: nat)
      requires blocks <= W * baUsed.Length
      reads baUsed
    {
      Bounds(UsedBits(), bytes / DENSITY)
    }

    /** largestBlock is what it is meant to be, an upper bound of what can be allocated. */
    ghost predicate Bounded()
      requires blocks <= W * baUsed.Length
      reads this`largestBlock, baUsed
    {
      BoundedBy(largestBlock)
    }

    /** The free blocks in front of n blocks at i, those n, and the free blocks behind them. */
    ghost function Joined(i: nat, n: nat): nat
      requires blocks <= W * baUsed.Length && i + n <= blocks
      reads baUsed
    {
      FreeBefore(UsedBits(), i) + n + FreeAfter(UsedBits(), i + n)
    }

    constructor (mem: nat, size: nat)
      requires size > 0 && size % DENSITY == 0
      ensures Valid() && live == map[] && this.mem == mem && this.size == size && used == 0
      ensures largestBlock == size && Bounded()
      ensures fresh(baUsed) && fresh(baCont) && size == DENSITY * blocks
    {
      this.mem, this.size := mem, size;
      blocks := size / DENSITY;
      used, largestBlock, live := 0, size, map[];
      var words := (size / DENSITY + W - 1) / W;
      baUsed := new Word[words](_ => 0);
      baCont := new Word[words](_ => 0);
      new;
      NoBitsSet(baUsed[..], blocks);
      NoBitsSet(baCont[..], blocks);
      NothingLive(UsedBits(), ContBits());
      AllBound(UsedBits());
    }

    /** Looks for room within this node. A failed search leaves the longest run that a used block
        ends, which is a bound exactly when the run behind the last used block is no longer. */
    method FindFree(need: nat) returns (found: bool, i: nat)
      requires Valid() && need > 0
      modifies this`largestBlock
      ensures Valid()
      ensures found ==> FirstFit(UsedBits(), i, need)
      ensures !found ==> forall j: nat :: !FreeRun(UsedBits(), j, need)
      ensures largestBlock == if found then old(largestBlock) else DENSITY * LongestEnded(UsedBits(), blocks)
      ensures !found ==> (Bounded() <==> FreeBefore(UsedBits(), blocks) <= LongestEnded(UsedBits(), blocks))
    {
      hide Encodes, FreeBefore, LongestEnded, FreeRun, FirstFit, Bounds;
      var max;
      found, i, max := Scan(baUsed, blocks, need);
      BoundsIff(UsedBits(), max);
      if !found { largestBlock := max * DENSITY; }
    }

    /** Hands out need blocks from block i on. What can still be allocated is then not known, for
        which 0 stands: a bound only when no block is free. */
    method Take(i: nat, need: nat)
      requires Valid() && need > 0 && FreeRun(UsedBits(), i, need)
      modifies this, baUsed, baCont
      ensures Valid() && i !in old(live) && live == old(live)[i := need]
      ensures used == old(used) + DENSITY * need
      ensures forall s :: s in old(live) ==> s + old(live)[s] <= i || i + need <= s
      ensures largestBlock == 0
    {
      hide Encodes, FreeRun, SetIn, BitsOf, Sets, Count;
      ghost var u, c := baUsed[..], baCont[..];
      assert i + need <= blocks by { RunFits(UsedBits(), i, need); }
      FreeApart(UsedBits(), ContBits(), live, i, need);
      SetBits(baUsed, i, need);
      SetBits(baCont, i, need - 1);
      SetBitsOf(u, baUsed[..], blocks, i, need);
      SetBitsOf(c, baCont[..], blocks, i, need - 1);
      AllocEncodes(BitsOf(u, blocks), BitsOf(c, blocks), live, i, need, UsedBits(), ContBits());
      CountSet(BitsOf(u, blocks), UsedBits(), i, need);
      used := used + need * DENSITY;
      largestBlock := 0;
      live := live[i := need];
    }

    /** Frees the allocation at block i. The bytes freed, or the bound there was, are a bound
        afterwards exactly when they were one of every run before, and are one of the run that the
        freed blocks form with the free ones on either side. */
    method Free(i: nat) returns (bytes: nat)
      requires Valid() && i in live
      modifies this, baUsed, baCont
      ensures Valid() && live == old(live) - {i}
      ensures bytes == DENSITY * old(live)[i] && used + bytes == old(used) <= size
      ensures FreeRun(UsedBits(), i, old(live)[i])
      ensures largestBlock == Larger(old(largestBlock), bytes)
      ensures Bounded() <==>
                old(BoundedBy(Larger(largestBlock, DENSITY * live[i])) && DENSITY * Joined(i, live[i]) <= Larger(largestBlock, DENSITY * live[i]))
    {
      hide Encodes, ClearIn, BitsOf, Clears, Count, Freed, Bounds, FreeRun, FreeBefore, FreeAfter;
      ghost var u, c := baUsed[..], baCont[..];
      LiveExtent(UsedBits(), ContBits(), live, i);
      var cont := FreeBlocks(baUsed, baCont, blocks, i);
      ClearBitsOf(u, baUsed[..], blocks, i, cont);
      ClearBitsOf(c, baCont[..], blocks, i, cont);
      ReleaseEncodes(BitsOf(u, blocks), BitsOf(c, blocks), live, i, UsedBits(), ContBits());
      UsedBlocks(BitsOf(u, blocks), BitsOf(c, blocks), live, i);
      CountCleared(BitsOf(u, blocks), UsedBits(), i, cont);
      CountBound(BitsOf(u, blocks));
      ClearedRun(BitsOf(u, blocks), UsedBits(), i, cont);
      LiveFreed(BitsOf(u, blocks), UsedBits(), i, cont);
      FreedBounds(BitsOf(u, blocks), UsedBits(), i, cont, Larger(largestBlock, cont * DENSITY) / DENSITY);
      bytes := cont * DENSITY;
      if largestBlock < bytes { largestBlock := bytes; }
      used := used - bytes;
      live := live - {i};
    }

    /** From block i of the allocation at start on, keeps the first blocks; nothing happens unless
        there are more. Then the bytes freed, or the bound there was, are a bound under the same
        condition as after a release. */
    method Trim(i: nat, keep: nat, ghost start: nat) returns (bytes: nat)
      requires Valid() && i < blocks && (Covers(live, start, i) || forall t :: !Covers(live, t, i))
      modifies this, baUsed, baCont
      ensures Valid() && live == Shortened(old(live), start, i, keep)
      ensures bytes == DENSITY * Tail(old(live), start, i, keep) && used + bytes == old(used)
      ensures largestBlock == Larger(old(largestBlock), bytes)
      ensures bytes > 0 ==>
                (Bounded() <==> old(BoundedBy(Larger(largestBlock, DENSITY * Tail(live, start, i, keep)))
                                    && DENSITY * Joined(i + keep, Tail(live, start, i, keep)) <= Larger(largestBlock, DENSITY * Tail(live, start, i, keep))))
    {
      hide Encodes, ClearIn, BitsOf, Clears, Count, Freed, Bounds, FreeRun, FreeBefore, FreeAfter, Extent;
      ghost var u, c := baUsed[..], baCont[..];
      BlockExtent(UsedBits(), ContBits(), live, start, i);
      var freed := ShrinkBlocks(baUsed, baCont, blocks, i, keep);
      if freed == 0 { return 0; }
      ClearBitsOf(u, baUsed[..], blocks, i + keep, freed);
      ClearBitsOf(c, baCont[..], blocks, i + keep - 1, freed + 1);
      ShrinkEncodes(BitsOf(u, blocks), BitsOf(c, blocks), live, start, i - start + keep, UsedBits(), ContBits());
      UsedBlocks(BitsOf(u, blocks), BitsOf(c, blocks), live, start);
      CountCleared(BitsOf(u, blocks), UsedBits(), i + keep, freed);
      LiveFreed(BitsOf(u, blocks), UsedBits(), i + keep, freed);
      FreedBounds(BitsOf(u, blocks), UsedBits(), i + keep, freed, Larger(largestBlock, freed * DENSITY) / DENSITY);
      bytes := freed * DENSITY;
      if largestBlock < bytes { largestBlock := bytes; }
      used := used - bytes;
      live := live[start := i - start + keep];
    }
  }

  function Larger(a: nat, b: nat): nat { if a < b then b else a }

  lemma {:induction false} AllBound(u: seq<bool>)
    ensures Bounds(u, |u|)
  {
  }

  /** From a block on, the continue bits lead to the end of the allocation that covers it, or
      nowhere. */
  lemma {:induction false} BlockExtent(u: seq<bool>, c: seq<bool>, l: Live, start: nat, i: nat)
    requires Encodes(u, c, l) && i < |u| && (Covers(l, start, i) || forall t :: !Covers(l, t, i))
    ensures Extent(c, i) == if Covers(l, start, i) then start + l[start] - i else 1
    ensures i + Extent(c, i) <= |u|
  {
    if Covers(l, start, i) {
      ExtentWithin(u, c, l, start, i);
    } else {
      assert forall s :: Continues(l, s, i) ==> Covers(l, s, i);
    }
  }

  /** Blocks of no allocation are free. */
  lemma {:induction false} FreeOf(u: seq<bool>, c: seq<bool>, l: Live, i: nat, n: nat)
    requires Encodes(u, c, l) && i + n <= |u| && forall s :: s in l ==> s + l[s] <= i || i + n <= s
    ensures FreeRun(u, i, n)
  {
  }

  /** A node of 64 KB in which largestBlock is no bound: two blocks released one after the other
      are 128 free bytes in one run, none of it at the end of the node, and 64 is recorded. A
      request for 128 bytes passes the node over. */
  method TwoReleases() returns (n: Node)
    ensures n.Valid() && n.live == map[2 := 1022] && n.largestBlock == 64
    ensures FreeRun(n.UsedBits(), 0, 2) && !n.Bounded()
  {
    hide Encodes, FreeRun, FreeBefore, FreeAfter, Count;
    n := new Node(0, 0x10000);
    FreeOf(n.UsedBits(), n.ContBits(), n.live, 0, 1);
    n.Take(0, 1);
    FreeOf(n.UsedBits(), n.ContBits(), n.live, 1, 1);
    n.Take(1, 1);
    FreeOf(n.UsedBits(), n.ContBits(), n.live, 2, 1022);
    n.Take(2, 1022);
    var first := n.Free(0);
    var second := n.Free(1);
    FreeOf(n.UsedBits(), n.ContBits(), n.live, 0, 2);
  }

  /** A run of free blocks fits beside the used ones. */
  lemma {:induction false} RunAndCount(u: seq<bool>, i: nat, n: nat)
    requires FreeRun(u, i, n)
    ensures n + Count(u) <= |u|
  {
    hide Count;
    var v := seq(|u|, k requires 0 <= k < |u| => u[k] || i <= k < i + n);
    CountSet(u, v, i, n);
    CountBound(v);
  }

  lemma {:induction false} ClearedRun(u: seq<bool>, v: seq<bool>, i: nat, n: nat)
    requires Clears(u, v, i, n) && i + n <= |u|
    ensures FreeRun(v, i, n)
  {
  }

  lemma {:induction false} LiveFreed(u: seq<bool>, v: seq<bool>, i: nat, n: nat)
    requires Clears(u, v, i, n) && i + n <= |u| && n > 0 && forall b :: i <= b < i + n ==> u[b]
    ensures Freed(u, v, i, n)
  {
  }

  lemma {:induction false} NoBitsSet(s: seq<Word>, n: nat)
    requires n <= W * |s| && forall k :: 0 <= k < |s| ==> s[k] == 0
    ensures forall b :: 0 <= b < n ==> !BitsOf(s, n)[b]
  {
    forall b | 0 <= b < n ensures !BitsOf(s, n)[b] { ZeroBit(b % W); }
  }

  lemma {:induction false} NothingLive(u: seq<bool>, c: seq<bool>)
    requires |u| == |c| && (forall b :: 0 <= b < |u| ==> !u[b]) && (forall b :: 0 <= b < |c| ==> !c[b])
    ensures Encodes(u, c, map[]) && Count(u) == 0
  {
    CountBound(u);
  }

  lemma {:induction false} RunFits(u: seq<bool>, i: nat, n: nat)
    requires FreeRun(u, i, n)
    ensures i + n <= |u|
  {
  }

  lemma {:induction false} LiveExtent(u: seq<bool>, c: seq<bool>, l: Live, i: nat)
    requires Encodes(u, c, l) && i in l
    ensures Extent(c, i) == l[i] && i + l[i] <= |u| && l[i] > 0
  {
    assert Covers(l, i, i);
    ExtentWithin(u, c, l, i, i);
  }
}
