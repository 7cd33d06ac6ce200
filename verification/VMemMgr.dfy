/** The allocator of executable memory: nodes found by address through a red-black tree, and
    searched for room along a list. */
module VMemMgr {
  import opened Word32
  import opened Bitmap
  import opened FreeRuns
  import opened Blocks
  import opened MemNode
  import opened RedBlack
  import opened Removal
  import opened Ledger

  datatype Error = Ok | InvalidArgument

  /** Sizes are rounded up to 32 bytes; close to the top of the range the sum wraps to zero. */
  function Aligned(size: Word): (r: Word)
    ensures r % 32 == 0
    ensures size <= M - 32 ==> size <= r < size + 32
    ensures size > M - 32 ==> r == 0
  {
    var s := Wrap(size + 31);
    s - s % 32
  }

  /** How many blocks a size takes; the sum wraps close to the top of the range. */
  function BlocksFor(size: Word): (n: nat)
    ensures size <= M - DENSITY ==> DENSITY * n >= size && DENSITY * n < size + DENSITY
  {
    Wrap(size + DENSITY - 1) / DENSITY
  }

  /** The blocks that a request gets. */
  function Granted(size: Word): nat { BlocksFor(Aligned(size)) }

  function RangeOf(n: Node): Item<Node> { Item(n.mem, n.mem + n.size, n) }

  /** Nodes are distinct and do not share their bit arrays. */
  ghost predicate Unshared(s: seq<Node>) {
    forall i, j :: 0 <= i < |s| && 0 <= j < |s| && i != j ==> NoShare(s[i], s[j])
  }

  ghost predicate NoShare(a: Node, b: Node) {
    a != b && a.baUsed != b.baUsed && a.baUsed != b.baCont && a.baCont != b.baUsed && a.baCont != b.baCont
  }

  function Sizes(s: seq<Node>): (r: seq<nat>)
    ensures |r| == |s| && forall i :: 0 <= i < |s| ==> r[i] == s[i].size
  {
    if |s| == 0 then [] else Sizes(s[..|s| - 1]) + [s[|s| - 1].size]
  }

  /** The tree has the ranges of exactly the nodes of the list. */
  ghost predicate SameNodes(items: seq<Item<Node>>, s: seq<Node>) {
    && |items| == |s|
    && (forall i :: i in items ==> i.node in s && i == RangeOf(i.node))
    && (forall n :: n in s ==> RangeOf(n) in items)
  }

  /** The place of a node in the list. */
  ghost predicate At(s: seq<Node>, k: int, n: Node) { 0 <= k < |s| && s[k] == n }

  /** The start of the block that an address lies in. */
  function BlockStart(p: nat): nat { p - p % DENSITY }

  /** What is left of an allocation of n blocks when, from block skip on, only keep stay. */
  function Kept(n: nat, skip: nat, keep: nat): nat { if 0 < keep && skip + keep < n then skip + keep else n }

  /** Where the search starts once the node at from is gone and n are left: at the one in front of
      it when it started there, or the one behind it when that was the first. */
  function WithoutNode(optimal: int, from: nat, n: nat): int {
    if optimal == from then if from > 0 then from - 1 else if n > 0 then 0 else -1
    else if optimal > from then optimal - 1
    else optimal
  }

  /** A range mapped by the system. */
  datatype Mapping = Mapping(mem: nat, size: nat)

  class Manager {
    const blockSize: Word
    var usedBytes: nat
    var allocatedBytes: nat
    var root: Tree<Node>
    /** The nodes from first to last, and the index of the one a search starts at, -1 when
        there is none. */
    var list: seq<Node>
    var optimal: int
    /** The allocations by address, in blocks. */
    ghost var live: map<nat, nat>

    /** Of each node of the list, its entry and its used bytes. */
    ghost var books: seq<Entry>
    ghost var useds: seq<nat>
    /** The nodes and their bit arrays. */
    ghost var repr: set<object>

    ghost predicate Owned()
      reads this`list, this`repr
    {
      this !in repr && forall k :: 0 <= k < |list| ==> list[k] in repr && list[k].baUsed in repr && list[k].baCont in repr
    }

    ghost predicate ListValid()
      reads this`list, this`repr, repr
    {
      && Owned() && Unshared(list)
      && (forall k :: 0 <= k < |list| ==> list[k].Valid() && list[k].mem > 0 && list[k].mem + list[k].size <= M)
    }

    ghost predicate OptimalValid()
      reads this`list, this`optimal
    {
      && (if |list| == 0 then optimal == -1 else 0 <= optimal < |list|)
      && blockSize > 0 && blockSize % DENSITY == 0
    }

    ghost predicate TreeValid()
      reads this`root, this`list
    {
      RedBlack.Valid(root) && Apart(Items(root)) && SameNodes(Items(root), list)
    }

    /** The books say what the nodes say. */
    ghost predicate Synced()
      reads this`list, this`repr, this`books, this`useds, repr
    {
      && Owned() && |books| == |list| && |useds| == |list|
      && forall k :: 0 <= k < |list| ==> books[k] == Entry(list[k].mem, list[k].blocks, list[k].live) && useds[k] == list[k].used
    }

    ghost predicate BooksValid()
      reads this`list, this`books, this`useds, this`live, this`usedBytes, this`allocatedBytes
    {
      && Proper(books) && Tracks(books, live) && usedBytes == Sum(useds) && allocatedBytes == Sum(Sizes(list))
      && usedBytes == DENSITY * Total(live)
    }

    /** All is in order, except that a node may be empty. */
    ghost predicate Sound()
      reads this, repr
    {
      ListValid() && OptimalValid() && TreeValid() && Synced() && BooksValid()
    }

    /** Between calls no node is empty. */
    ghost predicate Valid()
      reads this, repr
    {
      Sound() && forall k :: 0 <= k < |list| ==> list[k].used > 0
    }

    constructor (blockSize: Word)
      requires blockSize > 0 && blockSize % DENSITY == 0
      ensures Valid() && live == map[] && list == [] && usedBytes == 0 && allocatedBytes == 0
    {
      this.blockSize := blockSize;
      usedBytes, allocatedBytes, root, list, optimal, live, repr, books, useds := 0, 0, Leaf, [], -1, map[], {}, [], [];
      new;
      assert Balanced<Node>(Leaf, 0);
    }

    /** The allocation at address a has address p in it. */
    ghost predicate Owner(a: nat, p: nat)
      reads this`live
    {
      a in live && a <= p < a + DENSITY * live[a]
    }

    /** The search within node k. */
    method Probe(node: Node, ghost k: nat, need: nat) returns (found: bool, i: nat)
      requires Valid() && need > 0 && k < |list| && node == list[k]
      modifies node`largestBlock
      ensures Valid()
      ensures found ==> FirstFit(node.UsedBits(), i, need)
      ensures !found ==> forall j: nat :: !FreeRun(node.UsedBits(), j, need)
    {
      hide BooksValid, TreeValid, Node.Valid, FirstFit;
      assert node.Valid();
      found, i := node.FindFree(need);
      forall j | 0 <= j < |list| ensures list[j].Valid() { if j != k { assert NoShare(list[j], list[k]); } }
    }

    method SetOptimal(k: nat)
      requires Valid() && k < |list|
      modifies this`optimal
      ensures Valid() && optimal == k
    {
      hide BooksValid, TreeValid, ListValid;
      optimal := k;
    }

    lemma Bounds()
      requires Valid()
      ensures this !in repr
      ensures if |list| == 0 then optimal == -1 else 0 <= optimal < |list|
      ensures forall k :: 0 <= k < |list| ==> list[k] in repr && list[k].baUsed in repr && list[k].baCont in repr
      ensures forall k :: 0 <= k < |list| ==> list[k].Shape() && 0 < list[k].used <= list[k].size && list[k].size <= M - DENSITY
    {
      hide TreeValid, Encodes, Tracks, Sum;
      forall k | 0 <= k < |list| ensures list[k].used <= list[k].size && list[k].size <= M - DENSITY {
        CountBound(list[k].UsedBits());
        assert books[k].mem == list[k].mem && books[k].mem % DENSITY == 0;
      }
    }

    lemma IsSound()
      requires Valid()
      ensures Sound()
    {
      hide Sound;
    }

    lemma Distinct()
      requires Sound()
      ensures forall i, j :: 0 <= i < |list| && 0 <= j < |list| && i != j ==> list[i] != list[j]
    {
      hide TreeValid, BooksValid, Node.Valid;
      assert forall i, j :: 0 <= i < |list| && 0 <= j < |list| && i != j ==> NoShare(list[i], list[j]);
    }

    /** Node j is not even searched. */
    ghost predicate Skipped(j: int, vSize: Word)
      requires 0 <= j < |list|
      reads this`list, list
    {
      list[j].size - list[j].used < vSize || 0 < list[j].largestBlock < vSize
    }

    /** o is where the next search starts, after one that got to node k: behind the nodes from the
        old start on that were skipped with less than a node's worth of free bytes, one after the
        other, but never behind the last. */
    ghost predicate Advances(o: int, k: nat, vSize: Word)
      reads this`list, this`optimal, list
    {
      && optimal <= o && (o == optimal || 0 <= o < |list|) && (optimal < 0 ==> o == optimal)
      && (forall j: nat :: optimal <= j < o ==> j + 1 < |list| && j < k && Skipped(j, vSize) && list[j].size - list[j].used < blockSize)
      && (0 <= o < k && o + 1 < |list| ==> !(Skipped(o, vSize) && list[o].size - list[o].used < blockSize))
    }

    /** Node j is passed over: too few bytes are free, or its last failed search met no run long
        enough, or there is no room in it. */
    ghost predicate NoRoom(j: nat, vSize: Word)
      reads this`list, list, set n | n in list :: n.baUsed
    {
      && j < |list| && list[j].Shape()
      && (Skipped(j, vSize) || forall b: nat :: !FreeRun(list[j].UsedBits(), b, BlocksFor(vSize)))
    }

    /** A node that is passed over has no room, unless its largestBlock is no bound. */
    lemma PassedOverFairly(j: nat, vSize: Word)
      requires Valid() && NoRoom(j, vSize) && 0 < vSize <= M - DENSITY && list[j].Bounded()
      ensures forall b: nat :: !FreeRun(list[j].UsedBits(), b, BlocksFor(vSize))
    {
      hide TreeValid, BooksValid, Encodes, Count, FreeRun;
      var n := list[j];
      forall b: nat
        ensures !FreeRun(n.UsedBits(), b, BlocksFor(vSize))
      {
        if FreeRun(n.UsedBits(), b, BlocksFor(vSize)) { RunAndCount(n.UsedBits(), b, BlocksFor(vSize)); }
      }
    }

    /** The nodes in front of node k are passed over, from the one where a search starts. */
    ghost predicate PassedOver(k: nat, vSize: Word)
      reads this`list, this`optimal, list, set n | n in list :: n.baUsed
    {
      forall j: nat :: optimal <= j < k ==> NoRoom(j, vSize)
    }

    /** The search for room, from the node where it last succeeded: full nodes are skipped, and
        so are those whose last failed search met no run long enough. */
    method FindRoom(vSize: Word) returns (found: bool, k: nat, i: nat, ghost o: int)
      requires Valid() && vSize > 0
      modifies this`optimal, list`largestBlock
      ensures Valid()
      ensures old(PassedOver(k, vSize)) && k >= old(optimal) && o == optimal && old(Advances(o, k, vSize))
      ensures found ==> k < |list| && BlocksFor(vSize) > 0 && FirstFit(list[k].UsedBits(), i, BlocksFor(vSize)) && vSize <= M - DENSITY
      ensures found ==> old(FirstIn(k, i, BlocksFor(vSize), Address(list[k].mem, i)))
      ensures !found ==> k == |list|
    {
      hide Manager.Valid, Manager.Sound, Node.Valid, FirstFit, FreeRun;
      Bounds();
      IsSound();
      Distinct();
      k, i, found, o := if optimal < 0 then 0 else optimal, 0, false, optimal;
      while k < |list|
        invariant o == optimal && k >= old(optimal) && old(Advances(o, k, vSize)) && o <= k
        invariant Valid() && 0 <= k <= |list| && !found
        invariant this !in repr && repr == old(repr) && list == old(list)
        invariant forall j: nat :: old(optimal) <= j < k ==> old(NoRoom(j, vSize))
        invariant forall j :: k <= j < |list| ==> list[j].largestBlock == old(list[j].largestBlock)
      {
        Bounds();
        var node := list[k];
        var available := node.size - node.used;
        if available < vSize || (node.largestBlock < vSize && node.largestBlock != 0) {
          assert old(Skipped(k, vSize));
          if available < blockSize && k == optimal && k + 1 < |list| {
            SetOptimal(k + 1);
            o := k + 1;
          }
          assert old(NoRoom(k, vSize));
          k := k + 1;
          continue;
        }
        var need := BlocksFor(vSize);
        found, i := Probe(node, k, need);
        assert !old(Skipped(k, vSize));
        if found {
          Bounds();
          assert list[k].baUsed[..] == old(list[k].baUsed[..]);
          return;
        }
        assert old(NoRoom(k, vSize)) by { assert node.UsedBits() == old(list[k].UsedBits()); }
        k := k + 1;
      }
    }

    /** Node k has n free blocks from block i on, and does not hide them. */
    ghost predicate HasRoom(k: nat, i: nat, n: nat)
      reads this`list, list, set x | x in list :: x.baUsed
    {
      && k < |list| && list[k].Shape() && FreeRun(list[k].UsedBits(), i, n)
      && list[k].size - list[k].used >= DENSITY * n && list[k].largestBlock >= DENSITY * n
    }

    /** Hands out blocks of node k. */
    method TakeAt(k: nat, i: nat, need: nat)
      requires ListValid() && Synced() && k < |list| && need > 0 && FreeRun(list[k].UsedBits(), i, need)
      modifies this`books, this`useds, list[k], list[k].baUsed, list[k].baCont
      ensures ListValid() && Synced() && i !in old(books)[k].live && i + need <= old(books)[k].blocks
      ensures books == old(books)[k := old(books)[k].(live := old(books)[k].live[i := need])] && Separate(books[k].live, books[k].blocks)
      ensures useds == old(useds)[k := old(useds)[k] + DENSITY * need]
    {
      hide Encodes, FreeRun, Separate;
      RunFits(list[k].UsedBits(), i, need);
      list[k].Take(i, need);
      forall j | 0 <= j < |list| ensures list[j].Valid() { if j != k { assert NoShare(list[j], list[k]); } }
      ValidSeparate(list[k]);
      books := books[k := books[k].(live := list[k].live)];
      useds := useds[k := list[k].used];
    }

    /** Marks the blocks found as used, and counts them. */
    method Commit(k: nat, i: nat, need: nat) returns (p: nat)
      requires Sound() && k < |list| && need > 0 && FreeRun(list[k].UsedBits(), i, need)
      modifies this`usedBytes, this`live, this`books, this`useds, list[k], list[k].baUsed, list[k].baCont
      ensures Sound() && p == Address(list[k].mem, i) && p !in old(live) && live == old(live)[p := need]
      ensures usedBytes == old(usedBytes) + DENSITY * need
      ensures useds == old(useds)[k := old(useds)[k] + DENSITY * need]
      ensures i + need <= list[k].blocks
    {
      hide TreeValid, ListValid, Proper, Tracks, FreeRun, Separate, Address, Sum, Total;
      p := Address(list[k].mem, i);
      TotalWith(live, p, need);
      SumUpdate(useds, k, useds[k] + DENSITY * need);
      ghost var es := books;
      TakeAt(k, i, need);
      Allocated(es, live, k, i, need);
      usedBytes := usedBytes + need * DENSITY;
      live := live[p := need];
    }

    /** Whether the system's range will do for a request. */
    ghost predicate Usable(os: Mapping, vSize: Word)
      reads this`list
    {
      && os.mem > 0 && os.mem % DENSITY == 0 && os.size % DENSITY == 0 && os.mem + os.size <= M
      && os.size >= blockSize && os.size >= vSize
      && forall k :: 0 <= k < |list| ==> list[k].mem + list[k].size <= os.mem || os.mem + os.size <= list[k].mem
    }

    /** The first need free blocks of node k start at block i, which has address p. */
    ghost predicate FirstIn(k: nat, i: nat, need: nat, p: nat)
      reads this`list, list, set n | n in list :: n.baUsed
    {
      && k < |list| && list[k].Shape()
      && FirstFit(list[k].UsedBits(), i, need) && p == Address(list[k].mem, i)
    }

    /** Finds room, in a new node if need be, and hands it out: the first blocks that are free
        in the first node that is not passed over, or the start of the new node. NULL for a size that rounds to zero,
        and when there is neither room nor a new range; then nothing has changed that a caller
        could see. */
    method Alloc(size: Word, os: Option<Mapping>) returns (p: nat, ghost k: nat, ghost i: nat, ghost o: int)
      requires Valid() && (os.Some? ==> Usable(os.value, Aligned(size)))
      modifies this, repr
      ensures Valid()
      ensures p == 0 ==> live == old(live) && list == old(list) && usedBytes == old(usedBytes) && allocatedBytes == old(allocatedBytes)
      ensures p == 0 ==> size == 0 || size > M - 32 || os.None?
      ensures p != 0 ==> p !in old(live) && live == old(live)[p := Granted(size)] && usedBytes == old(usedBytes) + DENSITY * Granted(size)
      ensures list != old(list) ==>
                && os.Some? && p == os.value.mem && allocatedBytes == old(allocatedBytes) + os.value.size
                && |list| == |old(list)| + 1 && list[..|old(list)|] == old(list)
      ensures list == old(list) ==> allocatedBytes == old(allocatedBytes)
      ensures list == old(list) && p != 0 ==> old(FirstIn(k, i, Granted(size), p)) && old(PassedOver(k, Aligned(size)))
      ensures list != old(list) || (p == 0 && 0 < size <= M - 32) ==> old(PassedOver(|list|, Aligned(size)))
      ensures p != 0 ==> 0 < size <= DENSITY * Granted(size)
      ensures Aligned(size) == 0 ==> optimal == old(optimal)
      ensures Aligned(size) > 0 ==> k >= old(optimal) && old(Advances(o, k, Aligned(size))) && optimal == if o < 0 && |list| > 0 then 0 else o
    {
      hide Manager.Valid, FreeRun, Node.Valid, FirstFit, TreeValid, BooksValid, Manager.FirstIn, Manager.PassedOver, Manager.Advances;
      Bounds();
      var vSize := Aligned(size);
      k, i, o := 0, 0, optimal;
      if vSize == 0 { return 0, k, i, o; }
      var found, at, start;
      found, at, start, o := FindRoom(vSize);
      k, i := at, start;
      Bounds();
      if found {
        p := CommitOld(at, start, BlocksFor(vSize));
        return;
      }
      if os.None? { return 0, k, i, o; }
      p := AllocNew(vSize, os.value);
    }

    /** A new node for the range that the system has mapped. */
    method AddNode(mem: nat, size: nat)
      requires Valid() && size > 0 && size % DENSITY == 0 && mem > 0 && mem % DENSITY == 0 && mem + size <= M
      requires forall k :: 0 <= k < |list| ==> list[k].mem + list[k].size <= mem || mem + size <= list[k].mem
      modifies this
      ensures Sound() && |list| == |old(list)| + 1 && list[..|old(list)|] == old(list) && live == old(live)
      ensures list[|old(list)|].mem == mem && list[|old(list)|].size == size && fresh(list[|old(list)|])
      ensures fresh(list[|old(list)|].baUsed) && fresh(list[|old(list)|].baCont)
      ensures list[|old(list)|].live == map[]
      ensures useds == old(useds) + [0] && usedBytes == old(usedBytes) && allocatedBytes == old(allocatedBytes) + size
      ensures optimal == if old(optimal) < 0 then 0 else old(optimal)
      ensures repr == old(repr) + {list[|old(list)|], list[|old(list)|].baUsed, list[|old(list)|].baCont}
    {
      hide RedBlack.Valid, Apart, SameNodes, Proper, Tracks, Sum, Node.Valid, Inserted, Absent;
      Shapes();
      TreeSorted(root);
      var node := new Node(mem, size);
      FreshAddress(Items(root), list, node);
      var grown := InsertNode(root, RangeOf(node));
      TreeGrows(Items(root), list, node);
      BooksGrow(books, live, useds, list, node);
      Append(node, grown);
    }

    lemma Shapes()
      requires ListValid()
      ensures forall k :: 0 <= k < |list| ==> list[k].Shape() && list[k].size == DENSITY * list[k].blocks && list[k].size > 0
    {
      hide Encodes;
    }

    method CommitOld(k: nat, i: nat, need: nat) returns (p: nat)
      requires Valid() && k < |list| && need > 0 && FirstFit(list[k].UsedBits(), i, need)
      modifies this`usedBytes, this`live, this`books, this`useds, list[k], list[k].baUsed, list[k].baCont
      ensures Valid() && p != 0 && p !in old(live) && live == old(live)[p := need] && usedBytes == old(usedBytes) + DENSITY * need
      ensures p == Address(list[k].mem, i)
    {
      hide TreeValid, ListValid, BooksValid, FreeRun;
      assert list[k].mem > 0 && list[k].Valid() by { MemPositive(k); }
      assert FreeRun(list[k].UsedBits(), i, need) by { FitIsFree(list[k].UsedBits(), i, need); }
      p := Commit(k, i, need);
    }

    lemma MemPositive(k: nat)
      requires ListValid() && k < |list|
      ensures list[k].mem > 0 && list[k].Valid()
    {
      hide Node.Valid;
    }

    method AllocNew(vSize: Word, os: Mapping) returns (p: nat)
      requires Valid() && vSize > 0 && Usable(os, vSize)
      modifies this
      ensures Valid() && p != 0 && p !in old(live) && BlocksFor(vSize) > 0 && live == old(live)[p := BlocksFor(vSize)]
      ensures usedBytes == old(usedBytes) + DENSITY * BlocksFor(vSize) && allocatedBytes == old(allocatedBytes) + os.size
      ensures |list| == |old(list)| + 1 && list[..|old(list)|] == old(list) && p == os.mem && vSize <= M - DENSITY
      ensures optimal == if old(optimal) < 0 then 0 else old(optimal)
    {
      hide TreeValid, BooksValid, FreeRun, ListValid;
      AddNode(os.mem, os.size);
      var k := |list| - 1;
      assert list[k].mem > 0 && list[k].Valid() by { MemPositive(k); }
      var need := BlocksFor(vSize);
      assert FreeRun(list[k].UsedBits(), 0, need) by { EmptyFree(list[k], need); }
      p := Commit(k, 0, need);
    }

    // ---- release and shrink ------------------------------------------------------------------

    /** The place of a node in the list, as its own links say. */
    method Place(node: Node) returns (k: nat)
      requires node in list
      ensures k < |list| && list[k] == node
    {
      k := 0;
      while list[k] != node
        invariant k < |list| && forall j :: 0 <= j < k ==> list[j] != node
        decreases |list| - k
      {
        k := k + 1;
      }
    }

    lemma RangeKnown(item: Item<Node>, k: nat)
      requires ListValid() && SameNodes(Items(root), list) && Synced() && item in Items(root) && k < |list| && list[k] == item.node
      ensures item.lo == books[k].mem == list[k].mem && item.hi == books[k].mem + DENSITY * books[k].blocks == list[k].mem + list[k].size
    {
      hide Items;
      Shapes();
    }

    /** The node whose range holds an address in the first block of an allocation has the
        allocation there. */
    lemma FoundNode(p: nat, item: Item<Node>, k: nat)
      requires Valid() && BlockStart(p) in live && item in Items(root) && Holds(item, p) && k < |list| && list[k] == item.node
      ensures k < |books| && p >= list[k].mem && (p - list[k].mem) / DENSITY in books[k].live
      ensures var i := (p - list[k].mem) / DENSITY; BlockStart(p) == Address(books[k].mem, i) && live[BlockStart(p)] == books[k].live[i]
    {
      hide RedBlack.Valid, Apart, Sum, Total, ListValid, Items, Tracks, Synced, SameNodes, Separate;
      RangeKnown(item, k);
      assert k < |books| by { BooksLength(); }
      assert books[k].mem % DENSITY == 0;
      SameBlock(books[k].mem, p);
      OwnerHolds(books, live, BlockStart(p), k);
    }

    /** The node of an address in the first block of an allocation has no other allocation exactly
        when no other live address lies in its range. */
    lemma OthersThere(p: nat, item: Item<Node>, k: nat)
      requires Valid() && BlockStart(p) in live && item in Items(root) && Holds(item, p) && k < |list| && list[k] == item.node
      ensures list[k].mem <= p < list[k].mem + list[k].size
      ensures list[k].live.Keys != {(p - list[k].mem) / DENSITY} <==>
                exists a :: a in live && a != BlockStart(p) && list[k].mem <= a < list[k].mem + list[k].size
    {
      hide RedBlack.Valid, Apart, Sum, Total, ListValid, Items, Proper, Tracks, Synced, SameNodes, Separate, BlockStart;
      RangeKnown(item, k);
      FoundNode(p, item, k);
      assert books[k].live == list[k].live by { BooksAt(k); }
      OthersRecorded(books, live, k, (p - list[k].mem) / DENSITY);
    }

    lemma BooksLength()
      requires Synced()
      ensures |books| == |useds| == |list|
    {
    }

    lemma SomeNode(a: nat, p: nat)
      requires Valid() && Owner(a, p)
      ensures Somewhere(Items(root), p)
    {
      hide RedBlack.Valid, Apart, Sum, Total, Node.Valid;
      Shapes();
      var k := LiveInside(books, live, a);
      var i := RangeOf(list[k]);
      assert i in Items(root);
      var j :| 0 <= j < |Items(root)| && Items(root)[j] == i;
      assert Holds(Items(root)[j], p);
    }

    /** The block of an address in node k: which allocation of the node covers it says which
        allocation of the manager has the address. */
    lemma OwnerAt(p: nat, item: Item<Node>, k: nat)
      requires Valid() && item in Items(root) && Holds(item, p) && k < |list| && list[k] == item.node
      ensures k < |books| && p >= list[k].mem && (p - list[k].mem) / DENSITY < books[k].blocks && books[k].mem == list[k].mem
      ensures forall s :: Covers(books[k].live, s, (p - list[k].mem) / DENSITY) ==>
                Owner(Address(books[k].mem, s), p) && live[Address(books[k].mem, s)] == books[k].live[s]
                && (p - Address(books[k].mem, s)) / DENSITY == (p - list[k].mem) / DENSITY - s
      ensures forall a :: Owner(a, p) ==>
                exists s :: a == Address(books[k].mem, s) && Covers(books[k].live, s, (p - list[k].mem) / DENSITY)
    {
      hide RedBlack.Valid, Apart, Sum, Total, ListValid, Items, Proper, Tracks, SameNodes;
      RangeKnown(item, k);
      BooksLength();
      Covered(books, live, p, k);
    }

    /** Frees, or shortens, an allocation of node k; the statistics follow. */
    method FreeAt(k: nat, i: nat) returns (bytes: nat)
      requires ListValid() && Synced() && k < |list| && i in books[k].live
      modifies this`books, this`useds, list[k], list[k].baUsed, list[k].baCont
      ensures ListValid() && Synced() && Separate(books[k].live, books[k].blocks)
      ensures books == old(books)[k := old(books)[k].(live := old(books)[k].live - {i})]
      ensures bytes == DENSITY * old(books)[k].live[i] && bytes <= old(useds)[k] && useds == old(useds)[k := old(useds)[k] - bytes]
      ensures HasRoom(k, i, old(books)[k].live[i])
    {
      hide Node.Valid, Separate;
      assert list[k].Shape() by { ValidShape(list[k]); }
      bytes := list[k].Free(i);
      forall j | 0 <= j < |list| ensures list[j].Valid() { if j != k { assert NoShare(list[j], list[k]); } }
      ValidSeparate(list[k]);
      books := books[k := books[k].(live := list[k].live)];
      useds := useds[k := list[k].used];
    }

    method TrimAt(k: nat, i: nat, keep: nat, ghost start: nat) returns (bytes: nat)
      requires ListValid() && Synced() && k < |list| && i < books[k].blocks
      requires Covers(books[k].live, start, i) || forall t :: !Covers(books[k].live, t, i)
      modifies this`books, this`useds, list[k], list[k].baUsed, list[k].baCont
      ensures ListValid() && Synced() && Separate(books[k].live, books[k].blocks)
      ensures books == old(books)[k := old(books)[k].(live := Shortened(old(books)[k].live, start, i, keep))]
      ensures bytes == DENSITY * Tail(old(books)[k].live, start, i, keep)
      ensures bytes <= old(useds)[k] && useds == old(useds)[k := old(useds)[k] - bytes]
    {
      hide Node.Valid, Separate, Shortened, Tail;
      bytes := list[k].Trim(i, keep, start);
      forall j | 0 <= j < |list| ensures list[j].Valid() { if j != k { assert NoShare(list[j], list[k]); } }
      ValidSeparate(list[k]);
      books := books[k := books[k].(live := list[k].live)];
      useds := useds[k := list[k].used];
    }

    /** The bits, the statistics and the books of a release, before an empty node is dropped. */
    method Uncommit(k: nat, i: nat, ghost p: nat) returns (bytes: nat)
      requires Sound() && k < |list| && i in books[k].live && p == Address(books[k].mem, i)
      modifies this`usedBytes, this`live, this`books, this`useds, list[k], list[k].baUsed, list[k].baCont
      ensures Sound() && p in old(live) && live == old(live) - {p} && bytes == DENSITY * old(live)[p]
      ensures bytes <= old(useds)[k] && useds == old(useds)[k := old(useds)[k] - bytes] && usedBytes + bytes == old(usedBytes)
      ensures books == old(books)[k := old(books)[k].(live := old(books)[k].live - {i})]
      ensures HasRoom(k, i, old(live)[p])
    {
      hide TreeValid, ListValid, HasRoom, Proper, Tracks, Separate, Address, Sum, Total;
      ghost var es, us := books, useds;
      bytes := FreeAt(k, i);
      Changed(es, live, k, i, books[k].live);
      TotalWithout(live, p);
      SumUpdate(us, k, us[k] - bytes);
      usedBytes := usedBytes - bytes;
      live := live - {p};
    }

    /** The same for the tail of the allocation that covers block i; a is its address. */
    method Shorten(k: nat, i: nat, keep: nat, ghost start: nat, ghost a: nat)
      requires Sound() && k < |list| && i < books[k].blocks && a == Address(books[k].mem, start)
      requires Covers(books[k].live, start, i) || forall t :: !Covers(books[k].live, t, i)
      modifies this`usedBytes, this`live, this`books, this`useds, list[k], list[k].baUsed, list[k].baCont
      ensures Sound()
      ensures if Covers(old(books)[k].live, start, i)
              then
                && a in old(live) && live == old(live)[a := Kept(old(live)[a], i - start, keep)]
                && usedBytes + DENSITY * old(live)[a] == old(usedBytes) + DENSITY * live[a]
              else live == old(live) && usedBytes == old(usedBytes)
      ensures |useds| == |old(useds)| && forall j :: 0 <= j < |useds| && j != k ==> useds[j] == old(useds)[j]
      ensures books[k].live.Keys == old(books)[k].live.Keys
    {
      hide TreeValid, ListValid, Proper, Tracks, Separate, Address, Sum, Total;
      ghost var es, us := books, useds;
      var bytes := TrimAt(k, i, keep, start);
      SumUpdate(us, k, us[k] - bytes);
      usedBytes := usedBytes - bytes;
      if Covers(es[k].live, start, i) {
        assert es[k].live[start := es[k].live[start]] == es[k].live;
        Changed(es, live, k, start, books[k].live);
        TotalWith(live, a, books[k].live[start]);
        live := live[a := books[k].live[start]];
      } else {
        assert books == es && useds == us;
      }
    }

    /** A node that was full is worth searching again. */
    method PullBack(node: Node, ghost k: nat)
      requires Sound() && k < |list| && list[k] == node
      modifies this`optimal
      ensures Sound() && optimal == if k < old(optimal) then k else old(optimal)
    {
      hide TreeValid, BooksValid, ListValid;
      Distinct();
      var cur := optimal;
      while cur > 0
        invariant Sound() && cur <= optimal == old(optimal)
        invariant k < optimal ==> k < cur
      {
        cur := cur - 1;
        if list[cur] == node {
          optimal := cur;
          return;
        }
      }
    }

    /** Takes an empty node out of the tree and the list. The tree may give up another node than
        the empty one, whose content then moves: so does its place in the list, and the place
        that goes is that of the other. */
    method Drop(k: nat) returns (ghost from: nat, ghost way: Path<Node>, ghost leaf: Tree<Node>)
      requires Sound() && k < |list| && list[k].used == 0
      modifies this
      ensures Sound() && live == old(live) && usedBytes == old(usedBytes) && repr == old(repr)
      ensures allocatedBytes + old(list)[k].size == old(allocatedBytes)
      ensures from < |old(list)| && list == Unlinked(old(list), k, from) && useds == Unlinked(old(useds), k, from)
      ensures optimal == WithoutNode(old(optimal), from, |list|)
      ensures TakenOut(old(root), root, old(list)[k].mem, RangeOf(old(list)[from]), way, leaf)
    {
      hide RedBlack.Valid, Apart, SameNodes, Proper, Tracks, Sum, Total, Node.Valid, Removed, Absent, Unlinked, Items, TakenOut;
      var node := list[k];
      Present(Items(root), list, k);
      var smaller, last;
      smaller, last, way, leaf := RemoveNode(root, node.mem);
      LastAmong(Items(root), list, last);
      var at := Place(last.node);
      from := at;
      Unlinkable(k, at);
      root := smaller;
      allocatedBytes := allocatedBytes - node.size;
      Unlink(k, at);
    }

    /** Without an empty node the tree and the books are in order as well. */
    lemma Unlinkable(k: nat, from: nat)
      requires Sound() && k < |list| && from < |list| && list[k].used == 0
      ensures var l := Unlinked(list, k, from); Apart(Removed(Items(root), list[k].mem)) && SameNodes(Removed(Items(root), list[k].mem), l)
      ensures var b := Unlinked(books, k, from); Proper(b) && Tracks(b, live)
      ensures usedBytes == Sum(Unlinked(useds, k, from)) && allocatedBytes == Sum(Sizes(Unlinked(list, k, from))) + list[k].size
    {
      hide RedBlack.Valid, Apart, SameNodes, Proper, Tracks, Sum, Total, Node.Valid, Removed, Unlinked, Items;
      TreeSorted(root);
      TreeShrinks(Items(root), list, k, from);
      assert books[k].live == map[] by { NothingThere(k); }
      UnlinkedTracks(books, live, k, from);
      SumUnlinked(useds, k, from);
      SumUnlinked(Sizes(list), k, from);
      SizesUnlinked(list, k, from);
    }

    lemma NothingThere(k: nat)
      requires ListValid() && Synced() && k < |list| && list[k].used == 0
      ensures books[k].live == map[]
    {
      EmptyNode(list[k].UsedBits(), list[k].ContBits(), list[k].live);
    }

    /** The list part of the removal. */
    method Unlink(k: nat, from: nat)
      requires ListValid() && Synced() && OptimalValid() && k < |list| && from < |list|
      requires var l := Unlinked(list, k, from); RedBlack.Valid(root) && Apart(Items(root)) && SameNodes(Items(root), l)
      requires var b := Unlinked(books, k, from); Proper(b) && Tracks(b, live)
      requires usedBytes == Sum(Unlinked(useds, k, from)) == DENSITY * Total(live) && allocatedBytes == Sum(Sizes(Unlinked(list, k, from)))
      modifies this`list, this`optimal, this`books, this`useds
      ensures Sound() && list == Unlinked(old(list), k, from) && useds == Unlinked(old(useds), k, from)
      ensures optimal == WithoutNode(old(optimal), from, |list|)
    {
      hide RedBlack.Valid, Apart, SameNodes, Proper, Tracks, Sum, Total, ListValid, Synced, Unlinked;
      UnlinkList(k, from);
    }

    method UnlinkList(k: nat, from: nat)
      requires ListValid() && Synced() && OptimalValid() && k < |list| && from < |list|
      modifies this`list, this`optimal, this`books, this`useds
      ensures ListValid() && Synced() && OptimalValid()
      ensures list == Unlinked(old(list), k, from) && books == Unlinked(old(books), k, from) && useds == Unlinked(old(useds), k, from)
      ensures optimal == WithoutNode(old(optimal), from, |list|)
    {
      hide Node.Valid, Unlinked, Unshared, Source;
      UnsharedUnlinked(list, k, from);
      UnlinkedFrom(list, k, from);
      UnlinkedFrom(books, k, from);
      UnlinkedFrom(useds, k, from);
      list := Unlinked(list, k, from);
      books := Unlinked(books, k, from);
      useds := Unlinked(useds, k, from);
      if optimal == from {
        optimal := if from > 0 then from - 1 else if |list| > 0 then 0 else -1;
      } else if optimal > from {
        optimal := optimal - 1;
      }
    }

    /** Gives back the tail of the allocation that has an address: from its block on, the first
        blocks that used bytes take stay. In a block of no allocation there is nothing to give
        back, and an address in no node is an error. */
    method Shrink(p: nat, used: Word) returns (e: Error)
      requires Valid() && (used > 0 || p == 0 || BlockStart(p) in live || !Somewhere(Items(root), p))
      modifies this, repr
      ensures Valid()
      ensures e == if p == 0 || old(Somewhere(Items(root), p)) then Ok else InvalidArgument
      ensures p == 0 || !old(Somewhere(Items(root), p)) || (used > 0 && forall a :: !old(Owner(a, p))) ==>
                live == old(live) && list == old(list) && usedBytes == old(usedBytes)
      ensures p != 0 && BlockStart(p) in old(live) && used == 0 ==> live == old(live) - {BlockStart(p)}
      ensures p != 0 && used > 0 ==> forall a :: old(Owner(a, p)) ==>
                a in live && live == old(live)[a := live[a]] && list == old(list)
                && live[a] == Kept(old(live)[a], (p - a) / DENSITY, BlocksFor(used))
                && usedBytes + DENSITY * old(live)[a] == old(usedBytes) + DENSITY * live[a]
      ensures used > 0 ==> optimal == old(optimal)
    {
      hide Manager.Valid, Manager.Owner, Node.Valid, Apart, Somewhere, Holds, TreeValid, BooksValid, ListValid, BlocksFor, Kept;
      if p == 0 { return Ok; }
      if used == 0 {
        if BlockStart(p) in live { StartOwns(p); SomeNode(BlockStart(p), p); }
        ghost var k, from;
        e, k, from := Release(p);
        return;
      }
      Searchable();
      if !Somewhere(Items(root), p) { NoOwner(p); }
      var found := FindNodeByPtr(root, p);
      if found.None? { return InvalidArgument; }
      var item := found.value;
      var k := Place(item.node);
      ShrinkAt(k, p, BlocksFor(used), item);
      return Ok;
    }

    lemma NoOwner(p: nat)
      requires Valid() && !Somewhere(Items(root), p)
      ensures forall a :: !Owner(a, p)
    {
      hide Manager.Valid, Manager.Owner, Somewhere;
      forall a ensures !Owner(a, p) { if Owner(a, p) { SomeNode(a, p); } }
    }

    /** Every allocation has its own first block. */
    lemma StartOwns(p: nat)
      requires Valid() && BlockStart(p) in live
      ensures Owner(BlockStart(p), p)
    {
      hide ListValid, TreeValid, BooksValid, Synced;
      var k := LiveBlockInside(BlockStart(p));
    }

    method ShrinkAt(k: nat, p: nat, keep: nat, ghost item: Item<Node>)
      requires Valid() && item in Items(root) && Holds(item, p) && k < |list| && list[k] == item.node
      modifies this`usedBytes, this`live, this`books, this`useds, repr
      ensures Valid() && list == old(list) && optimal == old(optimal)
      ensures (forall a :: !old(Owner(a, p))) ==> live == old(live) && usedBytes == old(usedBytes)
      ensures forall a :: old(Owner(a, p)) ==>
                a in live && live == old(live)[a := live[a]] && live[a] == Kept(old(live)[a], (p - a) / DENSITY, keep)
                && usedBytes + DENSITY * old(live)[a] == old(usedBytes) + DENSITY * live[a]
    {
      hide Manager.Owner, TreeValid, BooksValid, ListValid, Node.Valid, Address, Holds, Covers, Kept;
      OwnerAt(p, item, k);
      var node := list[k];
      var i := (p - node.mem) / DENSITY;
      assert {node, node.baUsed, node.baCont} <= repr && this !in repr && |useds| == |list| by { SyncedParts(k); }
      AllUsed();
      assert node.used > 0 && books[k].live == node.live by { BooksAt(k); }
      ghost var keys := books[k].live.Keys;
      assert keys != {} by { EmptyAt(k); }
      ghost var start := CoverOf(k, i);
      Shorten(k, i, keep, start, Address(books[k].mem, start));
      assert useds[k] == node.used && books[k].live == node.live && |books| == |useds| == |list| by { SyncedParts(k); BooksAt(k); }
      assert node.used > 0 by { EmptyAt(k); }
      AllUsed();
    }

    /** The allocation that covers a block, if there is one; there are never two. */
    lemma CoverOf(k: nat, i: nat) returns (start: nat)
      requires BooksValid() && k < |books|
      ensures Covers(books[k].live, start, i) || forall t :: !Covers(books[k].live, t, i)
      ensures Covers(books[k].live, start, i) ==> forall t :: Covers(books[k].live, t, i) ==> t == start
    {
      hide Tracks, Sum, Total;
      assert Separate(books[k].live, books[k].blocks);
      if s :| Covers(books[k].live, s, i) { start := s; } else { start := 0; }
    }

    lemma BooksAt(k: nat)
      requires Synced() && k < |list|
      ensures |books| == |list| && books[k].live == list[k].live
    {
    }

    /** Between calls live blocks are pairwise disjoint. */
    lemma LiveBlocksApart(a: nat, b: nat)
      requires Valid() && a in live && b in live && a < b
      ensures a + DENSITY * live[a] <= b
    {
      hide ListValid, TreeValid, Synced, Proper, Tracks;
      LiveApart(books, live, a, b);
    }

    /** Every live block is aligned, not empty, and inside one mapped range. */
    lemma LiveBlockInside(a: nat) returns (k: nat)
      requires Valid() && a in live
      ensures a % DENSITY == 0 && live[a] > 0
      ensures k < |list| && list[k].mem <= a && a + DENSITY * live[a] <= list[k].mem + list[k].size
    {
      hide TreeValid, Sum, Tracks, Proper, Node.Valid, Unshared;
      Shapes();
      k := LiveInside(books, live, a);
      assert books[k].mem == list[k].mem && books[k].blocks == list[k].blocks;
    }

    /** Conservation: the statistics are the live blocks, the bits set and the ranges mapped. */
    lemma Accounts()
      requires Valid()
      ensures usedBytes == DENSITY * Total(live) && allocatedBytes == Sum(Sizes(list))
      ensures |useds| == |list| && usedBytes == Sum(useds)
      ensures forall k :: 0 <= k < |list| ==> list[k].Shape() && useds[k] == list[k].used == DENSITY * Count(list[k].UsedBits())
    {
      hide TreeValid, Proper, Tracks, Total, Sum, Sizes, Encodes, Count;
    }

    lemma Searchable()
      requires Valid()
      ensures Apart(Items(root)) && forall i :: i in Items(root) ==> i.node in list
    {
      hide RedBlack.Valid, Apart;
    }

    /** What release does once the node is found. */
    method ReleaseAt(k: nat, p: nat, ghost item: Item<Node>) returns (ghost from: nat)
      requires Valid() && BlockStart(p) in live && item in Items(root) && Holds(item, p) && k < |list| && list[k] == item.node
      modifies this, repr
      ensures Valid() && repr == old(repr) && live == old(live) - {BlockStart(p)} && usedBytes + DENSITY * old(live)[BlockStart(p)] == old(usedBytes)
      ensures if old(list)[k].live == map[]
              then |list| == |old(list)| - 1 && allocatedBytes + old(list)[k].size == old(allocatedBytes)
              else list == old(list) && allocatedBytes == old(allocatedBytes)
      ensures var o := old(if list[k].used == list[k].size && k < optimal then k else optimal);
              if list == old(list) then optimal == o else from < |old(list)| && list == Unlinked(old(list), k, from) && optimal == WithoutNode(o, from, |list|)
      ensures list == old(list) ==> exists i :: HasRoom(k, i, old(live)[BlockStart(p)])
      ensures p >= old(list)[k].mem && (list == old(list) <==> old(list[k].live.Keys) != {(p - old(list)[k].mem) / DENSITY})
    {
      hide TreeValid, BooksValid, ListValid, Node.Valid, BlockStart, HasRoom;
      FoundNode(p, item, k);
      var node := list[k];
      assert {node, node.baUsed, node.baCont} <= repr && this !in repr && |useds| == |list| by { SyncedParts(k); }
      AllUsed();
      ghost var us := useds;
      var full := node.used == node.size;
      ghost var keys := node.live.Keys;
      assert books[k].live == node.live by { SyncedParts(k); BooksAt(k); }
      var bytes := Uncommit(k, (p - node.mem) / DENSITY, BlockStart(p));
      assert node.live.Keys == keys - {(p - node.mem) / DENSITY} by { SyncedParts(k); BooksAt(k); }
      KeysLeft(keys, node.live.Keys, (p - node.mem) / DENSITY);
      assert HasRoom(k, (p - node.mem) / DENSITY, old(live)[BlockStart(p)]);
      from := 0;
      if full { PullBack(node, k); }
      assert HasRoom(k, (p - node.mem) / DENSITY, old(live)[BlockStart(p)]);
      assert useds[k] == node.used by { SyncedParts(k); }
      assert node.used == 0 <==> node.live == map[] by { EmptyAt(k); }
      if node.used == 0 {
        ghost var way, leaf;
        from, way, leaf := Drop(k);
        StillUsed(us, k, from);
      }
      AllUsed();
    }

    lemma EmptyAt(k: nat)
      requires ListValid() && k < |list|
      ensures list[k].used == 0 <==> list[k].live == map[]
    {
      hide Encodes;
      EmptyNode(list[k].UsedBits(), list[k].ContBits(), list[k].live);
    }

    lemma AllUsed()
      requires Sound()
      ensures Valid() <==> forall j :: 0 <= j < |useds| ==> useds[j] > 0
    {
      hide TreeValid, BooksValid, ListValid;
    }

    lemma SyncedParts(k: nat)
      requires Synced() && k < |list|
      ensures list[k] in repr && list[k].baUsed in repr && list[k].baCont in repr && this !in repr
      ensures |useds| == |list| && useds[k] == list[k].used
    {
    }

    /** Gives back the allocation in whose first block an address lies. A node whose last
        allocation this was goes, and its range with it. */
    method Release(p: nat) returns (e: Error, ghost k: nat, ghost from: nat)
      requires Valid() && (p == 0 || BlockStart(p) in live || !Somewhere(Items(root), p))
      modifies this, repr
      ensures Valid()
      ensures e == if p == 0 || old(Somewhere(Items(root), p)) then Ok else InvalidArgument
      ensures p == 0 || BlockStart(p) !in old(live) ==> live == old(live) && list == old(list) && usedBytes == old(usedBytes)
      ensures p != 0 && BlockStart(p) in old(live) ==>
                live == old(live) - {BlockStart(p)} && usedBytes + DENSITY * old(live)[BlockStart(p)] == old(usedBytes)
      ensures repr == old(repr) && (p == 0 || BlockStart(p) !in old(live) ==> optimal == old(optimal))
      ensures p != 0 && BlockStart(p) in old(live) ==>
                && k < |old(list)| && old(list[k].mem <= p < list[k].mem + list[k].size)
                && (list == old(list) <==> old(exists a :: a in live && a != BlockStart(p) && list[k].mem <= a < list[k].mem + list[k].size))
                && var o := old(if list[k].used == list[k].size && k < optimal then k else optimal);
                   if list == old(list) then optimal == o && exists i :: HasRoom(k, i, old(live)[BlockStart(p)])
                   else from < |old(list)| && list == Unlinked(old(list), k, from) && optimal == WithoutNode(o, from, |list|)
    {
      hide Manager.Valid, Manager.Owner, Node.Valid, Apart, Somewhere, Holds, TreeValid, BooksValid, ListValid, BlockStart;
      k, from := 0, 0;
      if p == 0 { return Ok, k, from; }
      Searchable();
      var found := FindNodeByPtr(root, p);
      if BlockStart(p) in live {
        StartOwns(p);
        SomeNode(BlockStart(p), p);
      }
      if found.None? { return InvalidArgument, k, from; }
      var item := found.value;
      var at := Place(item.node);
      k := at;
      OthersThere(p, item, k);
      from := ReleaseAt(at, p, item);
      return Ok, k, from;
    }

    /** A release and the next request: when the node of the released allocation was full, lies in
        front of the one where the search starts, and has other allocations, then a request for no
        more than was released is served by that very node, although a search had given it up. */
    method ReleaseAndReuse(p: nat, size: Word, os: Option<Mapping>, ghost n: nat) returns (q: nat)
      requires Valid() && BlockStart(p) in live && 0 < size <= DENSITY * live[BlockStart(p)]
      requires n < |list| && n < optimal && list[n].used == list[n].size && list[n].mem <= p < list[n].mem + list[n].size
      requires exists a :: a in live && a != BlockStart(p) && list[n].mem <= a < list[n].mem + list[n].size
      requires os.Some? ==> Usable(os.value, Aligned(size))
      modifies this, repr
      ensures Valid() && list == old(list) && q !in old(live) - {BlockStart(p)}
      ensures live == (old(live) - {BlockStart(p)})[q := Granted(size)]
      ensures list[n].mem <= q < list[n].mem + list[n].size
    {
      hide Manager.Valid, Node.Valid, TreeValid, BooksValid, ListValid, BlockStart, HasRoom, Advances, FirstFit, FreeRun;
      OnlyNode(p, n);
      ghost var e, k, from;
      e, k, from := Release(p);
      ghost var m := old(live)[BlockStart(p)];
      ghost var i :| HasRoom(n, i, m);
      RoomServes(n, i, m, size);
      ghost var at, start, o;
      q, at, start, o := Alloc(size, os);
    }

    /** One node has an address. */
    lemma OnlyNode(p: nat, n: nat)
      requires Valid() && n < |list| && list[n].mem <= p < list[n].mem + list[n].size
      ensures p != 0 && forall k :: 0 <= k < |list| && list[k].mem <= p < list[k].mem + list[k].size ==> k == n
    {
      hide TreeValid, Tracks, Sum, Total, Encodes;
      Shapes();
      forall k | 0 <= k < |list| && list[k].mem <= p < list[k].mem + list[k].size
        ensures k == n
      {
        assert books[k].mem == list[k].mem && books[n].mem == list[n].mem;
        assert k != n ==> Before(books[k], books[n]) || Before(books[n], books[k]);
      }
    }

    /** A node with room for a request is not passed over. */
    lemma RoomServes(n: nat, i: nat, m: nat, size: Word)
      requires Valid() && HasRoom(n, i, m) && 0 < size <= DENSITY * m
      ensures !NoRoom(n, Aligned(size)) && 0 < Aligned(size) && size <= M - 32
      ensures forall b: nat, q: nat :: FirstIn(n, b, Granted(size), q) ==> list[n].mem <= q < list[n].mem + list[n].size
    {
      hide Manager.Valid, Aligned, BlocksFor;
      Bounds();
      RequestFits(size, m);
      assert FreeRun(list[n].UsedBits(), i, Granted(size));
    }

    /** The new node takes its place at the end of the list and in the tree. */
    method Append(node: Node, grown: Tree<Node>)
      requires Valid() && node.Valid() && node !in repr && node.baUsed !in repr && node.baCont !in repr && node.live == map[] && node.used == 0
      requires {this} !! {node, node.baUsed, node.baCont}
      requires node.mem > 0 && node.mem + node.size <= M
      requires RedBlack.Valid(grown) && Apart(Items(grown)) && SameNodes(Items(grown), list + [node])
      requires var b := books + [Entry(node.mem, node.blocks, map[])]; Proper(b) && Tracks(b, live)
      requires Sum(useds + [0]) == Sum(useds) && Sum(Sizes(list + [node])) == Sum(Sizes(list)) + node.size
      modifies this
      ensures Sound() && list == old(list) + [node] && live == old(live) && useds == old(useds) + [0]
      ensures optimal == if old(optimal) < 0 then 0 else old(optimal)
      ensures usedBytes == old(usedBytes) && allocatedBytes == old(allocatedBytes) + node.size
      ensures repr == old(repr) + {node, node.baUsed, node.baCont}
    {
      hide RedBlack.Valid, Apart, SameNodes, Proper, Tracks, Sum, Node.Valid, ListValid;
      AppendList(node);
      root := grown;
      allocatedBytes := allocatedBytes + node.size;
    }

    method AppendList(node: Node)
      requires ListValid() && OptimalValid() && Synced()
      requires node.Valid() && node !in repr && node.baUsed !in repr && node.baCont !in repr && node.live == map[] && node.used == 0
      requires {this} !! {node, node.baUsed, node.baCont} && node.mem > 0 && node.mem + node.size <= M
      modifies this`list, this`optimal, this`books, this`useds, this`repr
      ensures ListValid() && OptimalValid() && Synced() && list == old(list) + [node] && useds == old(useds) + [0]
      ensures optimal == if old(optimal) < 0 then 0 else old(optimal)
      ensures books == old(books) + [Entry(node.mem, node.blocks, map[])]
      ensures repr == old(repr) + {node, node.baUsed, node.baCont}
    {
      hide Node.Valid, Unshared;
      UnsharedMore(list, node, repr);
      list := list + [node];
      if optimal < 0 { optimal := 0; }
      books := books + [Entry(node.mem, node.blocks, map[])];
      useds := useds + [0];
      repr := repr + {node, node.baUsed, node.baCont};
    }
  }

  lemma {:induction false} OthersRecorded(s: seq<Entry>, live: map<nat, nat>, k: nat, i: nat)
    requires Proper(s) && Tracks(s, live) && k < |s| && i in s[k].live
    ensures s[k].live.Keys != {i} <==>
              exists a :: a in live && a != Address(s[k].mem, i) && s[k].mem <= a < s[k].mem + DENSITY * s[k].blocks
  {
    hide Proper, Tracks;
    if s[k].live.Keys != {i} {
      var b :| b in s[k].live && b != i;
      RecordedAt(s, live, k, b);
    } else {
      forall a | a in live && s[k].mem <= a < s[k].mem + DENSITY * s[k].blocks
        ensures a == Address(s[k].mem, i)
      {
        OwnerHolds(s, live, a, k);
      }
    }
  }

  lemma {:induction false} RecordedAt(s: seq<Entry>, live: map<nat, nat>, k: nat, b: nat)
    requires Proper(s) && Tracks(s, live) && k < |s| && b in s[k].live
    ensures var a := Address(s[k].mem, b); a in live && s[k].mem <= a < s[k].mem + DENSITY * s[k].blocks
  {
    assert Recorded(s[k], live, b) && Separate(s[k].live, s[k].blocks);
  }

  /** A request of at most m blocks' bytes takes at most m blocks. */
  lemma RequestFits(size: Word, m: nat)
    requires 0 < size <= DENSITY * m <= M - DENSITY
    ensures 0 < Aligned(size) <= DENSITY * m && 0 < Granted(size) <= m && Aligned(size) <= DENSITY * Granted(size)
  {
    hide Aligned, BlocksFor;
    assert 0 < Aligned(size) <= DENSITY * m by { AlignedFits(Aligned(size), size, m); }
    BlocksFit(BlocksFor(Aligned(size)), Aligned(size), m);
  }

  lemma AlignedFits(v: nat, size: nat, m: nat)
    requires 0 < size <= 64 * m && size <= v < size + 32 && v % 32 == 0
    ensures 0 < v <= 64 * m
  {
    var q := v / 32;
    assert v == 32 * q && q < 2 * m + 1;
  }

  lemma BlocksFit(n: nat, v: nat, m: nat)
    requires 0 < v <= 64 * m && 64 * n >= v && 64 * n < v + 64
    ensures 0 < n <= m
  {
  }

  lemma KeysLeft(a: set<nat>, b: set<nat>, i: nat)
    requires i in a && b == a - {i}
    ensures b == {} <==> a == {i}
  {
    assert a == b + {i};
  }

  lemma SameBlock(mem: nat, p: nat)
    requires mem % DENSITY == 0 && mem <= p
    ensures mem <= BlockStart(p) <= p && BlockStart(p) == mem + DENSITY * ((p - mem) / DENSITY)
    ensures (BlockStart(p) - mem) / DENSITY == (p - mem) / DENSITY
  {
    var i := (p - mem) / DENSITY;
    assert p == mem + DENSITY * i + (p - mem) % DENSITY;
    assert p % DENSITY == (p - mem) % DENSITY;
  }

  /** Within node k, the allocations of the node and those by address cover the same bytes. */
  lemma {:induction false} Covered(s: seq<Entry>, live: map<nat, nat>, p: nat, k: nat)
    requires Proper(s) && Tracks(s, live) && k < |s| && s[k].mem <= p < s[k].mem + DENSITY * s[k].blocks
    ensures forall b :: Covers(s[k].live, b, (p - s[k].mem) / DENSITY) ==>
              var a := Address(s[k].mem, b);
              a in live && live[a] == s[k].live[b] && a <= p < a + DENSITY * live[a] && (p - a) / DENSITY == (p - s[k].mem) / DENSITY - b
    ensures forall a :: a in live && a <= p < a + DENSITY * live[a] ==>
              exists b :: a == Address(s[k].mem, b) && Covers(s[k].live, b, (p - s[k].mem) / DENSITY)
  {
    var i := (p - s[k].mem) / DENSITY;
    forall b | Covers(s[k].live, b, i)
      ensures var a := Address(s[k].mem, b);
              a in live && live[a] == s[k].live[b] && a <= p < a + DENSITY * live[a] && (p - a) / DENSITY == i - b
    {
      assert Recorded(s[k], live, b);
    }
    forall a | a in live && a <= p < a + DENSITY * live[a]
      ensures exists b :: a == Address(s[k].mem, b) && Covers(s[k].live, b, i)
    {
      var j := LiveInside(s, live, a);
      assert j != k ==> Before(s[j], s[k]) || Before(s[k], s[j]);
      OwnerHolds(s, live, a, k);
      assert Covers(s[k].live, (a - s[k].mem) / DENSITY, i);
    }
  }

  lemma {:induction false} OwnerHolds(s: seq<Entry>, live: map<nat, nat>, p: nat, k: nat)
    requires Proper(s) && Tracks(s, live) && p in live && k < |s| && s[k].mem <= p < s[k].mem + DENSITY * s[k].blocks
    ensures (p - s[k].mem) / DENSITY in s[k].live && p == Address(s[k].mem, (p - s[k].mem) / DENSITY)
    ensures live[p] == s[k].live[(p - s[k].mem) / DENSITY]
  {
    hide Owns;
    var j :| 0 <= j < |s| && Owns(s[j].mem, s[j].live, p);
    var b := OwnedAt(s[j].mem, s[j].live, p);
    OwnsAddress(s[j].mem, s[j].live, b);
    assert Recorded(s[j], live, b);
  }

  lemma {:induction false} StillUsed(us: seq<nat>, k: nat, from: nat)
    requires k < |us| && from < |us| && forall j :: 0 <= j < |us| ==> us[j] > 0
    ensures var t := Unlinked(us[k := 0], k, from); |t| == |us| - 1 && forall j :: 0 <= j < |t| ==> t[j] > 0
  {
    UnlinkedFrom(us[k := 0], k, from);
  }

  lemma {:induction false} Present(items: seq<Item<Node>>, s: seq<Node>, k: nat)
    requires SameNodes(items, s) && k < |s|
    ensures !Absent(items, s[k].mem)
  {
    assert RangeOf(s[k]) in items;
    var j :| 0 <= j < |items| && items[j] == RangeOf(s[k]);
  }

  lemma {:induction false} LastAmong(items: seq<Item<Node>>, s: seq<Node>, last: Item<Node>)
    requires SameNodes(items, s) && last in items
    ensures last.node in s && last == RangeOf(last.node)
  {
  }

  lemma {:induction false} SizesUnlinked(s: seq<Node>, k: nat, from: nat)
    requires k < |s| && from < |s|
    ensures Sizes(Unlinked(s, k, from)) == Unlinked(Sizes(s), k, from)
  {
    UnlinkedFrom(s, k, from);
    UnlinkedFrom(Sizes(s), k, from);
  }

  lemma {:induction false} RemovedHas<N>(s: seq<Item<N>>, x: nat)
    requires Sorted(s)
    ensures forall i :: i in Removed(s, x) <==> i in s && i.lo != x
    decreases |s|
  {
    if |s| > 0 && s[0].lo != x {
      assert s == [s[0]] + s[1..];
      SortedHead(s);
      RemovedHas(s[1..], x);
    } else if |s| > 0 {
      assert s == [s[0]] + s[1..];
      SortedHead(s);
    }
  }

  lemma {:induction false} RemovedIff(s: seq<Item<Node>>, x: nat, i: Item<Node>)
    requires Sorted(s)
    ensures i in Removed(s, x) <==> i in s && i.lo != x
  {
    RemovedHas(s, x);
  }

  lemma {:induction false} RemovedApart<N>(s: seq<Item<N>>, x: nat)
    requires Apart(s)
    ensures Apart(Removed(s, x))
  {
    if |s| > 0 {
      assert s == [s[0]] + s[1..];
      ApartCat([s[0]], s[1..]);
      if s[0].lo != x {
        RemovedApart(s[1..], x);
        var t := Removed(s[1..], x);
        forall k | 0 <= k < |t| ensures s[0].hi <= t[k].lo {
          RemovedAmong(s[1..], x, t[k]);
          var j :| 0 <= j < |s[1..]| && s[1..][j] == t[k];
          assert [s[0]][0] == s[0];
        }
      }
    }
  }

  lemma {:induction false} RemovedAmong<N>(s: seq<Item<N>>, x: nat, i: Item<N>)
    requires i in Removed(s, x)
    ensures i in s
  {
    if |s| > 0 {
      assert s == [s[0]] + s[1..];
      if s[0].lo != x && i != s[0] { RemovedAmong(s[1..], x, i); }
    }
  }

  /** Without the empty node, tree and list still have the same nodes. */
  lemma {:induction false} TreeShrinks(items: seq<Item<Node>>, s: seq<Node>, k: nat, from: nat)
    requires Sorted(items) && SameNodes(items, s) && Apart(items) && Unshared(s) && k < |s| && from < |s|
    ensures Apart(Removed(items, s[k].mem)) && SameNodes(Removed(items, s[k].mem), Unlinked(s, k, from))
  {
    hide Sorted, Apart, Unlinked, Absent;
    var r, u := Removed(items, s[k].mem), Unlinked(s, k, from);
    RemovedApart(items, s[k].mem);
    RemovedSorted(items, s[k].mem);
    Present(items, s, k);
    UnlinkedFrom(s, k, from);
    forall i | i in r
      ensures i.node in u && i == RangeOf(i.node)
    {
      RemovedIff(items, s[k].mem, i);
      assert i.node in s;
      var j :| 0 <= j < |s| && s[j] == i.node;
      assert j != k;
      var m := UnlinkedHas(s, k, from, j);
    }
    forall n | n in u
      ensures RangeOf(n) in r
    {
      var j :| 0 <= j < |u| && u[j] == n;
      var m := Source(|s|, k, from, j);
      assert NoShare(s[m], s[k]);
      SameStart(items, s, m, k);
      RemovedIff(items, s[k].mem, RangeOf(n));
    }
  }

  /** Different nodes start at different addresses. */
  lemma {:induction false} SameStart(items: seq<Item<Node>>, s: seq<Node>, i: nat, j: nat)
    requires Sorted(items) && SameNodes(items, s) && i < |s| && j < |s| && s[i] != s[j]
    ensures s[i].mem != s[j].mem
  {
    assert RangeOf(s[i]) in items && RangeOf(s[j]) in items;
    var x :| 0 <= x < |items| && items[x] == RangeOf(s[i]);
    var y :| 0 <= y < |items| && items[y] == RangeOf(s[j]);
  }

  lemma {:induction false} UnsharedUnlinked(s: seq<Node>, k: nat, from: nat)
    requires Unshared(s) && k < |s| && from < |s|
    ensures Unshared(Unlinked(s, k, from))
  {
    hide Unlinked, NoShare, Source;
    UnlinkedFrom(s, k, from);
    var t := Unlinked(s, k, from);
    forall i, j | 0 <= i < |t| && 0 <= j < |t| && i != j ensures NoShare(t[i], t[j]) {
      assert Source(|s|, k, from, i) != Source(|s|, k, from, j);
    }
  }

  lemma {:induction false} FitIsFree(u: seq<bool>, i: nat, n: nat)
    requires FirstFit(u, i, n)
    ensures FreeRun(u, i, n)
  {
  }

  lemma {:induction false} EmptyFree(n: Node, need: nat)
    requires n.Valid() && n.live == map[] && DENSITY * need <= n.size
    ensures FreeRun(n.UsedBits(), 0, need)
  {
    NoneUsed(n.UsedBits(), n.ContBits(), n.live);
    CountBound(n.UsedBits());
  }

  lemma {:induction false} UnsharedMore(s: seq<Node>, n: Node, repr: set<object>)
    requires Unshared(s) && n !in repr && n.baUsed !in repr && n.baCont !in repr
    requires forall k :: 0 <= k < |s| ==> s[k] in repr && s[k].baUsed in repr && s[k].baCont in repr
    ensures Unshared(s + [n])
  {
  }

  lemma {:induction false} TreeSorted<N>(t: Tree<N>)
    requires RedBlack.Valid(t)
    ensures Sorted(Items(t))
  {
  }

  ghost predicate OffRange(a: Node, b: Node) { a.mem + a.size <= b.mem || b.mem + b.size <= a.mem }

  lemma {:induction false} FreshAddress(items: seq<Item<Node>>, s: seq<Node>, n: Node)
    requires SameNodes(items, s) && Apart(items) && n.size > 0 && forall k :: 0 <= k < |s| ==> OffRange(s[k], n)
    ensures Absent(items, n.mem)
  {
    forall k | 0 <= k < |items| ensures items[k].lo != n.mem {
      assert items[k] in items;
      var j :| 0 <= j < |s| && s[j] == items[k].node;
    }
  }

  lemma {:induction false} ApartInserted(l: seq<Item<Node>>, m: Item<Node>, r: seq<Item<Node>>)
    requires Apart(l + r) && m.lo < m.hi && Below(l, m.lo) && Beyond(r, m.lo)
    requires forall k :: 0 <= k < |l| ==> l[k].hi <= m.lo || m.hi <= l[k].lo
    requires forall k :: 0 <= k < |r| ==> r[k].hi <= m.lo || m.hi <= r[k].lo
    ensures Apart(l + [m] + r)
  {
    ApartCat(l, r);
    var s := l + [m] + r;
    forall i, j | 0 <= i < j < |s|
      ensures s[i].hi <= s[j].lo
    {
      if j < |l| {
        assert s[i] == l[i] && s[j] == l[j];
      } else if i > |l| {
        assert s[i] == r[i - |l| - 1] && s[j] == r[j - |l| - 1];
      } else if j > |l| {
        assert s[j] == r[j - |l| - 1];
      }
    }
    forall i | 0 <= i < |s| ensures s[i].lo < s[i].hi {
      if i > |l| { assert s[i] == r[i - |l| - 1]; }
    }
  }

  /** The tree with one more node still has the nodes of the list. */
  lemma {:induction false} TreeGrows(items: seq<Item<Node>>, s: seq<Node>, n: Node)
    requires Sorted(items) && SameNodes(items, s) && Apart(items) && n.size > 0 && n !in s && Absent(items, n.mem)
    requires forall k :: 0 <= k < |s| ==> OffRange(s[k], n)
    ensures Apart(Inserted(items, RangeOf(n))) && SameNodes(Inserted(items, RangeOf(n)), s + [n])
  {
    hide Sorted, Below, Beyond, Apart, Absent, Inserted;
    var m := RangeOf(n);
    var k := SplitAt(items, n.mem);
    var l, r := items[..k], items[k..];
    assert items == l + r;
    InsertedAt(l, r, m);
    forall i | 0 <= i < |l| ensures l[i].hi <= m.lo || m.hi <= l[i].lo { assert items[i] in items; RangeOff(items, s, n, l[i]); }
    forall i | 0 <= i < |r| ensures r[i].hi <= m.lo || m.hi <= r[i].lo { assert items[k + i] in items; RangeOff(items, s, n, r[i]); }
    ApartInserted(l, m, r);
    var t := l + [m] + r;
    assert forall i :: i in t <==> i in items || i == m;
  }

  lemma {:induction false} RangeOff(items: seq<Item<Node>>, s: seq<Node>, n: Node, i: Item<Node>)
    requires SameNodes(items, s) && i in items && forall k :: 0 <= k < |s| ==> OffRange(s[k], n)
    ensures i.hi <= n.mem || n.mem + n.size <= i.lo
  {
    var j :| 0 <= j < |s| && s[j] == i.node;
  }

  lemma {:induction false} BooksGrow(books: seq<Entry>, live: map<nat, nat>, useds: seq<nat>, s: seq<Node>, n: Node)
    requires Proper(books) && Tracks(books, live) && |books| == |s| && n.mem % DENSITY == 0 && n.size == DENSITY * n.blocks
    requires forall k :: 0 <= k < |s| ==> books[k].mem == s[k].mem && s[k].size == DENSITY * s[k].blocks && books[k].blocks == s[k].blocks
    requires forall k :: 0 <= k < |s| ==> OffRange(s[k], n)
    ensures Proper(books + [Entry(n.mem, n.blocks, map[])]) && Tracks(books + [Entry(n.mem, n.blocks, map[])], live)
    ensures Sum(useds + [0]) == Sum(useds) && Sum(Sizes(s + [n])) == Sum(Sizes(s)) + n.size
  {
    hide Proper, Tracks;
    Added(books, live, Entry(n.mem, n.blocks, map[]));
    assert (useds + [0])[..|useds|] == useds;
    assert (s + [n])[..|s|] == s;
    assert Sizes(s + [n])[..|s|] == Sizes(s);
  }

  lemma ValidShape(n: Node)
    requires n.Valid()
    ensures n.Shape()
  {
  }

  lemma ValidSeparate(n: Node)
    requires n.Valid()
    ensures Separate(n.live, n.blocks)
  {
  }
}