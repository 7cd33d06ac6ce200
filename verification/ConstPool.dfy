/** The constant pool: constants of 1 to 32 bytes, laid out so that each is aligned to its size
    and stored once, smaller constants found inside larger ones. */
module ConstPool {
  import opened Word32
  import opened AATree

  const INDEX_COUNT := 6

  /** Sizes by index: 1, 2, 4, 8, 16, 32. */
  function Size(i: nat): (n: nat)
    ensures n > 0
  {
    if i == 0 then 1 else 2 * Size(i - 1)
  }

  function IndexOf(size: nat): Option<nat> {
    if size == 32 then Some(5)
    else if size == 16 then Some(4)
    else if size == 8 then Some(3)
    else if size == 4 then Some(2)
    else if size == 2 then Some(1)
    else if size == 1 then Some(0)
    else None
  }

  lemma Sizes()
    ensures Size(0) == 1 && Size(1) == 2 && Size(2) == 4 && Size(3) == 8 && Size(4) == 16 && Size(5) == 32
  {
  }

  datatype Gap = Gap(offset: nat, length: nat)

  predicate Apart(a: Gap, b: Gap) { a.offset + a.length <= b.offset || b.offset + b.length <= a.offset }

  // ---- gaps ------------------------------------------------------------------------------

  /** The gap at place x of list i. */
  predicate Has(gaps: seq<seq<Gap>>, i: int, x: int) { 0 <= i < |gaps| && 0 <= x < |gaps[i]| }

  /** Every gap of list i is an aligned run of Size(i) free bytes. */
  ghost predicate GapsFree(gaps: seq<seq<Gap>>, free: set<nat>) {
    && |gaps| == INDEX_COUNT
    && forall i, x :: Has(gaps, i, x) ==> FreeGap(gaps[i][x], i, free)
  }

  ghost predicate FreeGap(g: Gap, i: nat, free: set<nat>) {
    && g.length == Size(i) && g.offset % Size(i) == 0
    && forall b :: g.offset <= b < g.offset + g.length ==> b in free
  }

  ghost predicate GapsApart(gaps: seq<seq<Gap>>) {
    forall i, x, j, y :: Has(gaps, i, x) && Has(gaps, j, y) && (i != j || x != y) ==> Apart(gaps[i][x], gaps[j][y])
  }

  function Pushed(gaps: seq<seq<Gap>>, i: nat, g: Gap): seq<seq<Gap>>
    requires i < |gaps|
  {
    gaps[i := [g] + gaps[i]]
  }

  lemma {:induction false} PushGap(gaps: seq<seq<Gap>>, free: set<nat>, i: nat, g: Gap)
    requires GapsFree(gaps, free) && GapsApart(gaps) && i < INDEX_COUNT && FreeGap(g, i, free)
    requires forall j, y :: Has(gaps, j, y) ==> Apart(g, gaps[j][y])
    ensures GapsFree(Pushed(gaps, i, g), free) && GapsApart(Pushed(gaps, i, g))
  {
    hide FreeGap, Apart;
    var t := Pushed(gaps, i, g);
    forall j, y | Has(t, j, y)
      ensures (j == i && y == 0 && t[j][y] == g) || (Has(gaps, j, if j == i then y - 1 else y) && t[j][y] == gaps[j][if j == i then y - 1 else y])
    {
    }
    forall j, y, k, z | Has(t, j, y) && Has(t, k, z) && (j != k || y != z)
      ensures Apart(t[j][y], t[k][z])
    {
      if j == i && y == 0 {
        assert Has(gaps, k, if k == i then z - 1 else z);
        ApartComm(g, t[k][z]);
      } else if k == i && z == 0 {
        assert Has(gaps, j, if j == i then y - 1 else y);
        ApartComm(g, t[j][y]);
      } else {
        assert Has(gaps, j, if j == i then y - 1 else y) && Has(gaps, k, if k == i then z - 1 else z);
      }
    }
  }

  lemma {:induction false} ApartComm(a: Gap, b: Gap)
    ensures Apart(a, b) <==> Apart(b, a)
  {
  }

  /** Without the first gap of list i, and its bytes. */
  lemma {:induction false} PopGap(gaps: seq<seq<Gap>>, free: set<nat>, i: nat, rest: set<nat>)
    requires GapsFree(gaps, free) && GapsApart(gaps) && i < INDEX_COUNT && |gaps[i]| > 0
    requires forall b :: b in free && !(gaps[i][0].offset <= b < gaps[i][0].offset + gaps[i][0].length) ==> b in rest
    ensures var t := gaps[i := gaps[i][1..]]; GapsFree(t, rest) && GapsApart(t)
    ensures FreeGap(gaps[i][0], i, free)
  {
    var t := gaps[i := gaps[i][1..]];
    assert Has(gaps, i, 0);
    forall j, y | Has(t, j, y)
      ensures Has(gaps, j, if j == i then y + 1 else y) && t[j][y] == gaps[j][if j == i then y + 1 else y]
      ensures FreeGap(t[j][y], j, rest)
    {
      var z := if j == i then y + 1 else y;
      assert Has(gaps, j, z);
      assert Apart(gaps[i][0], gaps[j][z]);
    }
    forall j, y, k, z | Has(t, j, y) && Has(t, k, z) && (j != k || y != z)
      ensures Apart(t[j][y], t[k][z])
    {
      assert Has(gaps, j, if j == i then y + 1 else y) && Has(gaps, k, if k == i then z + 1 else z);
    }
  }

  lemma {:induction false} MoreFree(gaps: seq<seq<Gap>>, free: set<nat>, more: set<nat>)
    requires GapsFree(gaps, free) && free <= more
    ensures GapsFree(gaps, more)
  {
    forall i, x | Has(gaps, i, x) ensures FreeGap(gaps[i][x], i, more) { assert FreeGap(gaps[i][x], i, free); }
  }

  // ---- constants ---------------------------------------------------------------------------

  /** The constant lies in the image at its offset. */
  ghost predicate Placed(c: Constant, image: seq<Byte>) {
    c.offset + |c.data| <= |image| && image[c.offset..c.offset + |c.data|] == c.data
  }

  predicate Covers(c: Constant, b: int) { c.offset <= b < c.offset + |c.data| }

  /** Constants of one tree: placed, aligned, and clear of the free bytes. */
  ghost predicate TreeHolds(t: Tree, i: nat, image: seq<Byte>, free: set<nat>) {
    && Valid(t, Size(i))
    && forall c :: c in Items(t) ==> Placed(c, image) && c.offset % Size(i) == 0 && Clear(c, free)
  }

  ghost predicate Clear(c: Constant, free: set<nat>) { forall b :: Covers(c, b) ==> b !in free }

  /** Some constant of its own covers the byte. */
  ghost predicate Covered(trees: seq<Tree>, b: int) {
    exists i, c :: 0 <= i < |trees| && c in Items(trees[i]) && !c.shared && Covers(c, b)
  }

  /** A constant with this data was placed at this offset. */
  ghost predicate Known(trees: seq<Tree>, d: Data, o: nat) {
    exists i, c :: 0 <= i < |trees| && c in Items(trees[i]) && c.data == d && c.offset == o
  }

  /** From a to b, nothing becomes known but d at o. */
  ghost predicate OnlyAdds(a: seq<Tree>, b: seq<Tree>, d: Data, o: nat) {
    forall x, y :: Known(b, x, y) ==> Known(a, x, y) || (x == d && y == o)
  }

  /** d is a part of a constant, and o where that part of it lies. */
  ghost predicate Part(d: Data, o: nat, data: Data, offset: nat) {
    4 <= |d| < |data| && offset <= o && o + |d| <= offset + |data| && d == data[o - offset..o - offset + |d|]
  }

  /** From a to b, nothing becomes known but parts of a constant, where they lie. */
  ghost predicate OnlyParts(a: seq<Tree>, b: seq<Tree>, data: Data, offset: nat) {
    forall x, y :: Known(b, x, y) ==> Known(a, x, y) || Part(x, y, data, offset)
  }

  ghost predicate SomeOffset(trees: seq<Tree>, d: Data) { exists o :: Known(trees, d, o) }

  /** The parts of a constant, of one size, that lie in front of pos, have offsets of their own. */
  ghost predicate PartsKnown(trees: seq<Tree>, data: Data, part: nat, pos: nat)
    requires part > 0
  {
    forall q: nat :: q % part == 0 && q + part <= pos <= |data| ==> SomeOffset(trees, data[q..q + part])
  }

  /** The parts of a constant, in halves down to four bytes, have offsets of their own. */
  ghost predicate Shared(trees: seq<Tree>, data: Data) {
    forall part: nat :: 4 <= part < |data| && IndexOf(part).Some? ==> PartsKnown(trees, data, part, |data|)
  }

  /** Nothing has been placed at n bytes from o on, and no gap has them. */
  ghost predicate Reserved(trees: seq<Tree>, image: seq<Byte>, free: set<nat>, o: nat, n: nat) {
    && o + n <= |image|
    && (forall b :: o <= b < o + n ==> b !in free && image[b] == 0)
    && (forall i, c, b :: 0 <= i < |trees| && c in Items(trees[i]) && o <= b < o + n ==> !Covers(c, b))
  }

  ghost predicate TreesHold(trees: seq<Tree>, image: seq<Byte>, free: set<nat>) {
    |trees| == INDEX_COUNT && forall i :: 0 <= i < INDEX_COUNT ==> TreeHolds(trees[i], i, image, free)
  }

  /** Free bytes are zero, and so is every byte that no constant of its own covers. */
  ghost predicate Blank(trees: seq<Tree>, image: seq<Byte>, free: set<nat>) {
    && (forall b :: b in free ==> b < |image| && image[b] == 0)
    && (forall b :: 0 <= b < |image| ==> image[b] == 0 || Covered(trees, b))
  }

  /** Room for a few more constants in every tree. */
  ghost predicate Roomy(trees: seq<Tree>) {
    forall i :: 0 <= i < |trees| ==> |Items(trees[i])| + 16 < M
  }

  // ---- changes to the image ------------------------------------------------------------------

  /** Zeros appended. */
  lemma {:induction false} Grown(trees: seq<Tree>, image: seq<Byte>, free: set<nat>, zeros: seq<Byte>, more: set<nat>)
    requires TreesHold(trees, image, free) && Blank(trees, image, free) && forall k :: 0 <= k < |zeros| ==> zeros[k] == 0
    requires forall b :: b in more ==> b in free || |image| <= b < |image| + |zeros|
    ensures TreesHold(trees, image + zeros, more) && Blank(trees, image + zeros, more)
  {
    var t := image + zeros;
    forall i | 0 <= i < INDEX_COUNT ensures TreeHolds(trees[i], i, t, more) {
      assert TreeHolds(trees[i], i, image, free);
      forall c | c in Items(trees[i]) ensures Placed(c, t) && Clear(c, more) {
        assert Placed(c, image) && Clear(c, free);
        assert t[c.offset..c.offset + |c.data|] == image[c.offset..c.offset + |c.data|];
      }
    }
  }

  /** Fewer free bytes. */
  lemma {:induction false} LessFree(trees: seq<Tree>, image: seq<Byte>, free: set<nat>, less: set<nat>)
    requires TreesHold(trees, image, free) && Blank(trees, image, free) && less <= free
    ensures TreesHold(trees, image, less) && Blank(trees, image, less)
  {
    forall i | 0 <= i < INDEX_COUNT ensures TreeHolds(trees[i], i, image, less) { assert TreeHolds(trees[i], i, image, free); }
  }

  function Write(image: seq<Byte>, o: nat, d: Data): seq<Byte>
    requires o + |d| <= |image|
  {
    image[..o] + d + image[o + |d|..]
  }

  /** Writing to reserved bytes leaves every constant in place. */
  lemma {:induction false} WriteKeeps(trees: seq<Tree>, image: seq<Byte>, free: set<nat>, o: nat, d: Data)
    requires TreesHold(trees, image, free) && Reserved(trees, image, free, o, |d|)
    ensures TreesHold(trees, Write(image, o, d), free) && Write(image, o, d)[o..o + |d|] == d
  {
    var t := Write(image, o, d);
    forall i | 0 <= i < INDEX_COUNT ensures TreeHolds(trees[i], i, t, free) {
      assert TreeHolds(trees[i], i, image, free);
      forall c | c in Items(trees[i]) ensures Placed(c, t) {
        assert Placed(c, image);
        forall b | c.offset <= b < c.offset + |c.data| ensures t[b] == image[b] { assert Covers(c, b); }
        assert t[c.offset..c.offset + |c.data|] == image[c.offset..c.offset + |c.data|];
      }
    }
  }

  lemma {:induction false} InsertedHas(s: seq<Constant>, c: Constant)
    ensures forall x :: x in Inserted(s, c) <==> x in s || x == c
    ensures |Inserted(s, c)| == |s| + 1
  {
    if |s| > 0 && Less(s[0].data, c.data) {
      InsertedHas(s[1..], c);
      assert s == [s[0]] + s[1..];
    }
  }

  /** A constant that is in the image joins a tree. */
  lemma {:induction false} Joins(trees: seq<Tree>, image: seq<Byte>, free: set<nat>, j: nat, r: Tree, c: Constant)
    requires TreesHold(trees, image, free) && j < INDEX_COUNT && AATree.Valid(r, Size(j)) && Items(r) == Inserted(Items(trees[j]), c)
    requires Placed(c, image) && c.offset % Size(j) == 0 && Clear(c, free)
    ensures TreesHold(trees[j := r], image, free)
  {
    InsertedHas(Items(trees[j]), c);
    var t := trees[j := r];
    forall i | 0 <= i < INDEX_COUNT ensures TreeHolds(t[i], i, image, free) { assert TreeHolds(trees[i], i, image, free); }
  }

  /** More constants: what was known stays known, what was covered stays covered. */
  lemma {:induction false} JoinKeeps(trees: seq<Tree>, j: nat, r: Tree, c: Constant)
    requires j < |trees| && Items(r) == Inserted(Items(trees[j]), c)
    ensures forall d, o :: Known(trees, d, o) ==> Known(trees[j := r], d, o)
    ensures forall b :: Covered(trees, b) ==> Covered(trees[j := r], b)
    ensures Known(trees[j := r], c.data, c.offset) && OnlyAdds(trees, trees[j := r], c.data, c.offset)
    ensures var t := trees[j := r]; !c.shared ==> forall b :: c.offset <= b < c.offset + |c.data| ==> Covered(t, b)
  {
    InsertedHas(Items(trees[j]), c);
    var t := trees[j := r];
    forall d, o | Known(trees, d, o) ensures Known(t, d, o) {
      var i, x :| 0 <= i < |trees| && x in Items(trees[i]) && x.data == d && x.offset == o;
      assert x in Items(t[i]);
    }
    forall b | Covered(trees, b) ensures Covered(t, b) {
      var i, x :| 0 <= i < |trees| && x in Items(trees[i]) && !x.shared && Covers(x, b);
      assert x in Items(t[i]);
    }
    assert c in Items(t[j]);
    forall d, o | Known(t, d, o) ensures Known(trees, d, o) || (d == c.data && o == c.offset) {
      var i, x :| 0 <= i < |t| && x in Items(t[i]) && x.data == d && x.offset == o;
      if i != j || x != c { assert x in Items(trees[i]); }
    }
  }

  /** The next offset behind the end that suits Size(i). */
  function Next(size: nat, i: nat): (o: nat)
    requires i < INDEX_COUNT
    ensures size <= o < size + Size(i) && o % Size(i) == 0
  {
    Sizes();
    size + Delta(size, Size(i))
  }

  /** The list that the first gap of a run of unused bytes goes to. */
  function GapIndex(offset: nat, length: nat): (i: nat)
    requires length > 0
    ensures i < INDEX_COUNT - 1 && Size(i) <= length
  {
    Sizes();
    if length >= 16 && offset % 16 == 0 then 4
    else if length >= 8 && offset % 8 == 0 then 3
    else if length >= 4 && offset % 4 == 0 then 2
    else if length >= 2 && offset % 2 == 0 then 1
    else 0
  }

  /** The lists with a run of unused bytes, split into gaps. */
  function Added(gaps: seq<seq<Gap>>, offset: nat, length: nat): (r: seq<seq<Gap>>)
    requires |gaps| == INDEX_COUNT
    ensures |r| == INDEX_COUNT
    decreases length
  {
    if length == 0 then gaps
    else
      var i := GapIndex(offset, length);
      Added(Pushed(gaps, i, Gap(offset, Size(i))), offset + Size(i), length - Size(i))
  }

  /** A gap of list i that a request takes off it and does not use. */
  ghost predicate Lost(gaps: seq<seq<Gap>>, i: nat, g: Gap)
    requires i < INDEX_COUNT == |gaps| && Taken(i, |gaps[i]|) > 0
  {
    var t := Taken(i, |gaps[i]|);
    g in gaps[i] && g !in gaps[i][t..] && g != gaps[i][t - 1]
  }

  /** A request loses a gap if and only if its list has two, and there are at least two sizes from
      its own up to take one for. */
  lemma {:induction false} GapsLost(gaps: seq<seq<Gap>>, free: set<nat>, i: nat)
    requires i < INDEX_COUNT && GapsFree(gaps, free) && GapsApart(gaps) && |gaps[i]| > 0 && i < INDEX_COUNT - 1
    ensures (exists g :: Lost(gaps, i, g)) <==> |gaps[i]| > 1 && i < INDEX_COUNT - 2
  {
    var s, t := gaps[i], Taken(i, |gaps[i]|);
    forall x, y | 0 <= x < y < |s|
      ensures s[x] != s[y]
    {
      assert Has(gaps, i, x) && Has(gaps, i, y);
    }
    if t > 1 {
      assert Lost(gaps, i, s[0]);
    } else {
      forall g
        ensures !Lost(gaps, i, g)
      {
        if g in s {
          var x :| 0 <= x < |s| && s[x] == g;
          if x > 0 { assert s[t..][x - 1] == g; }
        }
      }
    }
  }

  /** How many gaps one request takes off a list of n: a try for each size from its own up, but
      for the largest. */
  function Taken(i: nat, n: nat): (t: nat)
    requires i < INDEX_COUNT
    ensures t <= n
  {
    var tries := INDEX_COUNT - 1 - i;
    if tries < n then tries else n
  }

  // ---- the pool --------------------------------------------------------------------------------

  datatype AddResult = Offset(offset: nat) | InvalidArgument

  class Pool {
    var trees: seq<Tree>
    var gaps: seq<seq<Gap>>
    var size: nat
    var alignment: nat
    /** What fill will produce, the bytes that are in no constant's use, and what add has
        returned so far. */
    ghost var image: seq<Byte>
    ghost var free: set<nat>
    ghost var issued: set<(Data, nat)>

    ghost predicate Valid()
      reads this
    {
      && |image| == size && TreesHold(trees, image, free) && Blank(trees, image, free)
      && GapsFree(gaps, free) && GapsApart(gaps)
      && forall e :: e in issued ==> Known(trees, e.0, e.1)
    }

    constructor ()
      ensures Valid() && size == 0 && issued == {} && alignment == 0 && gaps == [[], [], [], [], [], []]
      ensures forall d, o :: !Known(trees, d, o)
    {
      trees := [Leaf, Leaf, Leaf, Leaf, Leaf, Leaf];
      gaps := [[], [], [], [], [], []];
      size, alignment, image, free, issued := 0, 0, [], {}, {};
    }

    /** Splits a run of unused bytes into aligned gaps. */
    method AddGap(offset0: nat, length0: nat, ghost all: set<nat>)
      requires GapsFree(gaps, all) && GapsApart(gaps)
      requires forall i, x :: Has(gaps, i, x) ==> gaps[i][x].offset + gaps[i][x].length <= offset0
      requires forall b :: offset0 <= b < offset0 + length0 ==> b in all
      modifies this`gaps
      ensures GapsFree(gaps, all) && GapsApart(gaps) && gaps == Added(old(gaps), offset0, length0)
    {
      hide FreeGap, Size;
      Sizes();
      var offset: nat, length: nat := offset0, length0;
      while length > 0
        invariant |gaps| == INDEX_COUNT && Added(gaps, offset, length) == Added(old(gaps), offset0, length0)
        invariant offset + length == offset0 + length0 && offset >= offset0
        invariant GapsFree(gaps, all) && GapsApart(gaps)
        invariant forall i, x :: Has(gaps, i, x) ==> gaps[i][x].offset + gaps[i][x].length <= offset
      {
        var gapIndex, gapLength;
        if length >= 16 && offset % 16 == 0 {
          gapIndex, gapLength := 4, 16;
        } else if length >= 8 && offset % 8 == 0 {
          gapIndex, gapLength := 3, 8;
        } else if length >= 4 && offset % 4 == 0 {
          gapIndex, gapLength := 2, 4;
        } else if length >= 2 && offset % 2 == 0 {
          gapIndex, gapLength := 1, 2;
        } else {
          gapIndex, gapLength := 0, 1;
        }
        ghost var before := gaps;
        var gap := Gap(offset, gapLength);
        assert FreeGap(gap, gapIndex, all) by { GapFits(gap, gapIndex, all); }
        PushGap(gaps, all, gapIndex, gap);
        gaps := Pushed(gaps, gapIndex, gap);
        PushedEnds(before, gapIndex, gap, offset, offset + gapLength);
        offset := offset + gapLength;
        length := length - gapLength;
      }
    }

    /** Tries the gaps of one size, once for each size from this one up: every try takes a gap
        off the list, and the last one taken is used. A gap is as long as its list's size says, so
        nothing of it is left over to give back. */
    method TakeGap(i: nat) returns (offset: Option<nat>)
      requires Valid() && i < INDEX_COUNT
      modifies this`gaps, this`free
      ensures Valid() && (offset.Some? ==> offset.value % Size(i) == 0 && Reserved(trees, image, free, offset.value, Size(i)))
      ensures var t := Taken(i, |old(gaps)[i]|);
              && gaps == old(gaps)[i := old(gaps)[i][t..]]
              && offset == if t > 0 then Some(old(gaps)[i][t - 1].offset) else None
    {
      hide TreesHold, Blank, FreeGap, Reserved, Known, Size;
      offset := None;
      var gapIndex := i;
      ghost var t := 0;
      while gapIndex != INDEX_COUNT - 1
        invariant t == if gapIndex - i < |old(gaps)[i]| then gapIndex - i else |old(gaps)[i]|
        invariant gaps == old(gaps)[i := old(gaps)[i][t..]]
        invariant offset == if t > 0 then Some(old(gaps)[i][t - 1].offset) else None
        invariant i <= gapIndex < INDEX_COUNT && Valid()
        invariant offset.Some? ==> offset.value % Size(i) == 0 && Reserved(trees, image, free, offset.value, Size(i))
      {
        if |gaps[i]| > 0 {
          var gap := gaps[i][0];
          ghost var rest := set b | b in free && !(gap.offset <= b < gap.offset + gap.length);
          PopGap(gaps, free, i, rest);
          GapReserved(trees, image, free, gap, i, rest);
          assert gap.length == Size(i);
          LessFree(trees, image, free, rest);
          if offset.Some? { StillReserved(trees, image, free, rest, offset.value, Size(i)); }
          gaps := gaps[i := gaps[i][1..]];
          free := rest;
          offset := Some(gap.offset);
          t := t + 1;
        }
        gapIndex := gapIndex + 1;
      }
    }

    /** Room at the end, aligned; the bytes skipped become gaps. */
    method Extend(i: nat) returns (offset: nat)
      requires Valid() && i < INDEX_COUNT
      modifies this`gaps, this`free, this`size, this`image
      ensures Valid() && offset % Size(i) == 0 && Reserved(trees, image, free, offset, Size(i)) && size >= old(size)
      ensures image[..old(size)] == old(image)
      ensures offset == Next(old(size), i) && size == offset + Size(i)
      ensures gaps == Added(old(gaps), old(size), offset - old(size))
    {
      hide TreesHold, Blank, FreeGap, Reserved, Known, Size;
      Sizes();
      var n := Size(i);
      var delta := Delta(size, n);
      ghost var zeros := seq(delta + n, k => 0 as Byte);
      ghost var all := set b | 0 <= b < size + delta && (b in free || size <= b);
      assert free <= all by { FreeWithin(trees, image, free); }
      Grown(trees, image, free, zeros, all);
      MoreFree(gaps, free, all);
      EndReserved(trees, image, free, image + zeros, all, size + delta, n);
      if delta != 0 {
        GapsWithin(gaps, free, trees, image);
        AddGap(size, delta, all);
        size := size + delta;
      }
      offset := size;
      size := size + n;
      image, free := image + zeros, all;
    }

    lemma GapLists()
      requires Valid()
      ensures |gaps| == INDEX_COUNT
    {
      hide TreesHold, Blank, Known, FreeGap;
    }

    /** The gap lists behind a request that has to be given room. */
    ghost function GapsAfter(i: nat): seq<seq<Gap>>
      requires i < INDEX_COUNT == |gaps|
      reads this`gaps, this`size
    {
      if FromGap(i) then gaps[i := gaps[i][Taken(i, |gaps[i]|)..]] else Added(gaps, size, Next(size, i) - size)
    }

    ghost predicate FromGap(i: nat)
      requires i < INDEX_COUNT
      reads this`gaps
    {
      i < |gaps| && Taken(i, |gaps[i]|) > 0
    }

    /** Where a new constant of size Size(i) goes: in the last of the gaps taken, else at the next
        aligned offset behind the end. */
    ghost predicate Room(i: nat, offset: nat)
      requires i < INDEX_COUNT
      reads this`gaps, this`size
    {
      offset == if FromGap(i) then gaps[i][Taken(i, |gaps[i]|) - 1].offset else Next(size, i)
    }

    /** Room for a constant of size Size(i): a gap if the list has one, else the end. */
    method Reserve(i: nat) returns (offset: nat)
      requires Valid() && i < INDEX_COUNT
      modifies this`gaps, this`free, this`size, this`image
      ensures Valid() && offset % Size(i) == 0 && Reserved(trees, image, free, offset, Size(i))
      ensures old(Room(i, offset)) && size == if old(FromGap(i)) then old(size) else offset + Size(i)
      ensures |old(gaps)| == INDEX_COUNT && gaps == old(GapsAfter(i))
    {
      hide TreesHold, Blank, FreeGap, Reserved, Known, Size, GapsFree, GapsApart, Next, Taken, Added;
      assert |gaps| == INDEX_COUNT by { GapLists(); }
      var gap := TakeGap(i);
      if gap.Some? {
        offset := gap.value;
      } else {
        assert gaps == old(gaps);
        offset := Extend(i);
      }
    }

    /** Puts a constant of its own at reserved bytes. */
    method Place(i: nat, data: Data, offset: nat)
      requires Valid() && i < INDEX_COUNT && |data| == Size(i) && offset % Size(i) == 0 && Roomy(trees)
      requires Reserved(trees, image, free, offset, Size(i)) && !Among(Items(trees[i]), data)
      modifies this`trees, this`image
      ensures Valid() && offset + |data| <= size && image[offset..offset + |data|] == data && Known(trees, data, offset)
      ensures forall b :: offset <= b < offset + |data| ==> b !in free
      ensures Grows(old(trees), trees, 1) && OnlyAdds(old(trees), trees, data, offset)
    {
      hide TreeHolds, FreeGap, Reserved, Known, Size, GapsFree, GapsApart, AATree.Valid, Items, Among, Placed, Clear, Covered, OnlyAdds;
      assert offset + |data| <= |image| && (forall b :: offset <= b < offset + |data| ==> b !in free) by { ReservedParts(trees, image, free, offset, |data|); }
      var c := Constant(data, false, offset);
      assert AATree.Valid(trees[i], |data|) by { HeldValid(trees, i, image, free); }
      var r := Put(trees[i], c);
      WriteKeeps(trees, image, free, offset, data);
      ghost var t := Write(image, offset, data);
      assert Placed(c, t) && Clear(c, free) by { FreshConstant(c, t, free); }
      Joins(trees, t, free, i, r, c);
      JoinKeeps(trees, i, r, c);
      WriteBlank(trees, image, free, offset, data, trees[i := r]);
      JoinGrows(trees, i, r, c);
      image := t;
      trees := trees[i := r];
    }

    /** One part of a constant: known already, or a shared constant from now on. */
    method SharePart(j: nat, data: Data, offset: nat, pos: nat)
      requires Valid() && j < INDEX_COUNT && pos + Size(j) <= |data| && (offset + pos) % Size(j) == 0 && |Items(trees[j])| + 1 < M
      requires offset + |data| <= size && image[offset..offset + |data|] == data && forall b :: offset <= b < offset + |data| ==> b !in free
      modifies this`trees
      ensures Valid() && Grows(old(trees), trees, 1)
      ensures forall m :: 0 <= m < INDEX_COUNT && m != j ==> trees[m] == old(trees)[m]
      ensures SomeOffset(trees, data[pos..pos + Size(j)]) && OnlyAdds(old(trees), trees, data[pos..pos + Size(j)], offset + pos)
    {
      hide TreeHolds, FreeGap, Known, GapsFree, GapsApart, Items, Size, AATree.Valid, Among, Placed, Clear, Covered, OnlyAdds;
      var part := data[pos..pos + Size(j)];
      assert AATree.Valid(trees[j], |part|) by { HeldValid(trees, j, image, free); }
      assert Sorted(Items(trees[j])) && OfSize(Items(trees[j]), |part|) by { ValidParts(trees[j], |part|); }
      var found := Get(trees[j], part);
      if found.None? {
        var c := Constant(part, true, offset + pos);
        var r := Put(trees[j], c);
        assert Placed(c, image) && Clear(c, free) by { PartPlaced(image, free, data, offset, pos, c); }
        Joins(trees, image, free, j, r, c);
        JoinKeeps(trees, j, r, c);
        JoinGrows(trees, j, r, c);
        BlankMore(trees, image, free, trees[j := r]);
        trees := trees[j := r];
      } else {
        SameGrows(trees);
        NothingAdds(trees, part, offset + pos);
        FoundThere(trees, image, free, j, found.value);
      }
    }

    /** Makes the parts of a constant, in halves down to four bytes, known on their own. */
    method Share(i: nat, data: Data, offset: nat)
      requires Valid() && i < INDEX_COUNT && |data| == Size(i) && offset % Size(i) == 0
      requires forall j :: 0 <= j < INDEX_COUNT ==> |Items(trees[j])| + 12 < M
      requires offset + |data| <= size && image[offset..offset + |data|] == data && forall b :: offset <= b < offset + |data| ==> b !in free
      modifies this`trees
      ensures Valid() && forall d, o :: Known(old(trees), d, o) ==> Known(trees, d, o)
      ensures Shared(trees, data) && OnlyParts(old(trees), trees, data, offset)
    {
      hide TreesHold, FreeGap, Known, GapsFree, GapsApart, Items, Blank, Size, SomeOffset, PartsKnown, OnlyParts, OnlyAdds;
      Sizes();
      var part, pCount := |data|, 1;
      var j: nat := i;
      ghost var start := trees;
      NothingAdds(trees, data, offset);
      assert |trees| == INDEX_COUNT by { SixTrees(trees, image, free); }
      while part > 4
        invariant j <= i && part == Size(j) && part * pCount == |data| && 0 < pCount <= 8 && offset % part == 0
        invariant |trees| == INDEX_COUNT && Valid() && forall d, o :: Known(start, d, o) ==> Known(trees, d, o)
        invariant forall m :: 0 <= m < j ==> trees[m] == start[m]
        invariant forall m: nat :: j <= m < i ==> PartsKnown(trees, data, Size(m), |data|)
        invariant OnlyParts(start, trees, data, offset)
        decreases part
      {
        Halves(j, part, pCount, offset);
        part, pCount, j := part / 2, pCount * 2, j - 1;
        var k: nat, pos: nat := 0, 0;
        NoParts(trees, data, part);
        while k < pCount
          invariant PartsKnown(trees, data, part, pos) && OnlyParts(start, trees, data, offset)
          invariant forall m: nat :: j < m < i ==> PartsKnown(trees, data, Size(m), |data|)
          invariant k <= pCount && pos == k * part && (offset + pos) % part == 0
          invariant |trees| == INDEX_COUNT && Valid() && forall d, o :: Known(start, d, o) ==> Known(trees, d, o)
          invariant (forall m :: 0 <= m < j ==> trees[m] == start[m]) && |Items(trees[j])| <= |Items(start[j])| + k
        {
          NextPart(k, pCount, part, offset, pos);
          ghost var before := trees;
          SharePart(j, data, offset, pos);
          MoreParts(before, trees, data, part, pos);
          PartAdds(start, before, trees, data, offset, pos, part);
          forall m: nat | j < m < i ensures PartsKnown(trees, data, Size(m), |data|) { PartsKept(before, trees, data, Size(m), |data|); }
          k, pos := k + 1, pos + part;
        }
      }
    }

    /** Adds a constant, or finds it: the offset is aligned, and from now on the image has the
        constant there. A constant known before, as one of its own or as part of another, keeps
        its offset, and the pool does not grow. */
    method Add(data: Data) returns (r: AddResult)
      requires Valid() && size + 16 < M
      modifies this
      ensures Valid()
      ensures r.InvalidArgument? <==> IndexOf(|data|).None?
      ensures r.InvalidArgument? ==> image == old(image) && issued == old(issued) && size == old(size)
      ensures r.Offset? ==> r.offset % |data| == 0 && r.offset + |data| <= size && image[r.offset..r.offset + |data|] == data
      ensures r.Offset? ==> issued == old(issued) + {(data, r.offset)}
      ensures r.Offset? ==> forall o :: Known(old(trees), data, o) ==>
                r.offset == o && size == old(size) && image == old(image) && trees == old(trees) && gaps == old(gaps) && alignment == old(alignment)
      ensures r.Offset? && (forall o :: !Known(old(trees), data, o)) ==>
                var i := IndexOf(|data|).value;
                && old(Room(i, r.offset)) && size == (if old(FromGap(i)) then old(size) else r.offset + |data|)
                && alignment == (if old(alignment) < |data| then |data| else old(alignment))
                && |old(gaps)| == INDEX_COUNT && gaps == old(GapsAfter(i)) && Shared(trees, data)
      ensures r.Offset? ==> forall d, o :: Known(trees, d, o) ==>
                Known(old(trees), d, o) || (d == data && o == r.offset) || Part(d, o, data, r.offset)
      ensures forall d, o :: Known(old(trees), d, o) ==> Known(trees, d, o)
    {
      hide TreeHolds, FreeGap, Known, GapsFree, GapsApart, Items, Size, Room, FromGap, GapsAfter, Part, AATree.Valid, Reserved, Blank, Among;
      var index := IndexOf(|data|);
      if index.None? { return InvalidArgument; }
      Sizes();
      var i := index.value;
      assert |data| == Size(i);
      assert AATree.Valid(trees[i], |data|) by { HeldValid(trees, i, image, free); }
      assert Sorted(Items(trees[i])) && OfSize(Items(trees[i]), |data|) by { ValidParts(trees[i], |data|); }
      var found := Get(trees[i], data);
      if found.Some? {
        var c := found.value;
        FoundThere(trees, image, free, i, c);
        OnlyKnown(trees, image, free, i, c);
        issued := issued + {(data, c.offset)};
        return Offset(c.offset);
      }
      NotKnown(trees, image, free, i, data);
      assert Roomy(trees) by { ItemsFit(trees, image, free); }
      var offset := Reserve(i);
      Place(i, data, offset);
      if alignment < |data| { alignment := |data|; }
      Share(i, data, offset);
      issued := issued + {(data, offset)};
      r := Offset(offset);
    }

    /** The constants of their own over zeros, tree by tree: the image. */
    method Fill(dst: array<Byte>)
      requires Valid() && dst.Length == size && size + 1 < M
      modifies dst
      ensures dst[..] == image
      ensures forall e :: e in issued ==> e.1 + |e.0| <= dst.Length && dst[e.1..e.1 + |e.0|] == e.0
    {
      hide TreeHolds, FreeGap, Known, GapsFree, GapsApart, Items, AATree.Valid, Covered;
      var k := 0;
      while k < dst.Length
        invariant 0 <= k <= dst.Length && forall b :: 0 <= b < k ==> dst[b] == 0
      {
        dst[k] := 0;
        k := k + 1;
      }
      var i := 0;
      while i < INDEX_COUNT
        invariant 0 <= i <= INDEX_COUNT && Partly(dst[..], image)
        invariant forall j :: 0 <= j < i ==> Copied(Items(trees[j]), dst[..], image)
      {
        assert Levelled(trees[i]) && |Items(trees[i])| <= size by { HeldLevels(trees, i, image, free); ItemsFit(trees, image, free); }
        var visited := Iterate(trees[i]);
        PlacedThere(trees, image, free, i);
        ghost var before := dst[..];
        var m := 0;
        while m < |visited|
          invariant 0 <= m <= |visited| && Partly(dst[..], image)
          invariant Copied(visited[..m], dst[..], image)
          invariant forall j :: 0 <= j < i ==> Copied(Items(trees[j]), dst[..], image)
        {
          Visit(dst, visited[m], image);
          assert visited[..m + 1] == visited[..m] + [visited[m]];
          m := m + 1;
        }
        assert visited[..m] == visited;
        i := i + 1;
      }
      AllCopied(trees, image, free, dst[..]);
      IssuedThere(trees, image, free, issued);
    }

    /** The visitor of fill. */
    method Visit(dst: array<Byte>, c: Constant, ghost image: seq<Byte>)
      requires dst.Length == |image| && Placed(c, image) && Partly(dst[..], image)
      modifies dst
      ensures Partly(dst[..], image) && Copied([c], dst[..], image)
      ensures forall s :: Copied(s, old(dst[..]), image) ==> Copied(s, dst[..], image)
    {
      if c.shared { return; }
      var k := 0;
      while k < |c.data|
        invariant 0 <= k <= |c.data|
        invariant forall b :: 0 <= b < dst.Length ==> dst[b] == if c.offset <= b < c.offset + k then image[b] else old(dst[b])
      {
        assert image[c.offset..c.offset + |c.data|][k] == image[c.offset + k];
        dst[c.offset + k] := c.data[k];
        k := k + 1;
      }
    }
  }

  /** Every byte is that of the image, or still zero. */
  ghost predicate Partly(d: seq<Byte>, image: seq<Byte>) {
    |d| == |image| && forall b :: 0 <= b < |d| ==> d[b] == image[b] || d[b] == 0
  }

  /** The constants of their own among s have been copied. */
  ghost predicate Copied(s: seq<Constant>, d: seq<Byte>, image: seq<Byte>) {
    |d| == |image| && forall c, b :: c in s && !c.shared && Covers(c, b) && 0 <= b < |d| ==> d[b] == image[b]
  }

  function Offsets(s: seq<Constant>): (o: set<nat>)
    ensures forall x :: x in o <==> exists k :: 0 <= k < |s| && s[k].offset == x
  {
    if |s| == 0 then {} else Offsets(s[..|s| - 1]) + {s[|s| - 1].offset}
  }

  function Upto(n: nat): (s: set<nat>)
    ensures |s| == n && forall x: nat :: x in s <==> x < n
  {
    if n == 0 then {} else Upto(n - 1) + {n - 1}
  }

  lemma {:induction false} OffsetCount(s: seq<Constant>)
    requires forall j, k :: 0 <= j < k < |s| ==> s[j].offset != s[k].offset
    ensures |Offsets(s)| == |s|
  {
    if |s| > 0 { OffsetCount(s[..|s| - 1]); }
  }

  lemma {:induction false} SubsetCount(a: set<nat>, b: set<nat>)
    requires a <= b
    ensures |a| <= |b|
  {
    assert b == a + (b - a);
  }

  /** Constants of one size lie at different offsets, so a tree has no more of them than the image
      has bytes. */
  lemma {:induction false} ItemsFit(trees: seq<Tree>, image: seq<Byte>, free: set<nat>)
    requires TreesHold(trees, image, free)
    ensures forall i :: 0 <= i < |trees| ==> |Items(trees[i])| <= |image|
  {
    hide Items;
    forall i | 0 <= i < |trees|
      ensures |Items(trees[i])| <= |image|
    {
      var s, n := Items(trees[i]), Size(i);
      assert TreeHolds(trees[i], i, image, free);
      forall k | 0 <= k < |s|
        ensures |s[k].data| == n && s[k].offset + n <= |image| && image[s[k].offset..s[k].offset + n] == s[k].data
      {
        assert s[k] in s;
      }
      forall j, k | 0 <= j < k < |s|
        ensures s[j].offset != s[k].offset
      {
        LessNot(s[j].data);
      }
      OffsetCount(s);
      SubsetCount(Offsets(s), Upto(|image|));
    }
  }

  lemma {:induction false} LessNot(d: Data)
    ensures !Less(d, d)
  {
    LessTotal(d, d);
  }

  lemma {:induction false} HeldLevels(trees: seq<Tree>, i: nat, image: seq<Byte>, free: set<nat>)
    requires TreesHold(trees, image, free) && i < INDEX_COUNT
    ensures Levelled(trees[i])
  {
    assert TreeHolds(trees[i], i, image, free);
  }

  lemma {:induction false} PlacedThere(trees: seq<Tree>, image: seq<Byte>, free: set<nat>, i: nat)
    requires TreesHold(trees, image, free) && i < INDEX_COUNT
    ensures forall k :: 0 <= k < |Items(trees[i])| ==> Placed(Items(trees[i])[k], image)
  {
    assert TreeHolds(trees[i], i, image, free);
  }

  lemma {:induction false} AllCopied(trees: seq<Tree>, image: seq<Byte>, free: set<nat>, d: seq<Byte>)
    requires |trees| == INDEX_COUNT && Blank(trees, image, free) && Partly(d, image)
    requires forall j :: 0 <= j < INDEX_COUNT ==> Copied(Items(trees[j]), d, image)
    ensures d == image
  {
    forall b | 0 <= b < |d| ensures d[b] == image[b] {
      if image[b] != 0 {
        var i, c :| 0 <= i < |trees| && c in Items(trees[i]) && !c.shared && Covers(c, b);
        assert Copied(Items(trees[i]), d, image);
      }
    }
  }

  lemma {:induction false} IssuedThere(trees: seq<Tree>, image: seq<Byte>, free: set<nat>, issued: set<(Data, nat)>)
    requires TreesHold(trees, image, free) && forall e :: e in issued ==> Known(trees, e.0, e.1)
    ensures forall e :: e in issued ==> e.1 + |e.0| <= |image| && image[e.1..e.1 + |e.0|] == e.0
  {
    forall e | e in issued ensures e.1 + |e.0| <= |image| && image[e.1..e.1 + |e.0|] == e.0 {
      var i, c :| 0 <= i < |trees| && c in Items(trees[i]) && c.data == e.0 && c.offset == e.1;
      assert TreeHolds(trees[i], i, image, free);
      assert Placed(c, image);
    }
  }

  lemma {:induction false} FoundThere(trees: seq<Tree>, image: seq<Byte>, free: set<nat>, i: nat, c: Constant)
    requires TreesHold(trees, image, free) && i < INDEX_COUNT && c in Items(trees[i])
    ensures Placed(c, image) && c.offset % Size(i) == 0 && Known(trees, c.data, c.offset)
  {
    assert TreeHolds(trees[i], i, image, free);
  }

  lemma {:induction false} SizeGrows(i: nat, j: nat)
    requires i < j
    ensures Size(i) < Size(j)
  {
    if i < j - 1 { SizeGrows(i, j - 1); }
  }

  /** Data of one size is in one tree only, and there once. */
  lemma {:induction false} OnlyKnown(trees: seq<Tree>, image: seq<Byte>, free: set<nat>, i: nat, c: Constant)
    requires TreesHold(trees, image, free) && i < INDEX_COUNT && c in Items(trees[i])
    ensures forall o :: Known(trees, c.data, o) ==> o == c.offset
  {
    forall o | Known(trees, c.data, o) ensures o == c.offset {
      var j, d :| 0 <= j < |trees| && d in Items(trees[j]) && d.data == c.data && d.offset == o;
      SameTree(trees, image, free, i, c, j, d);
      var s := Items(trees[i]);
      assert TreeHolds(trees[i], i, image, free);
      var x :| 0 <= x < |s| && s[x] == c;
      var y :| 0 <= y < |s| && s[y] == d;
      LessTotal(c.data, c.data);
    }
  }

  lemma {:induction false} SameTree(trees: seq<Tree>, image: seq<Byte>, free: set<nat>, i: nat, c: Constant, j: nat, d: Constant)
    requires TreesHold(trees, image, free) && i < INDEX_COUNT && j < INDEX_COUNT
    requires c in Items(trees[i]) && d in Items(trees[j]) && |c.data| == |d.data|
    ensures i == j
  {
    hide Size;
    assert TreeHolds(trees[i], i, image, free) && TreeHolds(trees[j], j, image, free);
    var s, t := Items(trees[i]), Items(trees[j]);
    var x :| 0 <= x < |s| && s[x] == c;
    var y :| 0 <= y < |t| && t[y] == d;
    if i < j { SizeGrows(i, j); } else if j < i { SizeGrows(j, i); }
  }

  lemma {:induction false} NotKnown(trees: seq<Tree>, image: seq<Byte>, free: set<nat>, i: nat, data: Data)
    requires TreesHold(trees, image, free) && i < INDEX_COUNT && |data| == Size(i) && !Among(Items(trees[i]), data)
    ensures forall o :: !Known(trees, data, o)
  {
    hide Size;
    forall o ensures !Known(trees, data, o) {
      if Known(trees, data, o) {
        var j, d :| 0 <= j < |trees| && d in Items(trees[j]) && d.data == data && d.offset == o;
        assert TreeHolds(trees[j], j, image, free);
        var t := Items(trees[j]);
        var y :| 0 <= y < |t| && t[y] == d;
        if i < j { SizeGrows(i, j); } else if j < i { SizeGrows(j, i); }
      }
    }
  }

  lemma {:induction false} SixTrees(trees: seq<Tree>, image: seq<Byte>, free: set<nat>)
    requires TreesHold(trees, image, free)
    ensures |trees| == INDEX_COUNT
  {
  }

  lemma Halves(j: nat, part: nat, pCount: nat, offset: nat)
    requires j < INDEX_COUNT && part == Size(j) && part > 4 && 0 < pCount && part * pCount <= 32 && offset % part == 0
    ensures j > 2 && part / 2 == Size(j - 1) && part / 2 >= 4 && (part / 2) * (pCount * 2) == part * pCount && pCount * 2 <= 8
    ensures offset % (part / 2) == 0
  {
    Sizes();
    if part == 8 { } else if part == 16 { } else { assert part == 32; }
  }

  lemma NextPart(k: nat, pCount: nat, part: nat, offset: nat, pos: nat)
    requires k < pCount && pos == k * part && (part == 4 || part == 8 || part == 16) && (offset + pos) % part == 0
    ensures pos + part <= part * pCount && pos + part == (k + 1) * part && (offset + pos + part) % part == 0
  {
    Multiples(k, pCount, part);
    AlignedNext(offset + pos, part);
  }

  lemma NoParts(trees: seq<Tree>, data: Data, part: nat)
    requires part > 0
    ensures PartsKnown(trees, data, part, 0)
  {
  }

  lemma PartsKept(a: seq<Tree>, b: seq<Tree>, data: Data, part: nat, pos: nat)
    requires part > 0 && PartsKnown(a, data, part, pos) && forall d, o :: Known(a, d, o) ==> Known(b, d, o)
    ensures PartsKnown(b, data, part, pos)
  {
    hide Known;
  }

  lemma MoreParts(a: seq<Tree>, b: seq<Tree>, data: Data, part: nat, pos: nat)
    requires (part == 4 || part == 8 || part == 16) && pos % part == 0 && pos + part <= |data|
    requires PartsKnown(a, data, part, pos) && forall d, o :: Known(a, d, o) ==> Known(b, d, o)
    requires SomeOffset(b, data[pos..pos + part])
    ensures PartsKnown(b, data, part, pos + part)
  {
    hide Known, SomeOffset;
    PartsKept(a, b, data, part, pos);
    forall q: nat | q % part == 0 && q + part <= pos + part
      ensures SomeOffset(b, data[q..q + part])
    {
      if q < pos { BeforeNext(q, pos, part); }
    }
  }

  lemma BeforeNext(q: nat, pos: nat, part: nat)
    requires (part == 4 || part == 8 || part == 16) && q % part == 0 && pos % part == 0 && q < pos
    ensures q + part <= pos
  {
    if part == 4 {
      assert q % 4 == pos % 4;
    } else if part == 8 {
      assert q % 8 == pos % 8;
    } else {
      assert q % 16 == pos % 16;
    }
  }

  lemma Multiples(k: nat, pCount: nat, part: nat)
    requires k < pCount
    ensures (k + 1) * part == k * part + part <= part * pCount
  {
    assert part * pCount == part * (k + 1) + part * (pCount - k - 1);
  }

  lemma AlignedNext(x: nat, part: nat)
    requires (part == 4 || part == 8 || part == 16) && x % part == 0
    ensures (x + part) % part == 0
  {
    if part == 4 {
      assert x % 4 == 0;
    } else if part == 8 {
      assert x % 8 == 0;
    } else {
      assert x % 16 == 0;
    }
  }

  lemma {:induction false} ValidParts(t: Tree, n: nat)
    requires AATree.Valid(t, n)
    ensures Sorted(Items(t)) && OfSize(Items(t), n)
  {
  }

  lemma {:induction false} PartPlaced(image: seq<Byte>, free: set<nat>, d: Data, o: nat, pos: nat, c: Constant)
    requires o + |d| <= |image| && image[o..o + |d|] == d && forall b :: o <= b < o + |d| ==> b !in free
    requires c.offset == o + pos && pos + |c.data| <= |d| && c.data == d[pos..pos + |c.data|]
    ensures Placed(c, image) && Clear(c, free)
  {
    forall k | 0 <= k < |c.data| ensures image[c.offset + k] == c.data[k] {
      assert image[o..o + |d|][pos + k] == image[o + pos + k];
    }
    assert image[c.offset..c.offset + |c.data|] == c.data;
  }

  lemma {:induction false} BlankMore(trees: seq<Tree>, image: seq<Byte>, free: set<nat>, more: seq<Tree>)
    requires Blank(trees, image, free) && forall b :: Covered(trees, b) ==> Covered(more, b)
    ensures Blank(more, image, free)
  {
  }

  lemma {:induction false} NothingAdds(trees: seq<Tree>, d: Data, o: nat)
    ensures OnlyAdds(trees, trees, d, o) && OnlyParts(trees, trees, d, o)
  {
  }

  lemma {:induction false} PartAdds(a: seq<Tree>, before: seq<Tree>, b: seq<Tree>, data: Data, offset: nat, pos: nat, n: nat)
    requires OnlyParts(a, before, data, offset) && 4 <= n < |data| && pos + n <= |data|
    requires OnlyAdds(before, b, data[pos..pos + n], offset + pos)
    ensures OnlyParts(a, b, data, offset)
  {
    hide Known;
    assert Part(data[pos..pos + n], offset + pos, data, offset);
  }

  lemma {:induction false} SameGrows(trees: seq<Tree>)
    ensures Grows(trees, trees, 1)
  {
  }

  /** Each tree has at most k more constants. */
  ghost predicate Grows(a: seq<Tree>, b: seq<Tree>, k: nat) {
    && |a| == |b| && (forall i :: 0 <= i < |a| ==> |Items(a[i])| <= |Items(b[i])| <= |Items(a[i])| + k)
    && (forall d, o :: Known(a, d, o) ==> Known(b, d, o))
  }

  lemma {:induction false} JoinGrows(trees: seq<Tree>, j: nat, r: Tree, c: Constant)
    requires j < |trees| && Items(r) == Inserted(Items(trees[j]), c)
    ensures Grows(trees, trees[j := r], 1)
  {
    hide Known;
    InsertedHas(Items(trees[j]), c);
    JoinKeeps(trees, j, r, c);
  }

  lemma {:induction false} ReservedParts(trees: seq<Tree>, image: seq<Byte>, free: set<nat>, o: nat, n: nat)
    requires Reserved(trees, image, free, o, n)
    ensures o + n <= |image| && forall b :: o <= b < o + n ==> b !in free
  {
  }

  lemma {:induction false} HeldValid(trees: seq<Tree>, i: nat, image: seq<Byte>, free: set<nat>)
    requires TreesHold(trees, image, free) && i < INDEX_COUNT
    ensures AATree.Valid(trees[i], Size(i))
  {
    assert TreeHolds(trees[i], i, image, free);
  }

  lemma {:induction false} FreshConstant(c: Constant, t: seq<Byte>, free: set<nat>)
    requires c.offset + |c.data| <= |t| && t[c.offset..c.offset + |c.data|] == c.data
    requires forall b :: c.offset <= b < c.offset + |c.data| ==> b !in free
    ensures Placed(c, t) && Clear(c, free)
  {
  }

  lemma {:induction false} WriteBlank(trees: seq<Tree>, image: seq<Byte>, free: set<nat>, o: nat, d: Data, more: seq<Tree>)
    requires Blank(trees, image, free) && o + |d| <= |image| && forall b :: o <= b < o + |d| ==> b !in free
    requires forall b :: Covered(trees, b) ==> Covered(more, b)
    requires forall b :: o <= b < o + |d| ==> Covered(more, b)
    ensures Blank(more, Write(image, o, d), free)
  {
    hide Covered;
    var t := Write(image, o, d);
    forall b | 0 <= b < |t| ensures t[b] == 0 || Covered(more, b) {
      if b < o || o + |d| <= b { assert t[b] == image[b]; }
    }
    forall b | b in free ensures b < |t| && t[b] == 0 {
      if b < o || o + |d| <= b { assert t[b] == image[b]; }
    }
  }

  /** How far to the next multiple of n, one of the six sizes. */
  function Delta(size: nat, n: nat): (d: nat)
    requires n == 1 || n == 2 || n == 4 || n == 8 || n == 16 || n == 32
    ensures d < n && (size + d) % n == 0
  {
    DeltaFits(size, n);
    if size % n == 0 then 0 else n - size % n
  }

  lemma DeltaFits(size: nat, n: nat)
    requires n == 1 || n == 2 || n == 4 || n == 8 || n == 16 || n == 32
    ensures size % n < n && (size % n != 0 ==> (size + (n - size % n)) % n == 0)
    ensures size % n == 0 ==> (size + 0) % n == 0
  {
    if n == 1 { } else if n == 2 { } else if n == 4 { } else if n == 8 { } else if n == 16 { } else { }
  }

  lemma {:induction false} FreeWithin(trees: seq<Tree>, image: seq<Byte>, free: set<nat>)
    requires Blank(trees, image, free)
    ensures forall b :: b in free ==> b < |image|
  {
  }

  lemma {:induction false} GapsWithin(gaps: seq<seq<Gap>>, free: set<nat>, trees: seq<Tree>, image: seq<Byte>)
    requires GapsFree(gaps, free) && Blank(trees, image, free)
    ensures forall i, x :: Has(gaps, i, x) ==> gaps[i][x].offset + gaps[i][x].length <= |image|
  {
    forall i, x | Has(gaps, i, x) ensures gaps[i][x].offset + gaps[i][x].length <= |image| {
      var g := gaps[i][x];
      assert FreeGap(g, i, free);
      assert g.offset + g.length - 1 in free;
    }
  }

  lemma {:induction false} GapReserved(trees: seq<Tree>, image: seq<Byte>, free: set<nat>, g: Gap, i: nat, rest: set<nat>)
    requires TreesHold(trees, image, free) && Blank(trees, image, free) && FreeGap(g, i, free)
    requires rest == set b | b in free && !(g.offset <= b < g.offset + g.length)
    ensures Reserved(trees, image, rest, g.offset, Size(i)) && g.offset % Size(i) == 0 && g.length == Size(i)
  {
    assert g.offset + g.length - 1 in free;
    forall j, c, b | 0 <= j < |trees| && c in Items(trees[j]) && g.offset <= b < g.offset + g.length
      ensures !Covers(c, b)
    {
      assert TreeHolds(trees[j], j, image, free);
      assert Clear(c, free) && b in free;
    }
  }

  lemma {:induction false} StillReserved(trees: seq<Tree>, image: seq<Byte>, free: set<nat>, rest: set<nat>, o: nat, n: nat)
    requires Reserved(trees, image, free, o, n) && rest <= free
    ensures Reserved(trees, image, rest, o, n)
  {
  }

  lemma {:induction false} EndReserved(trees: seq<Tree>, image: seq<Byte>, free: set<nat>, t: seq<Byte>, all: set<nat>, o: nat, n: nat)
    requires TreesHold(trees, image, free) && |image| <= o && o + n == |t| && t[..|image|] == image
    requires (forall b :: |image| <= b < |t| ==> t[b] == 0) && forall b :: b in all ==> b < o
    ensures Reserved(trees, t, all, o, n)
  {
    forall j, c, b | 0 <= j < |trees| && c in Items(trees[j]) && o <= b < o + n
      ensures !Covers(c, b)
    {
      assert TreeHolds(trees[j], j, image, free);
      assert Placed(c, image);
    }
  }

  lemma {:induction false} GapFits(g: Gap, i: nat, all: set<nat>)
    requires g.length == Size(i) && g.offset % g.length == 0 && forall b :: g.offset <= b < g.offset + g.length ==> b in all
    ensures FreeGap(g, i, all)
  {
  }

  lemma {:induction false} PushedEnds(gaps: seq<seq<Gap>>, i: nat, g: Gap, e: nat, f: nat)
    requires i < |gaps| && e <= f && g.offset + g.length <= f
    requires forall j, x :: Has(gaps, j, x) ==> gaps[j][x].offset + gaps[j][x].length <= e
    ensures forall j, x :: Has(Pushed(gaps, i, g), j, x) ==> Pushed(gaps, i, g)[j][x].offset + Pushed(gaps, i, g)[j][x].length <= f
  {
    var t := Pushed(gaps, i, g);
    forall j, x | Has(t, j, x) ensures t[j][x].offset + t[j][x].length <= f {
      if j != i || x > 0 { assert Has(gaps, j, if j == i then x - 1 else x); }
    }
  }

  /** The lists of the run below: at the start, with one gap, with two more. */
  const NO_GAPS: seq<seq<Gap>> := [[], [], [], [], [], []]
  const ONE_GAP: seq<seq<Gap>> := [[], [Gap(2, 2)], [], [], [], []]
  const MORE_GAPS: seq<seq<Gap>> := [[Gap(9, 1)], [Gap(10, 2), Gap(2, 2)], [], [], [], []]

  lemma GapSteps()
    ensures Added(NO_GAPS, 0, 0) == NO_GAPS && Added(NO_GAPS, 2, 2) == ONE_GAP && Added(ONE_GAP, 8, 0) == ONE_GAP && Added(ONE_GAP, 9, 3) == MORE_GAPS
  {
    Sizes();
    assert GapIndex(2, 2) == 1 && GapIndex(9, 3) == 0 && GapIndex(10, 2) == 1;
    assert Added(ONE_GAP, 2 + 2, 0) == ONE_GAP;
    assert [Gap(2, 2)] + [] == [Gap(2, 2)];
    assert Pushed(NO_GAPS, 1, Gap(2, 2)) == ONE_GAP;
    var g := Pushed(ONE_GAP, 0, Gap(9, 1));
    assert [Gap(9, 1)] + [] == [Gap(9, 1)] && [Gap(10, 2)] + [Gap(2, 2)] == [Gap(10, 2), Gap(2, 2)];
    assert g == [[Gap(9, 1)], [Gap(2, 2)], [], [], [], []];
    assert Pushed(g, 1, Gap(10, 2)) == MORE_GAPS;
    assert Added(MORE_GAPS, 12, 0) == MORE_GAPS;
    assert Added(g, 10, 2) == Added(MORE_GAPS, 12, 0);
    assert Added(ONE_GAP, 9, 3) == Added(g, 10, 2);
  }

  /** The next suitable offset is the only one so close. */
  lemma NextIs(size: nat, i: nat, o: nat)
    requires i < INDEX_COUNT && size <= o < size + Size(i) && o % Size(i) == 0
    ensures Next(size, i) == o
  {
    hide Next, Size;
    Sizes();
    OneMultiple(Next(size, i), o, Size(i));
  }

  lemma OneMultiple(a: nat, b: nat, n: nat)
    requires n > 0 && a % n == 0 && b % n == 0 && a < b + n && b < a + n
    ensures a == b
  {
    var x, y := a / n, b / n;
    assert a == n * x && b == n * y;
    FarMultiple(n, x - y);
  }

  lemma {:induction false} FarMultiple(n: int, x: int)
    requires n >= 0
    ensures x > 0 ==> n * x >= n
    ensures x < 0 ==> n * x <= -n
    decreases if x < 0 then -x else x
  {
    if x > 1 {
      FarMultiple(n, x - 1);
      assert n * x == n * (x - 1) + n;
    } else if x < -1 {
      FarMultiple(n, x + 1);
      assert n * x == n * (x + 1) - n;
    }
  }

  /** Two gaps of two bytes, each in front of a constant of four. */
  method TwoGaps() returns (pool: Pool)
    ensures fresh(pool) && pool.Valid() && pool.gaps == MORE_GAPS && pool.size == 16
    ensures forall d: Data, o: nat :: Known(pool.trees, d, o) ==> |d| != 2 || d == [1, 1]
    ensures forall d: Data, o: nat :: Known(pool.trees, d, o) ==> o + |d| <= 9 || 12 <= o
  {
    hide Pool.Valid, Known, Added, Next, Size, Shared;
    GapSteps();
    Sizes();
    NextIs(0, 1, 0);
    NextIs(2, 2, 4);
    NextIs(8, 0, 8);
    NextIs(9, 2, 12);
    pool := new Pool();
    var a := pool.Add([1, 1]);
    assert a == Offset(0) && pool.gaps == NO_GAPS && pool.size == 2;
    var b := pool.Add([2, 2, 2, 2]);
    assert b == Offset(4) && pool.gaps == ONE_GAP && pool.size == 8;
    var c := pool.Add([3]);
    assert c == Offset(8) && pool.gaps == ONE_GAP && pool.size == 9;
    var d := pool.Add([4, 4, 4, 4]);
  }

  /** A run that loses a gap: a constant of two bytes takes both gaps of two bytes off the list and
      uses the one at 2. The bytes 10 and 11 are in no gap any more, and no constant has them. */
  method LosesGap() returns (pool: Pool)
    ensures fresh(pool) && pool.Valid() && pool.size == 16
    ensures forall i, x :: Has(pool.gaps, i, x) ==> pool.gaps[i][x].offset + pool.gaps[i][x].length <= 10
    ensures forall d: Data, o: nat :: Known(pool.trees, d, o) ==> o + |d| <= 10 || 12 <= o
  {
    hide Pool.Valid, Known, Added, Next, Size, Shared;
    Sizes();
    pool := TwoGaps();
    var e := pool.Add([5, 5]);
    assert MORE_GAPS[1][2..] == [];
    assert e == Offset(2) && pool.gaps == [[Gap(9, 1)], [], [], [], [], []];
  }
}
