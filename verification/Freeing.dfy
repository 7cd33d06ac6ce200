/** Freeing the blocks of an allocation, or its tail: both bit arrays are walked in step, a word
    at a time, up to the block whose continue bit is clear. */
module Freeing {
  import opened Word32
  import opened Bits
  import opened Bitmap

  /** r is s with the bits of index..index+len-1 cleared. */
  ghost predicate ClearIn(s: seq<Word>, r: seq<Word>, index: nat, len: nat) {
    |r| == |s| && forall b: nat {:trigger BitAt(r, b)} :: b < W * |s| ==> (BitAt(r, b) <==> BitAt(s, b) && !(index <= b < index + len))
  }

  lemma {:induction false} ClearNone(s: seq<Word>, index: nat)
    ensures ClearIn(s, s, index, 0)
  {
  }

  /** How many blocks from block p on belong together: up to the first clear continue bit. */
  function Extent(c: seq<bool>, p: nat): (n: nat)
    ensures n > 0
    decreases |c| - p
  {
    if p < |c| && c[p] then 1 + Extent(c, p + 1) else 1
  }

  /** The word of bit p. */
  lemma {:induction false} SameWord(s: seq<Word>, i: nat)
    requires i < |s|
    ensures s[i := s[i]] == s
  {
  }

  /** One more bit cleared in the word at hand. */
  lemma {:induction false} ClearMore(s: seq<Word>, r: seq<Word>, index: nat, len: nat, i: nat, j: nat, w: Word)
    requires i < |r| && ClearIn(s, r[i := w], index, len) && j < W && index + len == W * i + j
    ensures ClearIn(s, r[i := And(w, Not(Mask(j)))], index, len + 1)
  {
    hide Bit, And, Not, Mask;
    var v := And(w, Not(Mask(j)));
    BitClears(w, j);
    forall b: nat | b < W * |s|
      ensures BitAt(r[i := v], b) <==> BitAt(s, b) && !(index <= b < index + len + 1)
    {
      WordSet(r, i, v, b);
      WordSet(r, i, w, b);
      Split(b);
      assert BitAt(r[i := w], b) <==> BitAt(s, b) && !(index <= b < index + len);
    }
  }

  /** The continue bit of the block at position 32 * i + j, read from the word at hand. */
  lemma {:induction false} ContBit(s: seq<Word>, r: seq<Word>, blocks: nat, index: nat, len: nat, i: nat, j: nat, w: Word)
    requires i < |r| && ClearIn(s, r[i := w], index, len) && j < W && index + len == W * i + j
    requires blocks <= W * |s| && W * i + j < blocks
    ensures And(w, Mask(j)) != 0 <==> BitsOf(s, blocks)[W * i + j]
  {
    hide Bit, And, Mask;
    Joined(i, j);
    BitTests(w, j);
    WordSet(r, i, w, W * i + j);
    assert BitAt(r[i := w], W * i + j) <==> BitAt(s, W * i + j);
  }

  lemma {:induction false} ExtentStep(c: seq<bool>, p: nat)
    requires p < |c|
    ensures Extent(c, p) == if c[p] then 1 + Extent(c, p + 1) else 1
  {
  }

  /** One round of the loop of release. */
  lemma {:induction false} FreeStep(u: seq<Word>, c: seq<Word>, r: seq<Word>, t: seq<Word>, blocks: nat, p: nat, q: nat, cont: nat, i: nat, j: nat,
                 ubits: Word, cbits: Word)
    requires i < |r| && i < |t| && j < W && p + cont == W * i + j && blocks <= W * |c| && |u| == |c|
    requires q <= p && ClearIn(u, r[i := ubits], p, cont) && ClearIn(c, t[i := cbits], q, p - q + cont)
    requires p + cont + Extent(BitsOf(c, blocks), p + cont) <= blocks
    ensures ClearIn(u, r[i := And(ubits, Not(Mask(j)))], p, cont + 1) && ClearIn(c, t[i := And(cbits, Not(Mask(j)))], q, p - q + cont + 1)
    ensures Extent(BitsOf(c, blocks), p + cont) == if And(cbits, Mask(j)) == 0 then 1 else 1 + Extent(BitsOf(c, blocks), p + cont + 1)
    ensures ShiftLeft(Mask(j)) == Mask(j + 1) && (Mask(j + 1) == 0 <==> j + 1 == W)
  {
    hide And, Not, Mask, ShiftLeft, BitsOf, Bit, ClearIn;
    ContBit(c, t, blocks, q, p - q + cont, i, j, cbits);
    ExtentStep(BitsOf(c, blocks), p + cont);
    ClearMore(u, r, p, cont, i, j, ubits);
    ClearMore(c, t, q, p - q + cont, i, j, cbits);
    NextMask(j);
    LastMask(j + 1);
  }

  /** The loop that release and shrink have in common: frees block p and the blocks behind it
      up to the end of the allocation. The word of p is at hand in ubits and cbits, with the
      continue bits of blocks q..p-1 already cleared. */
  method FreeRest(up: array<Word>, cp: array<Word>, ghost u: seq<Word>, ghost c: seq<Word>, ghost blocks: nat, ghost p: nat, ghost q: nat,
                  first: nat, ghost start: nat, ubits0: Word, cbits0: Word, bit0: Word) returns (freed: nat)
    requires up != cp && up.Length == cp.Length == |u| == |c| && blocks <= W * up.Length
    requires first < up.Length && start < W && p == W * first + start && bit0 == Mask(start)
    requires q <= p && ClearIn(u, up[..][first := ubits0], p, 0) && ClearIn(c, cp[..][first := cbits0], q, p - q)
    requires p + Extent(BitsOf(c, blocks), p) <= blocks
    modifies up, cp
    ensures freed == Extent(BitsOf(c, blocks), p)
    ensures ClearIn(u, up[..], p, freed) && ClearIn(c, cp[..], q, p - q + freed)
  {
    hide ClearIn, And, Not, Mask, ShiftLeft, BitsOf, Bit;
    ghost var bits := BitsOf(c, blocks);
    var i, ubits, cbits, bit := first, ubits0, cbits0, bit0;
    ghost var j: nat := start;
    freed := 0;
    while true
      invariant i < up.Length && j < W && p + freed == W * i + j && bit == Mask(j)
      invariant ClearIn(u, up[..][i := ubits], p, freed) && ClearIn(c, cp[..][i := cbits], q, p - q + freed)
      invariant Extent(bits, p) == freed + Extent(bits, p + freed) && p + Extent(bits, p) <= blocks
      decreases blocks - p - freed
    {
      ghost var r, t := up[..], cp[..];
      FreeStep(u, c, r, t, blocks, p, q, freed, i, j, ubits, cbits);
      var stop := And(cbits, bit) == 0;
      ubits := And(ubits, Not(bit));
      cbits := And(cbits, Not(bit));
      bit := ShiftLeft(bit);
      j := j + 1;
      freed := freed + 1;
      if stop || bit == 0 {
        up[i] := ubits;
        cp[i] := cbits;
        assert up[..] == r[i := ubits] && cp[..] == t[i := cbits];
        if stop { break; }
        i := i + 1;
        j := 0;
        assert p + freed == W * i && p + freed < blocks;
        ubits, cbits := up[i], cp[i];
        SameWord(up[..], i);
        SameWord(cp[..], i);
        bit := 1;
        FirstMask();
      }
    }
  }

  /** release: frees the allocation at block p. */
  method FreeBlocks(up: array<Word>, cp: array<Word>, blocks: nat, p: nat) returns (cont: nat)
    requires up != cp && up.Length == cp.Length && blocks <= W * up.Length
    requires p + Extent(BitsOf(cp[..], blocks), p) <= blocks
    modifies up, cp
    ensures cont == Extent(old(BitsOf(cp[..], blocks)), p)
    ensures ClearIn(old(up[..]), up[..], p, cont) && ClearIn(old(cp[..]), cp[..], p, cont)
  {
    hide ClearIn, Mask, BitsOf;
    ghost var u, c := up[..], cp[..];
    ExtentStep(BitsOf(c, blocks), p);
    var i := p / W;
    Split(p);
    ClearNone(u, p);
    ClearNone(c, p);
    SameWord(u, i);
    SameWord(c, i);
    cont := FreeRest(up, cp, u, c, blocks, p, p, i, p % W, up[i], cp[i], Mask(p % W));
  }

  lemma {:induction false} LastMask(k: nat)
    requires k <= W
    ensures Mask(k) == 0 <==> k == W
  {
    MaskIsPow2(k);
  }

  /** The first loop of shrink: the word and bit of the last block to keep, unless the
      allocation has no more blocks than that. */
  method FindKept(cp: array<Word>, blocks: nat, p: nat, keep: nat) returns (found: bool, i: nat, ghost j: nat, bit: Word)
    requires blocks <= W * cp.Length && p + Extent(BitsOf(cp[..], blocks), p) <= blocks
    ensures found == (0 < keep < Extent(BitsOf(cp[..], blocks), p))
    ensures found ==> i < cp.Length && j < W && p + keep - 1 == W * i + j && bit == Mask(j)
    ensures found ==> p + keep < blocks
    ensures found ==> Extent(BitsOf(cp[..], blocks), p) == keep + Extent(BitsOf(cp[..], blocks), p + keep)
  {
    hide And, Mask, ShiftLeft, BitsOf, Bit, Extent;
    ghost var bits := BitsOf(cp[..], blocks);
    ExtentStep(bits, p);
    i, j := p / W, p % W;
    Split(p);
    var cbits := cp[i];
    bit := Mask(p % W);
    var cont := 0;
    while true
      invariant i < cp.Length && j < W && p + cont == W * i + j && bit == Mask(j) && cbits == cp[i]
      invariant Extent(bits, p) == cont + Extent(bits, p + cont) && p + Extent(bits, p) <= blocks
      invariant keep == 0 || cont < keep
      decreases blocks - p - cont
    {
      ExtentStep(bits, p + cont);
      BlockBit(cp[..], blocks, i, j);
      var stop := And(cbits, bit) == 0;
      if stop { return false, i, j, bit; }
      cont := cont + 1;
      if cont == keep { return true, i, j, bit; }
      MaskMoves(j);
      bit := ShiftLeft(bit);
      j := j + 1;
      if bit == 0 {
        i := i + 1;
        j := 0;
        cbits := cp[i];
        bit := 1;
        FirstMask();
      }
    }
  }

  lemma {:induction false} MaskMoves(j: nat)
    requires j < W
    ensures ShiftLeft(Mask(j)) == Mask(j + 1) && (Mask(j + 1) == 0 <==> j + 1 == W)
  {
    NextMask(j);
    LastMask(j + 1);
  }

  /** Both loops of shrink: keeps the first blocks of the allocation at p, unless there is
      nothing behind them. */
  method ShrinkBlocks(up: array<Word>, cp: array<Word>, blocks: nat, p: nat, keep: nat) returns (freed: nat)
    requires up != cp && up.Length == cp.Length && blocks <= W * up.Length
    requires p + Extent(BitsOf(cp[..], blocks), p) <= blocks
    modifies up, cp
    ensures var n := Extent(old(BitsOf(cp[..], blocks)), p);
            if 0 < keep < n
            then freed == n - keep && ClearIn(old(up[..]), up[..], p + keep, freed) && ClearIn(old(cp[..]), cp[..], p + keep - 1, freed + 1)
            else freed == 0 && up[..] == old(up[..]) && cp[..] == old(cp[..])
  {
    hide ClearIn, And, Not, Mask, ShiftLeft, BitsOf, Bit;
    ghost var u, c := up[..], cp[..];
    ghost var bits := BitsOf(c, blocks);
    var found, i, j, bit := FindKept(cp, blocks, p, keep);
    if !found { return 0; }
    var ubits, cbits := up[i], cp[i];
    ClearNone(u, p + keep);
    ClearNone(c, p + keep - 1);
    SameWord(u, i);
    SameWord(c, i);
    ClearMore(c, c, p + keep - 1, 0, i, j, cbits);
    cbits := And(cbits, Not(bit));
    MaskMoves(j);
    bit := ShiftLeft(bit);
    ghost var start: nat := j + 1;
    if bit == 0 {
      up[i], cp[i] := ubits, cbits;
      assert up[..] == u[i := ubits] && cp[..] == c[i := cbits];
      i := i + 1;
      start := 0;
      assert p + keep == W * i && p + keep < blocks;
      ubits, cbits := up[i], cp[i];
      SameWord(up[..], i);
      SameWord(cp[..], i);
      bit := 1;
      FirstMask();
    }
    freed := FreeRest(up, cp, u, c, blocks, p + keep, p + keep - 1, i, start, ubits, cbits, bit);
  }
}
