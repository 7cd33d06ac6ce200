/** The bit arrays of a memory node: which blocks are used, and which are followed by another
    block of the same allocation. */
module Bitmap {
  import opened Word32
  import opened Bits
  import opened FreeRuns

  const W := 32

  lemma {:induction false} Split(b: nat)
    ensures b == W * (b / W) + b % W && b % W < W
  {
  }

  lemma {:induction false} Joined(i: nat, j: nat)
    requires j < W
    ensures (W * i + j) / W == i && (W * i + j) % W == j
  {
  }

  /** One word replaced, seen bit by bit. */
  lemma {:induction false} WordSet(s: seq<Word>, i: nat, w: Word, b: nat)
    requires i < |s| && b < W * |s|
    ensures BitAt(s[i := w], b) <==> if b / W == i then Bit(w, b % W) else BitAt(s, b)
  {
  }

  /** r is s with the bits of index..index+len-1 set. */
  ghost predicate SetIn(s: seq<Word>, r: seq<Word>, index: nat, len: nat) {
    |r| == |s| && forall b: nat {:trigger BitAt(r, b)} :: b < W * |s| ==> (BitAt(r, b) <==> BitAt(s, b) || index <= b < index + len)
  }

  lemma {:induction false} SetMore(s: seq<Word>, r: seq<Word>, index: nat, len: nat, i: nat, w: Word, more: nat)
    requires SetIn(s, r, index, len) && i < |s|
    requires forall k: nat :: k < W ==> (Bit(w, k) <==> Bit(r[i], k) || index + len <= W * i + k < index + len + more)
    requires forall b: nat :: index + len <= b < index + len + more ==> b / W == i
    ensures SetIn(s, r[i := w], index, len + more)
  {
    forall b: nat | b < W * |s|
      ensures BitAt(r[i := w], b) <==> BitAt(s, b) || index <= b < index + len + more
    {
      WordSet(r, i, w, b);
      Split(b);
      assert BitAt(r, b) <==> BitAt(s, b) || index <= b < index + len;
    }
  }

  lemma {:induction false} ShlZero(w: Word)
    ensures Shl(w, 0) == w
  {
  }

  lemma {:induction false} InWord(i: nat, lo: nat, hi: nat)
    requires W * i <= lo <= hi <= W * i + W
    ensures forall b: nat :: lo <= b < hi ==> b / W == i
  {
  }

  function Run(c: nat, j: nat): Word
    requires c <= W
  {
    Shl(Shr(ALL, W - c), j)
  }

  /** One word or-ed with the part of the run that falls into it. */
  lemma {:induction false} OrMore(s: seq<Word>, r: seq<Word>, index: nat, len: nat, i: nat, j: nat, c: nat)
    requires SetIn(s, r, index, len) && i < |s| && j + c <= W && index + len == W * i + j
    ensures SetIn(s, r[i := Or(r[i], Run(c, j))], index, len + c)
  {
    hide Bit, Or, Shl, Shr;
    var w := Or(r[i], Run(c, j));
    OrRun(r[i], c, j);
    InWord(i, index + len, index + len + c);
    forall k: nat | k < W
      ensures Bit(w, k) <==> Bit(r[i], k) || index + len <= W * i + k < index + len + c
    {
    }
    SetMore(s, r, index, len, i, w, c);
  }

  lemma {:induction false} FillMore(s: seq<Word>, r: seq<Word>, index: nat, len: nat, i: nat)
    requires SetIn(s, r, index, len) && i < |s| && index + len == W * i
    ensures SetIn(s, r[i := ALL], index, len + W)
  {
    hide Bit;
    Full();
    InWord(i, W * i, W * i + W);
    SetMore(s, r, index, len, i, ALL, W);
  }

  /** Sets len bits from index on, a word at a time. */
  method SetBits(buf: array<Word>, index: nat, len: nat)
    requires index + len <= W * buf.Length
    modifies buf
    ensures SetIn(old(buf[..]), buf[..], index, len)
  {
    hide Or, Shl, Shr, SetIn;
    ghost var s := buf[..];
    assert SetIn(s, s, index, 0) by { SetNone(s, index); }
    if len == 0 { return; }
    var i, j := index / W, index % W;
    Split(index);
    var c := W - j;
    if c > len { c := len; }
    OrMore(s, s, index, 0, i, j, c);
    buf[i] := Or(buf[i], Shl(Shr(ALL, W - c), j));
    assert buf[..] == s[i := Or(s[i], Run(c, j))];
    i := i + 1;
    var rest := len - c;
    while rest >= W
      invariant i <= buf.Length && 0 <= rest <= len && (rest > 0 ==> index + len - rest == W * i)
      invariant SetIn(s, buf[..], index, len - rest)
    {
      FillMore(s, buf[..], index, len - rest, i);
      ghost var before := buf[..];
      buf[i] := ALL;
      assert buf[..] == before[i := ALL];
      i := i + 1;
      rest := rest - W;
    }
    if rest > 0 {
      OrMore(s, buf[..], index, len - rest, i, 0, rest);
      ghost var before := buf[..];
      assert Run(rest, 0) == Shr(ALL, W - rest) by { ShlZero(Shr(ALL, W - rest)); }
      buf[i] := Or(buf[i], Shr(ALL, W - rest));
      assert buf[..] == before[i := Or(before[i], Run(rest, 0))];
    }
  }

  lemma {:induction false} SetNone(s: seq<Word>, index: nat)
    ensures SetIn(s, s, index, 0)
  {
  }

  // ---- searching for free blocks -------------------------------------------------------------

  /** Blocks 0..pos-1 have been seen: the last cont of them are free, and no run of n lies
      among them. */
  ghost predicate Scanned(u: seq<bool>, pos: nat, cont: nat, n: nat) {
    && pos <= |u| && cont <= pos && cont < n
    && (forall k :: pos - cont <= k < pos ==> !u[k])
    && (cont < pos ==> u[pos - cont - 1])
    && (forall j: nat :: j + n <= pos ==> !FreeRun(u, j, n))
  }

  /** Where a scan stands, the two lengths it has are FreeBefore and LongestEnded. */
  ghost predicate Measured(u: seq<bool>, pos: nat, cont: nat, max: nat) {
    pos <= |u| && cont == FreeBefore(u, pos) && max == LongestEnded(u, pos)
  }

  lemma {:induction false} MeasureFree(u: seq<bool>, pos: nat, cont: nat, max: nat)
    requires Measured(u, pos, cont, max) && pos < |u| && !u[pos]
    ensures Measured(u, pos + 1, cont + 1, max)
  {
  }

  lemma {:induction false} MeasureUsed(u: seq<bool>, pos: nat, cont: nat, max: nat, len: nat)
    requires Measured(u, pos, cont, max) && len > 0 && pos + len <= |u|
    requires forall k :: pos <= k < pos + len ==> u[k]
    ensures Measured(u, pos + len, 0, if cont > max then cont else max)
    decreases len
  {
    if len > 1 { MeasureUsed(u, pos, cont, max, len - 1); }
  }

  lemma {:induction false} ScanFree(u: seq<bool>, pos: nat, cont: nat, n: nat)
    requires Scanned(u, pos, cont, n) && pos < |u| && !u[pos]
    ensures cont + 1 < n ==> Scanned(u, pos + 1, cont + 1, n)
    ensures cont + 1 == n ==> FirstFit(u, pos + 1 - n, n)
  {
    forall j: nat | j + n <= pos + 1 && FreeRun(u, j, n)
      ensures j + n == pos + 1 && j >= pos - cont
    {
    }
  }

  lemma {:induction false} ScanUsed(u: seq<bool>, pos: nat, cont: nat, n: nat, len: nat)
    requires Scanned(u, pos, cont, n) && len > 0 && pos + len <= |u|
    requires forall k :: pos <= k < pos + len ==> u[k]
    ensures Scanned(u, pos + len, 0, n)
  {
    forall j: nat | j + n <= pos + len
      ensures !FreeRun(u, j, n)
    {
      if j + n > pos {
        var k := if j >= pos then j else pos;
        assert u[k];
      }
    }
  }

  lemma {:induction false} ScanEnd(u: seq<bool>, cont: nat, n: nat)
    requires Scanned(u, |u|, cont, n)
    ensures forall j: nat :: !FreeRun(u, j, n)
  {
  }

  lemma {:induction false} MeasureEnd(u: seq<bool>, blocks: nat, cont: nat, max: nat)
    requires Measured(u, blocks, cont, max)
    ensures max == LongestEnded(u, blocks)
  {
  }

  /** The block at position 32 * i + j, seen through its word. */
  lemma {:induction false} BlockBit(s: seq<Word>, blocks: nat, i: nat, j: nat)
    requires blocks <= W * |s| && j < W && W * i + j < blocks
    ensures BitsOf(s, blocks)[W * i + j] <==> Bit(s[i], j)
    ensures BitsOf(s, blocks)[W * i + j] <==> And(s[i], Mask(j)) != 0
  {
    Joined(i, j);
    BitTests(s[i], j);
  }

  /** Where word k ends, the last one cut short. */
  function WordEnd(blocks: nat, k: nat): nat { if W * k + W < blocks then W * k + W else blocks }

  /** The search within one word. */
  method ScanWord(ghost s: seq<Word>, ubits: Word, blocks: nat, need: nat, i: nat, ghost k: nat, cont0: nat, max0: nat)
    returns (found: bool, start: nat, cont: nat, max: nat)
    requires blocks <= W * |s| && i == W * k < blocks && ubits == s[k]
    requires Scanned(BitsOf(s, blocks), i, cont0, need) && Measured(BitsOf(s, blocks), i, cont0, max0)
    requires cont0 < need && max0 < need && cont0 <= i
    ensures found ==> FirstFit(BitsOf(s, blocks), start, need)
    ensures !found ==> Scanned(BitsOf(s, blocks), WordEnd(blocks, k), cont, need) && Measured(BitsOf(s, blocks), WordEnd(blocks, k), cont, max)
    ensures !found ==> cont < need && max < need && cont <= WordEnd(blocks, k)
  {
    hide FreeRun, FirstFit, Scanned, Measured, FreeBefore, LongestEnded, And, Mask, BitsOf, ShiftLeft;
    ghost var u := BitsOf(s, blocks);
    found, start, cont, max := false, 0, cont0, max0;
    var most := W;
    if i + most > blocks { most := blocks - i; }
    var j, bit := 0, 1;
    assert bit == Mask(0) by { FirstMask(); }
    while j < most
      invariant 0 <= j <= most && cont < need && max < need && i + most <= blocks && most <= W
      invariant bit == Mask(j) && cont <= i + j
      invariant Scanned(u, i + j, cont, need) && Measured(u, i + j, cont, max)
    {
      BlockBit(s, blocks, k, j);
      var mask := bit;
      NextMask(j);
      bit := ShiftLeft(bit);
      j := j + 1;
      if And(ubits, mask) == 0 {
        cont := cont + 1;
        ScanFree(u, i + j - 1, cont - 1, need);
        MeasureFree(u, i + j - 1, cont - 1, max);
        if cont == need { return true, i + j - cont, cont, max; }
        continue;
      }
      OneUsed(u, i + j - 1);
      ScanUsed(u, i + j - 1, cont, need, 1);
      MeasureUsed(u, i + j - 1, cont, max, 1);
      if cont > max { max := cont; }
      cont := 0;
    }
  }

  /** First fit within a node, a word at a time; when nothing is found, max is the length of the
      longest free run that a used block ends. */
  method Scan(up: array<Word>, blocks: nat, need: nat) returns (found: bool, start: nat, max: nat)
    requires blocks <= W * up.Length && need > 0
    ensures found ==> FirstFit(BitsOf(up[..], blocks), start, need)
    ensures !found ==> max == LongestEnded(BitsOf(up[..], blocks), blocks)
    ensures !found ==> max < need && forall j: nat :: !FreeRun(BitsOf(up[..], blocks), j, need)
  {
    hide FreeRun, FirstFit, Scanned, Measured, FreeBefore, LongestEnded, And, Mask, BitsOf, ShiftLeft;
    ghost var u := BitsOf(up[..], blocks);
    found, start, max := false, 0, 0;
    var i: nat, k: nat, cont: nat := 0, 0, 0;
    assert Scanned(u, 0, 0, need) && Measured(u, 0, 0, 0) by { ScanStart(u, need); }
    while i < blocks
      invariant i == W * k && cont < need && max < need && cont <= i
      invariant Scanned(u, if i < blocks then i else blocks, cont, need)
      invariant Measured(u, if i < blocks then i else blocks, cont, max)
      decreases blocks - i
    {
      var ubits := up[k];
      if ubits == ALL {
        FullWordUsed(up[..], blocks, k);
        ScanUsed(u, i, cont, need, WordEnd(blocks, k) - i);
        MeasureUsed(u, i, cont, max, WordEnd(blocks, k) - i);
        if cont > max { max := cont; }
        cont := 0;
      } else {
        found, start, cont, max := ScanWord(up[..], ubits, blocks, need, i, k, cont, max);
        if found { return; }
      }
      i := i + W;
      k := k + 1;
    }
    ScanEnd(u, cont, need);
    MeasureEnd(u, blocks, cont, max);
  }

  lemma {:induction false} FirstMask()
    ensures Mask(0) == 1
  {
  }

  lemma {:induction false} NextMask(k: nat)
    ensures Mask(k + 1) == ShiftLeft(Mask(k))
  {
  }

  lemma {:induction false} ScanStart(u: seq<bool>, n: nat)
    requires n > 0
    ensures Scanned(u, 0, 0, n) && Measured(u, 0, 0, 0)
  {
  }

  lemma {:induction false} OneUsed(u: seq<bool>, k: nat)
    requires k < |u| && u[k]
    ensures forall j :: k <= j < k + 1 ==> u[j]
  {
  }

  lemma {:induction false} FullWordUsed(s: seq<Word>, blocks: nat, i: nat)
    requires blocks <= W * |s| && W * i < blocks && s[i] == ALL
    ensures forall k :: W * i <= k < W * i + W && k < blocks ==> BitsOf(s, blocks)[k]
  {
    forall k | W * i <= k < W * i + W && k < blocks
      ensures BitsOf(s, blocks)[k]
    {
      Full();
      BlockBit(s, blocks, i, k - W * i);
    }
  }
}
