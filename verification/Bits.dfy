/** Machine words as rows of bits, and bit arrays made of them. */
module Bits {
  import opened Word32

  const ALL: Word := M - 1

  predicate Nth(w: nat, k: nat) {
    if k == 0 then w % 2 == 1 else Nth(w / 2, k - 1)
  }

  /** The word with bit k alone; zero from bit 32 on, as shifting out leaves it. */
  function Mask(k: nat): Word {
    if k == 0 then 1 else ShiftLeft(Mask(k - 1))
  }

  function ShiftLeft(w: Word): Word { if w < HALF then 2 * w else 2 * w - M }
  function ShiftRight(w: Word): Word { w / 2 }

  /** Shifts by a variable amount. */
  function Shl(w: Word, n: nat): Word { if n == 0 then w else ShiftLeft(Shl(w, n - 1)) }
  function Shr(w: Word, n: nat): Word { if n == 0 then w else ShiftRight(Shr(w, n - 1)) }

  // ---- bitwise operations ----------------------------------------------------------

  function Op(op: BitOp, a: bool, b: bool): bool {
    match op
    case AndBits => a && b
    case OrBits => a || b
    case XorBits => a != b
  }

  lemma {:induction false} BitwiseBit(op: BitOp, a: nat, b: nat, n: nat, k: nat)
    requires k < n
    ensures Nth(Bitwise(op, a, b, n), k) <==> Op(op, Nth(a, k), Nth(b, k))
    decreases n
  {
    var r := Bitwise(op, a / 2, b / 2, n - 1);
    assert (2 * r + Combine(op, a % 2, b % 2)) / 2 == r;
    if k > 0 { BitwiseBit(op, a / 2, b / 2, n - 1, k - 1); }
  }

  lemma AndBit(a: Word, b: Word, k: nat)
    requires k < 32
    ensures Nth(And(a, b), k) <==> Nth(a, k) && Nth(b, k)
  {
    BitwiseBit(AndBits, a, b, 32, k);
  }

  lemma OrBit(a: Word, b: Word, k: nat)
    requires k < 32
    ensures Nth(Or(a, b), k) <==> Nth(a, k) || Nth(b, k)
  {
    BitwiseBit(OrBits, a, b, 32, k);
  }

  lemma {:induction false} ComplementBit(a: nat, n: nat, k: nat)
    requires a < Pow2(n) && k < n
    ensures Nth(Pow2(n) - 1 - a, k) <==> !Nth(a, k)
    decreases n
  {
    var p, q := Pow2(n - 1), a / 2;
    assert a == 2 * q + a % 2;
    assert 2 * p - 1 - a == 2 * (p - 1 - q) + (1 - a % 2);
    if k > 0 {
      ComplementBit(q, n - 1, k - 1);
      assert (2 * p - 1 - a) / 2 == p - 1 - q;
    }
  }

  lemma NotBit(a: Word, k: nat)
    requires k < 32
    ensures Nth(Not(a), k) <==> !Nth(a, k)
  {
    Pow2At32();
    ComplementBit(a, 32, k);
  }

  // ---- masks -------------------------------------------------------------------------

  lemma {:induction false} Pow2Grows(j: nat, k: nat)
    requires j <= k
    ensures Pow2(j) <= Pow2(k)
  {
    if j < k { Pow2Grows(j, k - 1); }
  }

  lemma {:induction false} MaskIsPow2(k: nat)
    ensures Mask(k) == if k < 32 then Pow2(k) else 0
  {
    Pow2At32();
    if k > 0 {
      MaskIsPow2(k - 1);
      if k < 32 { Pow2Grows(k, 31); }
    }
  }

  lemma {:induction false} ZeroBit(k: nat)
    ensures !Nth(0, k)
  {
    if k > 0 { ZeroBit(k - 1); }
  }

  lemma {:induction false} Pow2Bit(j: nat, k: nat)
    ensures Nth(Pow2(j), k) <==> j == k
  {
    if j == 0 {
      if k > 0 { ZeroBit(k - 1); }
    } else {
      assert Pow2(j) / 2 == Pow2(j - 1);
      if k > 0 { Pow2Bit(j - 1, k - 1); }
    }
  }

  lemma MaskBit(j: nat, k: nat)
    requires j < 32
    ensures Nth(Mask(j), k) <==> j == k
  {
    MaskIsPow2(j);
    Pow2Bit(j, k);
  }

  lemma {:induction false} AndZero(a: nat, n: nat)
    ensures Bitwise(AndBits, a, 0, n) == 0
  {
    if n > 0 { AndZero(a / 2, n - 1); }
  }

  lemma {:induction false} AndPow2(a: nat, k: nat, n: nat)
    requires k < n
    ensures Bitwise(AndBits, a, Pow2(k), n) == if Nth(a, k) then Pow2(k) else 0
    decreases n
  {
    if k == 0 {
      AndZero(a / 2, n - 1);
    } else {
      assert Pow2(k) / 2 == Pow2(k - 1) && Pow2(k) % 2 == 0;
      AndPow2(a / 2, k - 1, n - 1);
    }
  }

  /** The test of a bit with its mask. */
  lemma MaskTests(w: Word, k: nat)
    requires k < 32
    ensures And(w, Mask(k)) != 0 <==> Nth(w, k)
  {
    MaskIsPow2(k);
    AndPow2(w, k, 32);
  }

  /** Setting and clearing a bit with its mask. */
  lemma MaskSets(w: Word, j: nat, k: nat)
    requires j < 32 && k < 32
    ensures Nth(Or(w, Mask(j)), k) <==> Nth(w, k) || j == k
    ensures Nth(And(w, Not(Mask(j))), k) <==> Nth(w, k) && j != k
  {
    OrBit(w, Mask(j), k);
    AndBit(w, Not(Mask(j)), k);
    NotBit(Mask(j), k);
    MaskBit(j, k);
  }

  // ---- shifts ----------------------------------------------------------------------------

  lemma {:induction false} LowBits(x: nat, n: nat, k: nat)
    requires k < n && x >= Pow2(n)
    ensures Nth(x - Pow2(n), k) <==> Nth(x, k)
    decreases n
  {
    var p := Pow2(n - 1);
    if k > 0 {
      assert (x - 2 * p) / 2 == x / 2 - p;
      LowBits(x / 2, n - 1, k - 1);
    }
  }

  lemma ShiftLeftBit(w: Word, k: nat)
    requires k < 32
    ensures Nth(ShiftLeft(w), k) <==> k > 0 && Nth(w, k - 1)
  {
    Pow2At32();
    assert (2 * w) / 2 == w && (2 * w) % 2 == 0;
    if w >= HALF { LowBits(2 * w, 32, k); }
  }

  lemma {:induction false} HighBits(w: nat, n: nat, k: nat)
    requires w < Pow2(n) && k >= n
    ensures !Nth(w, k)
    decreases n
  {
    if n > 0 { HighBits(w / 2, n - 1, k - 1); } else { ZeroBit(k); }
  }

  lemma ShiftRightBit(w: Word, k: nat)
    requires k < 32
    ensures Nth(ShiftRight(w), k) <==> k < 31 && Nth(w, k + 1)
  {
    Pow2At32();
    if k == 31 { HighBits(w, 32, 32); }
  }

  lemma {:induction false} ShlBit(w: Word, n: nat, k: nat)
    requires k < 32
    ensures Nth(Shl(w, n), k) <==> k >= n && Nth(w, k - n)
  {
    if n > 0 {
      ShiftLeftBit(Shl(w, n - 1), k);
      if k > 0 { ShlBit(w, n - 1, k - 1); }
    }
  }

  lemma {:induction false} ShrBit(w: Word, n: nat, k: nat)
    requires k < 32
    ensures Nth(Shr(w, n), k) <==> k + n < 32 && Nth(w, k + n)
  {
    if n > 0 {
      ShiftRightBit(Shr(w, n - 1), k);
      if k < 31 { ShrBit(w, n - 1, k + 1); }
    }
  }

  lemma AllBits(k: nat)
    requires k < 32
    ensures Nth(ALL, k)
  {
    NotBit(0, k);
    ZeroBit(k);
  }

  /** A run of c ones from bit j on, as two shifts make it. */
  lemma RunOfOnes(c: nat, j: nat, k: nat)
    requires c <= 32 && j + c <= 32 && k < 32
    ensures Nth(Shl(Shr(ALL, 32 - c), j), k) <==> j <= k < j + c
  {
    ShlBit(Shr(ALL, 32 - c), j, k);
    if k >= j {
      ShrBit(ALL, 32 - c, k - j);
      if k - j + 32 - c < 32 { AllBits(k - j + 32 - c); }
    }
  }

  // ---- bits of a word ------------------------------------------------------------------

  predicate Bit(w: Word, k: nat) { Nth(w, k) }

  /** Or-ing a run of ones into a word. */
  lemma OrRun(w: Word, c: nat, j: nat)
    requires c <= 32 && j + c <= 32
    ensures forall k: nat :: k < 32 ==> (Bit(Or(w, Shl(Shr(ALL, 32 - c), j)), k) <==> Bit(w, k) || j <= k < j + c)
  {
    hide Nth, Or, Shl, Shr;
    forall k: nat | k < 32
      ensures Bit(Or(w, Shl(Shr(ALL, 32 - c), j)), k) <==> Bit(w, k) || j <= k < j + c
    {
      OrBit(w, Shl(Shr(ALL, 32 - c), j), k);
      RunOfOnes(c, j, k);
    }
  }

  lemma Full()
    ensures forall k: nat :: k < 32 ==> Bit(ALL, k)
  {
    forall k: nat | k < 32 ensures Bit(ALL, k) { AllBits(k); }
  }

  lemma BitTests(w: Word, k: nat)
    requires k < 32
    ensures And(w, Mask(k)) != 0 <==> Bit(w, k)
  {
    MaskTests(w, k);
  }

  lemma BitClears(w: Word, j: nat)
    requires j < 32
    ensures forall k: nat :: k < 32 ==> (Bit(And(w, Not(Mask(j))), k) <==> Bit(w, k) && j != k)
  {
    forall k: nat | k < 32 ensures Bit(And(w, Not(Mask(j))), k) <==> Bit(w, k) && j != k { MaskSets(w, j, k); }
  }

  // ---- bit arrays --------------------------------------------------------------------

  predicate BitAt(s: seq<Word>, b: nat)
    requires b < 32 * |s|
  {
    Bit(s[b / 32], b % 32)
  }

  /** The bits of a bit array. */
  function BitsOf(s: seq<Word>, n: nat): (r: seq<bool>)
    requires n <= 32 * |s|
    ensures |r| == n && forall b :: 0 <= b < n ==> r[b] == BitAt(s, b)
  {
    seq(n, b requires 0 <= b < n => BitAt(s, b))
  }
}
