/** Thirty-two bit cells as integers in [0, 2^32), with the wrapping, signed and byte
    views that the AMX and x86 machines share. */
module Word32 {

  const M: int := 0x1_0000_0000
  const HALF: int := 0x8000_0000

  type Word = x: int | 0 <= x < M
  type Byte = x: int | 0 <= x < 0x100

  datatype Option<+T> = None | Some(value: T) {
    predicate IsFailure() { None? }
    function PropagateFailure<U>(): Option<U>
      requires None?
    { None }
    function Extract(): T
      requires Some?
    { value }
  }

  /** Reduces any integer to the cell congruent to it. */
  function Wrap(x: int): (r: Word)
  {
    x % M
  }

  function Add(a: Word, b: Word): (r: Word)
  {
    if a + b < M then a + b else a + b - M
  }

  function Sub(a: Word, b: Word): (r: Word)
  {
    if a >= b then a - b else a - b + M
  }

  function Neg(a: Word): (r: Word) { Sub(0, a) }

  /** The two's complement reading of a cell. */
  function Int(a: Word): (r: int)
    ensures -HALF <= r < HALF
  {
    if a < HALF then a else a - M
  }

  predicate InRange(x: int) { -HALF <= x < HALF }

  /** The cell whose two's complement reading is x. */
  function Cell(x: int): (r: Word)
    requires InRange(x)
    ensures Int(r) == x
  {
    if x >= 0 then x else x + M
  }

  // ---- bitwise operations, bit by bit ------------------------------------

  datatype BitOp = AndBits | OrBits | XorBits

  function Combine(op: BitOp, a: int, b: int): (r: int)
    ensures 0 <= r <= 1
  {
    match op
    case AndBits => if a == 1 && b == 1 then 1 else 0
    case OrBits => if a == 1 || b == 1 then 1 else 0
    case XorBits => if a == b then 0 else 1
  }

  /** The operation applied to the n low bits of both operands. */
  function Bitwise(op: BitOp, a: nat, b: nat, n: nat): (r: nat)
    ensures r < Pow2(n)
  {
    if n == 0 then 0
    else 2 * Bitwise(op, a / 2, b / 2, n - 1) + Combine(op, a % 2, b % 2)
  }

  function Bits(op: BitOp, a: Word, b: Word): (r: Word)
  {
    Pow2At32();
    Bitwise(op, a, b, 32)
  }

  function And(a: Word, b: Word): Word { Bits(AndBits, a, b) }
  function Or(a: Word, b: Word): Word { Bits(OrBits, a, b) }
  function Xor(a: Word, b: Word): Word { Bits(XorBits, a, b) }
  function Not(a: Word): Word { M - 1 - a }

  function Pow2(n: nat): (p: nat)
    ensures p > 0
  {
    if n == 0 then 1 else 2 * Pow2(n - 1)
  }

  lemma Pow2At32()
    ensures Pow2(32) == M
  {
    assert Pow2(4) == 0x10;
    assert Pow2(8) == 0x100 by { assert Pow2(6) == 0x40; }
    assert Pow2(12) == 0x1000 by { assert Pow2(10) == 0x400; }
    assert Pow2(16) == 0x1_0000 by { assert Pow2(14) == 0x4000; }
    assert Pow2(20) == 0x10_0000 by { assert Pow2(18) == 0x4_0000; }
    assert Pow2(24) == 0x100_0000 by { assert Pow2(22) == 0x40_0000; }
    assert Pow2(28) == 0x1000_0000 by { assert Pow2(26) == 0x400_0000; }
    assert Pow2(30) == 0x4000_0000;
  }

  function Bool(b: bool): Word { if b then 1 else 0 }

  // ---- bytes -------------------------------------------------------------

  /** Byte k of a cell, little endian. */
  function ByteOf(w: Word, k: int): (b: Byte)
    requires 0 <= k < 4
  {
    if k == 0 then w % 0x100
    else if k == 1 then w / 0x100 % 0x100
    else if k == 2 then w / 0x100 / 0x100 % 0x100
    else w / 0x100 / 0x100 / 0x100
  }

  function Join(b0: Byte, b1: Byte, b2: Byte, b3: Byte): (w: Word)
  {
    b0 + 0x100 * b1 + 0x1_0000 * b2 + 0x100_0000 * b3
  }

  lemma JoinOfBytes(w: Word)
    ensures Join(ByteOf(w, 0), ByteOf(w, 1), ByteOf(w, 2), ByteOf(w, 3)) == w
  {
    var q1 := w / 0x100;
    var q2 := q1 / 0x100;
    var q3 := q2 / 0x100;
    assert w == 0x100 * q1 + w % 0x100 && q1 == 0x100 * q2 + q1 % 0x100 && q2 == 0x100 * q3 + q2 % 0x100;
  }

  // ---- facts used by the simulation --------------------------------------

  /** A base register plus an AMX address, minus the base, is the AMX address again. */
  lemma Rebase(base: Word, a: Word, off: Word)
    ensures Sub(Add(Add(base, a), off), base) == Add(a, off)
    ensures Sub(Add(base, Add(a, off)), base) == Add(a, off)
    ensures Add(Add(base, a), off) == Add(base, Add(a, off))
  {
  }

  lemma {:induction false} BitwiseSelf(a: nat, n: nat)
    requires a < Pow2(n)
    ensures Bitwise(XorBits, a, a, n) == 0
    ensures Bitwise(AndBits, a, a, n) == a
  {
    if n > 0 {
      BitwiseSelf(a / 2, n - 1);
    }
  }

  lemma BitsSelf(a: Word)
    ensures Xor(a, a) == 0
    ensures And(a, a) == a
  {
    Pow2At32();
    BitwiseSelf(a, 32);
  }

  lemma WrapAdd(base: Word, n: int)
    ensures Add(base, Wrap(n)) == Wrap(base + n)
  {
    var q := n / M;
    assert n == q * M + Wrap(n);
    var t := base + Wrap(n);
    assert base + n == q * M + t;
    if t < M {
      WrapUnique(base + n, t, q);
    } else {
      WrapUnique(base + n, t - M, q + 1);
    }
  }

  /** A cell congruent to x is the one x wraps to. */
  lemma WrapUnique(x: int, r: Word, q: int)
    requires x == q * M + r
    ensures Wrap(x) == r
  {
    var d := x / M;
    assert x == d * M + Wrap(x);
    assert (d - q) * M == r - Wrap(x);
  }
}
