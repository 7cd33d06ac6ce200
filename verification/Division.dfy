/** The two-step signed division of SDIV: when it computes the quotient and the residue that
    the instruction specifies, and what goes wrong otherwise. */
module Division {
  import opened Word32
  import opened X86
  import Amx
  import opened Emit
  import opened Relation

  lemma QuotientIsTDiv(n: int, d: int)
    requires d != 0
    ensures TDiv(n, d) == Amx.Quotient(n, d)
  {
  }

  lemma DivBound(n: int, d: int)
    requires d > 0 && n >= 0
    ensures 0 <= n - d * (n / d) < d
  {
  }

  lemma NegMul(b: int, q: int)
    ensures (-b) * (-q) == b * q && b * (-q) == -(b * q) && (-b) * q == -(b * q)
  {
  }

  /** The truncated remainder is smaller than the divisor and has the dividend's sign. */
  lemma RemBound(n: int, d: int)
    requires d != 0
    ensures Amx.Magnitude(TRem(n, d)) < Amx.Magnitude(d)
    ensures n >= 0 ==> TRem(n, d) >= 0
    ensures n <= 0 ==> TRem(n, d) <= 0
  {
    var a: int, b: int := Amx.Magnitude(n), Amx.Magnitude(d);
    var q: int := a / b;
    DivBound(a, b);
    NegMul(b, q);
    if n >= 0 && d < 0 {
      assert TDiv(n, d) == -q && d * -q == b * q;
    } else if n < 0 && d > 0 {
      assert TDiv(n, d) == -q && d * -q == -(b * q);
    } else if n < 0 {
      assert TDiv(n, d) == q && d * q == -(b * q);
    }
  }

  /** A residue in the range that the sign of d fixes is the one Modulo names. */
  lemma ModuloUnique(n: int, d: int, q: int, r: int)
    requires d != 0 && n == d * q + r
    requires if d > 0 then 0 <= r < d else d < r <= 0
    ensures Amx.Modulo(n, d) == r
  {
    if d > 0 {
      ResidueUnique(n, d, q, r);
    } else {
      assert -n == (-d) * q + -r by { assert (-d) * q == -(d * q); }
      ResidueUnique(-n, -d, q, -r);
    }
  }

  lemma MulBounds(d: int, k: int)
    requires d > 0
    ensures k >= 1 ==> d * k >= d && d * k >= k
    ensures k >= 0 && d >= 2 ==> d * k >= 2 * k
    ensures k <= -1 ==> d * k <= -d
  {
  }

  lemma ResidueUnique(n: int, d: int, q: int, r: int)
    requires d > 0 && n == d * q + r && 0 <= r < d
    ensures n % d == r && n / d == q
  {
    var k := n / d - q;
    assert d * k == r - n % d by { assert n == d * (n / d) + n % d; }
    MulBounds(d, k);
  }

  /** Adding the divisor to the truncated remainder and taking the remainder once more gives
      the residue with the divisor's sign. */
  lemma SecondRemainder(n: int, d: int)
    requires d != 0
    ensures TRem(TRem(n, d) + d, d) == Amx.Modulo(n, d)
    ensures -1 <= TDiv(TRem(n, d) + d, d) <= 1
  {
    var q, r := TDiv(n, d), TRem(n, d);
    RemBound(n, d);
    var v := r + d;
    var s := if (r >= 0 && d > 0) || (r <= 0 && d < 0) then 1 else 0;
    SmallQuotient(v, d, s);
    if s == 1 {
      ModuloUnique(n, d, q, r);
    } else {
      assert n == d * (q - 1) + v by { assert d * (q - 1) == d * q - d; }
      ModuloUnique(n, d, q - 1, v);
    }
  }

  /** Quotients of dividends below twice the divisor. */
  lemma SmallQuotient(v: int, d: int, s: int)
    requires d != 0 && (s == 0 || s == 1)
    requires if d > 0 then s * d <= v < (s + 1) * d else (s + 1) * d < v <= s * d
    ensures TDiv(v, d) == s && TRem(v, d) == v - s * d
  {
    var a, b := Amx.Magnitude(v), Amx.Magnitude(d);
    if s == 0 {
      assert a < b && a / b == 0;
    } else {
      QuotientOne(a, b);
    }
  }

  lemma QuotientOne(a: nat, b: nat)
    requires 0 < b <= a < 2 * b
    ensures a / b == 1
  {
    ResidueUnique(a, b, 1, a - b);
  }

  /** With a remainder whose sum with the divisor leaves the cell range, the wrapped sum has
      the wrong sign and so does the remainder taken from it. */
  lemma WrappedRemainder(n: int, d: int)
    requires d != 0 && InRange(n) && InRange(d) && !InRange(TRem(n, d) + d)
    ensures var v := Int(Wrap(TRem(n, d) + d)); TRem(v, d) != Amx.Modulo(n, d)
  {
    var r := TRem(n, d);
    RemBound(n, d);
    ModuloUnique(n, d, TDiv(n, d), r);
    var v := if r + d >= HALF then r + d - M else r + d + M;
    WrapUnique(r + d, Wrap(v), if r + d >= HALF then (if v >= 0 then 1 else 0) else (if v >= 0 then -1 else -2));
    RemBound(v, d);
  }

  // ---- the emitted sequence ------------------------------------------------

  lemma CdqDividend(x: State)
    ensures Dividend(SetReg(x, EDX, if Int(x.regs.eax) < 0 then M - 1 else 0).regs) == Int(x.regs.eax)
  {
  }

  predicate FirstDivides(n: int, d: int) {
    d != 0 && InRange(Amx.Quotient(n, d))
  }

  lemma RemInRange(n: int, d: int)
    requires d != 0 && InRange(d)
    ensures InRange(TRem(n, d))
  {
    RemBound(n, d);
  }

  /** cdq; idiv ecx as one step. */
  function Divided(x: State): Option<State> {
    var n, d := Int(x.regs.eax), Int(x.regs.ecx);
    if d == 0 || !InRange(TDiv(n, d)) || !InRange(TRem(n, d)) then None
    else Some(Undef(x).(regs := x.regs.(eax := Cell(TDiv(n, d)), edx := Cell(TRem(n, d)))))
  }

  lemma CdqIDiv(env: Env, x: State)
    ensures Effects(env, [Cdq, IDiv(ECX)], x) == Divided(x)
  {
    CdqDividend(x);
    Seq2(env, Cdq, IDiv(ECX), x);
  }

  /** The state between the two divisions. */
  function Between(x: State): State {
    x.(regs := x.regs.(esi := x.regs.eax, eax := Add(x.regs.edx, x.regs.ecx)))
  }

  function Finished(x: State): State {
    x.(regs := x.regs.(ecx := x.regs.edx, eax := x.regs.esi))
  }

  lemma MiddleEffect(env: Env, x: State)
    ensures Effects(env, [Mov(R(ESI), R(EAX)), Lea(EAX, Index(EDX, ECX, 0))], x) == Some(Between(x))
  {
    Seq2(env, Mov(R(ESI), R(EAX)), Lea(EAX, Index(EDX, ECX, 0)), x);
  }

  lemma FinalEffect(env: Env, x: State)
    ensures Effects(env, [Mov(R(ECX), R(EDX)), Mov(R(EAX), R(ESI))], x) == Some(Finished(x))
  {
    Seq2(env, Mov(R(ECX), R(EDX)), Mov(R(EAX), R(ESI)), x);
  }

  /** DIVIDE is the two divisions with the copies around them. */
  lemma DivideEffects(env: Env, x: State)
    ensures Effects(env, DIVIDE, x)
         == var t := Divided(x); if t.None? then None else
            var u := Divided(Between(t.value)); if u.None? then None else Some(Finished(u.value))
  {
    var c1, c2, c3 := [Cdq, IDiv(ECX)], [Mov(R(ESI), R(EAX)), Lea(EAX, Index(EDX, ECX, 0))],
                      [Mov(R(ECX), R(EDX)), Mov(R(EAX), R(ESI))];
    assert DIVIDE == c1 + (c2 + (c1 + c3));
    SeqAppend(env, c1, c2 + (c1 + c3), x);
    CdqIDiv(env, x);
    if Divided(x).Some? {
      var y := Divided(x).value;
      SeqAppend(env, c2, c1 + c3, y);
      MiddleEffect(env, y);
      SeqAppend(env, c1, c3, Between(y));
      CdqIDiv(env, Between(y));
      if Divided(Between(y)).Some? { FinalEffect(env, Divided(Between(y)).value); }
    }
  }

  /** What the emitted division computes, for every dividend and divisor: it faults exactly on
      a zero divisor or an unrepresentable quotient; otherwise eax is the truncated quotient,
      and ecx the residue with the divisor's sign exactly when the truncated remainder plus
      the divisor is still a cell. */
  lemma SDivExact(env: Env, x: State)
    ensures var n, d := Int(x.regs.eax), Int(x.regs.ecx);
            var t := Effects(env, DIVIDE, x);
            && (t.Some? <==> FirstDivides(n, d))
            && (t.Some? ==> Int(t.value.regs.eax) == Amx.Quotient(n, d))
            && (t.Some? ==> (Int(t.value.regs.ecx) == Amx.Modulo(n, d)
                             <==> InRange(n - d * Amx.Quotient(n, d) + d)))
  {
    var n, d := Int(x.regs.eax), Int(x.regs.ecx);
    DivideEffects(env, x);
    if d != 0 {
      QuotientIsTDiv(n, d);
      RemInRange(n, d);
      if FirstDivides(n, d) {
        var y := Between(Divided(x).value);
        var v := Int(y.regs.eax);
        SecondDivision(n, d, v);
      }
    }
  }

  /** An input at which the residue is wrong: the sum of remainder and divisor does not fit. */
  lemma SDivFails(env: Env, x: State)
    requires x.regs.eax == 0x7ffffffe && x.regs.ecx == 0x7fffffff
    ensures var t := Effects(env, DIVIDE, x);
            && t.Some? && t.value.regs.eax == 0
            && Amx.Modulo(0x7ffffffe, 0x7fffffff) == 0x7ffffffe && Int(t.value.regs.ecx) != 0x7ffffffe
  {
    hide Effects;
    SDivExact(env, x);
    assert Amx.Quotient(0x7ffffffe, 0x7fffffff) == 0;
  }

  /** The second division never faults. */
  lemma SecondDivision(n: int, d: int, v: int)
    requires d != 0 && InRange(n) && InRange(d) && InRange(TRem(n, d))
    requires v == Int(Add(Cell(TRem(n, d)), Cell(d)))
    ensures InRange(TDiv(v, d)) && InRange(TRem(v, d))
    ensures TRem(v, d) == Amx.Modulo(n, d) <==> InRange(TRem(n, d) + d)
  {
    var r := TRem(n, d);
    RemBound(n, d);
    RemInRange(v, d);
    if InRange(r + d) {
      assert v == r + d;
      SecondRemainder(n, d);
    } else {
      var w := if r + d >= HALF then r + d - M else r + d + M;
      assert v == w;
      WrapUnique(r + d, Wrap(w), if r + d >= HALF then (if w >= 0 then 1 else 0) else (if w >= 0 then -1 else -2));
      WrappedRemainder(n, d);
      QuotientSmall(v, d);
    }
  }

  /** Division by anything but -1 does not overflow. */
  lemma QuotientSmall(v: int, d: int)
    requires d != 0 && d != -1 && InRange(v)
    ensures InRange(TDiv(v, d))
  {
    var a: int, b: int := Amx.Magnitude(v), Amx.Magnitude(d);
    var q: int := a / b;
    MulBounds(b, q);
    DivBound(a, b);
    assert q <= a && (b >= 2 ==> 2 * q <= a);
  }
}
