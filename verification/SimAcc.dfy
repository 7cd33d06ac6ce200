/** Operations on PRI and ALT run as the machine specifies. */
module SimAcc {
  import opened Word32
  import opened X86
  import Amx
  import opened Emit
  import opened Relation
  import opened Division

  // ---- arithmetic of the two machines ---------------------------------------

  lemma WrapSums(a: Word, b: Word)
    ensures Wrap(a + b) == Add(a, b)
    ensures Wrap(a - b) == Sub(a, b)
    ensures Neg(Sub(a, b)) == Sub(b, a)
    ensures Wrap(0 - (a as int)) == Neg(a)
    ensures Wrap(-1 - (a as int)) == Not(a)
    ensures Wrap(a + 1) == Add(a, 1)
    ensures Wrap(a - 1) == Sub(a, 1)
  {
  }

  lemma WrapConst(a: Word, v: Word)
    ensures Wrap(a + Int(v)) == if Int(v) >= 0 then Add(a, v) else Sub(a, Neg(v))
  {
  }

  /** The condition codes of cmp decide the comparison they are named after. */
  lemma CondDecides(r: Amx.Rel, a: Word, b: Word)
    ensures Holds(CondOf(r), CmpFlags(a, b, M)) <==> Amx.Related(r, a, b)
  {
  }

  // ---- shapes ----------------------------------------------------------------

  /** A sequence whose only lasting effect is v in an accumulator. */
  ghost predicate Yields(env: Env, code: seq<Insn>, x: State, r: Amx.Acc, v: Word) {
    exists edx: Word, esi: Word, edi: Word, fl: Flags ::
      Effects(env, code, x) == Some(SetReg(Scratch(x, edx, esi, edi, fl), RegOf(r), v))
  }

  lemma Yielded(env: Env, cfg: Amx.Cfg, code: seq<Insn>, r: Amx.Acc, v: Word, a: Amx.State, x: State)
    requires Core(env, cfg, a, x) && Yields(env, code, x, r, v)
    ensures Simulates(env, cfg, code, x, Amx.SetAcc(a, r, v))
  {
    var edx: Word, esi: Word, edi: Word, fl: Flags :|
      Effects(env, code, x) == Some(SetReg(Scratch(x, edx, esi, edi, fl), RegOf(r), v));
    CoreScratch(env, cfg, a, x, edx, esi, edi, fl);
    CoreAcc(env, cfg, r, v, a, Scratch(x, edx, esi, edi, fl));
  }

  /** One instruction. */
  lemma One(env: Env, i: Insn, x: State, r: Amx.Acc, v: Word, y: State)
    requires Effect(env, i, x) == Some(y)
    requires y == SetReg(Scratch(x, y.regs.edx, y.regs.esi, y.regs.edi, y.fl), RegOf(r), v)
    ensures Yields(env, [i], x, r, v)
  {
    Seq1(env, i, x);
  }

  lemma BinaryYields(env: Env, b: Amx.Bin, x: State)
    ensures Yields(env, BinaryCode(b), x, Amx.PRI, Amx.BinResult(b, x.regs.eax, x.regs.ecx))
  {
    hide And, Or, Xor, Wrap;
    var p, q := x.regs.eax, x.regs.ecx;
    WrapSums(p, q);
    WrapSums(q, p);
    if b.SubAltB? {
      var y := SetReg(Undef(x), EAX, Sub(p, q));
      Seq2(env, Alu(SubOp, R(EAX), R(ECX)), NegR(EAX), x);
      assert Effects(env, BinaryCode(b), x) == Some(SetReg(y, EAX, Sub(q, p)));
      assert SetReg(y, EAX, Sub(q, p)) == SetReg(Scratch(x, x.regs.edx, x.regs.esi, x.regs.edi, NoFlags), EAX, Sub(q, p));
    } else {
      var op := if b.AddB? then AddOp else if b.SubB? then SubOp else if b.AndB? then AndOp
                else if b.OrB? then OrOp else XorOp;
      assert BinaryCode(b) == [Alu(op, R(EAX), R(ECX))];
      One(env, Alu(op, R(EAX), R(ECX)), x, Amx.PRI, AluResult(op, p, q), SetReg(Undef(x), EAX, AluResult(op, p, q)));
    }
  }

  /** A flag turned into 0 or 1 in eax. */
  lemma LowByte(v: Word, c: bool)
    ensures 0 <= v - v % 0x100 + Bool(c) < M
    ensures (v - v % 0x100 + Bool(c)) % 0x100 == Bool(c)
  {
    var q := v / 0x100;
    assert v - v % 0x100 == 0x100 * q;
  }

  lemma SetEffect(env: Env, c: Cond, y: State)
    requires y.fl.Flags?
    ensures Effects(env, [SetCc(c, EAX), ZeroExtendLow(EAX)], y) == Some(SetReg(y, EAX, Bool(Holds(c, y.fl))))
  {
    LowByte(y.regs.eax, Holds(c, y.fl));
    Seq2(env, SetCc(c, EAX), ZeroExtendLow(EAX), y);
  }

  lemma BoolYields(env: Env, i: Insn, c: Cond, x: State, fl: Flags)
    requires fl.Flags? && Effect(env, i, x) == Some(x.(fl := fl))
    ensures Yields(env, [i, SetCc(c, EAX), ZeroExtendLow(EAX)], x, Amx.PRI, Bool(Holds(c, fl)))
  {
    var y := x.(fl := fl);
    SetEffect(env, c, y);
    SeqCons(env, i, [SetCc(c, EAX), ZeroExtendLow(EAX)], x);
    assert [i, SetCc(c, EAX), ZeroExtendLow(EAX)] == [i] + [SetCc(c, EAX), ZeroExtendLow(EAX)];
    assert y == Scratch(x, x.regs.edx, x.regs.esi, x.regs.edi, fl);
  }

  lemma NotYields(env: Env, x: State)
    ensures Yields(env, UnaryCode(Amx.NotU), x, Amx.PRI, Bool(x.regs.eax == 0))
  {
    var p := x.regs.eax;
    BitsSelf(p);
    assert Effect(env, Test(EAX, R(EAX)), x) == Some(x.(fl := TestFlags(p)));
    BoolYields(env, Test(EAX, R(EAX)), E, x, TestFlags(p));
    assert UnaryCode(Amx.NotU) == [Test(EAX, R(EAX)), SetCc(E, EAX), ZeroExtendLow(EAX)];
  }

  lemma UnaryYields(env: Env, u: Amx.Un, x: State)
    ensures Yields(env, UnaryCode(u), x, Amx.PRI, Amx.UnResult(u, x.regs.eax))
  {
    var p := x.regs.eax;
    WrapSums(p, p);
    match u
    case NotU => NotYields(env, x);
    case NegU =>
      assert UnaryCode(u) == [NegR(EAX)];
      One(env, NegR(EAX), x, Amx.PRI, Neg(p), SetReg(Undef(x), EAX, Neg(p)));
    case InvertU =>
      assert UnaryCode(u) == [NotR(EAX)];
      One(env, NotR(EAX), x, Amx.PRI, Not(p), SetReg(x, EAX, Not(p)));
  }

  lemma CompareYields(env: Env, r: Amx.Rel, x: State)
    ensures Yields(env, AccCode(Amx.Compare(r)), x, Amx.PRI, Bool(Amx.Related(r, x.regs.eax, x.regs.ecx)))
  {
    CondDecides(r, x.regs.eax, x.regs.ecx);
    BoolYields(env, Cmp(EAX, R(ECX)), CondOf(r), x, CmpFlags(x.regs.eax, x.regs.ecx, M));
    assert AccCode(Amx.Compare(r)) == [Cmp(EAX, R(ECX)), SetCc(CondOf(r), EAX), ZeroExtendLow(EAX)];
  }

  lemma EqCYields(env: Env, r: Amx.Acc, v: Word, x: State)
    ensures Yields(env, AccCode(Amx.EqC(r, v)), x, Amx.PRI, Bool(Get(x.regs, RegOf(r)) == v))
  {
    BoolYields(env, Cmp(RegOf(r), I(v)), E, x, CmpFlags(Get(x.regs, RegOf(r)), v, M));
    assert AccCode(Amx.EqC(r, v)) == [Cmp(RegOf(r), I(v)), SetCc(E, EAX), ZeroExtendLow(EAX)];
  }

  lemma ShiftYields(env: Env, k: Amx.ShiftKind, r: Amx.Acc, src: Opd, c: Word, count: Word, x: State)
    requires src.R? || src.I?
    requires Read(env, x, src) == Some(c) && c % 32 == count && count < 32
    ensures Yields(env, [Shift(ShiftOf(k), RegOf(r), src)], x, r, Amx.Shifted(k, Get(x.regs, RegOf(r)), count).value)
  {
    var v := ShiftResult(ShiftOf(k), Get(x.regs, RegOf(r)), c);
    One(env, Shift(ShiftOf(k), RegOf(r), src), x, r, v, SetReg(Undef(x), RegOf(r), v));
  }

  lemma XorSelfYields(env: Env, r: Amx.Acc, x: State)
    ensures Yields(env, [Alu(XorOp, R(RegOf(r)), R(RegOf(r)))], x, r, 0)
  {
    BitsSelf(Get(x.regs, RegOf(r)));
    One(env, Alu(XorOp, R(RegOf(r)), R(RegOf(r))), x, r, 0, SetReg(Undef(x), RegOf(r), 0));
  }

  lemma AddConstYields(env: Env, v: Word, x: State)
    ensures Yields(env, [AddConst(R(EAX), v)], x, Amx.PRI, Wrap(x.regs.eax + Int(v)))
  {
    WrapConst(x.regs.eax, v);
    var w := Wrap(x.regs.eax + Int(v));
    One(env, AddConst(R(EAX), v), x, Amx.PRI, w, SetReg(Undef(x), EAX, w));
  }

  lemma ExchangeEffect(env: Env, x: State)
    ensures Effects(env, [Xchg(R(EAX), ECX)], x) == Some(x.(regs := x.regs.(eax := x.regs.ecx, ecx := x.regs.eax)))
  {
    Seq1(env, Xchg(R(EAX), ECX), x);
  }

  // ---- divisions -------------------------------------------------------------

  /** Both accumulators and scratch registers replaced. */
  function Both(x: State, pri: Word, alt: Word, edx: Word, esi: Word, fl: Flags): State {
    x.(regs := x.regs.(eax := pri, ecx := alt, edx := edx, esi := esi), fl := fl)
  }

  lemma CoreBoth(env: Env, cfg: Amx.Cfg, a: Amx.State, x: State, pri: Word, alt: Word, edx: Word, esi: Word, fl: Flags)
    requires Core(env, cfg, a, x)
    ensures var y := Both(x, pri, alt, edx, esi, fl);
            Core(env, cfg, a.(pri := pri, alt := alt), y) && Frame(x, y)
  {
  }

  lemma WrapInt(x: int)
    requires InRange(x)
    ensures Wrap(x) == Cell(x)
  {
  }

  lemma DivideState(env: Env, x: State)
    requires Amx.DivOk(Int(x.regs.eax), Int(x.regs.ecx))
    ensures var n, d := Int(x.regs.eax), Int(x.regs.ecx);
            exists edx: Word, esi: Word ::
              Effects(env, DIVIDE, x)
              == Some(Both(x, Wrap(Amx.Quotient(n, d)), Wrap(Amx.Modulo(n, d)), edx, esi, NoFlags))
  {
    var n, d := Int(x.regs.eax), Int(x.regs.ecx);
    SDivExact(env, x);
    DivideEffects(env, x);
    var t := Effects(env, DIVIDE, x).value;
    WrapInt(Int(t.regs.eax));
    WrapInt(Int(t.regs.ecx));
    assert t == Both(x, t.regs.eax, t.regs.ecx, t.regs.edx, t.regs.esi, NoFlags);
  }

  lemma SimDivide(env: Env, cfg: Amx.Cfg, a: Amx.State, x: State, b: Amx.State)
    requires Consistent(env, cfg) && Core(env, cfg, a, x)
    requires Amx.SDivide(a, a.pri, a.alt) == Some(b)
    ensures Simulates(env, cfg, DIVIDE, x, b)
  {
    var n, d := Int(a.pri), Int(a.alt);
    DivideState(env, x);
    var edx: Word, esi: Word :| Effects(env, DIVIDE, x)
              == Some(Both(x, Wrap(Amx.Quotient(n, d)), Wrap(Amx.Modulo(n, d)), edx, esi, NoFlags));
    CoreBoth(env, cfg, a, x, Wrap(Amx.Quotient(n, d)), Wrap(Amx.Modulo(n, d)), edx, esi, NoFlags);
  }

  lemma UDivideEffect(env: Env, x: State)
    requires x.regs.ecx != 0
    ensures Effects(env, UDIVIDE, x)
         == Some(Both(x, Wrap(x.regs.eax / x.regs.ecx), Wrap(x.regs.eax % x.regs.ecx), x.regs.eax % x.regs.ecx, x.regs.esi, NoFlags))
  {
    var n, d := x.regs.eax, x.regs.ecx;
    BitsSelf(x.regs.edx);
    QuotientFits(n, d);
    Seq3(env, Alu(XorOp, R(EDX), R(EDX)), Div(ECX), Mov(R(ECX), R(EDX)), x);
    var y := SetReg(Undef(x), EDX, 0);
    assert Effect(env, Alu(XorOp, R(EDX), R(EDX)), x) == Some(y);
    assert y.regs.edx * M + y.regs.eax == n;
    var z := Undef(y).(regs := y.regs.(eax := n / d, edx := n % d));
    assert Effect(env, Div(ECX), y) == Some(z);
  }

  lemma QuotientFits(n: Word, d: Word)
    requires d != 0
    ensures 0 <= n / d <= n && 0 <= n % d < d
    ensures Wrap(n / d) == n / d && Wrap(n % d) == n % d
  {
    MulBounds(d, n / d);
    DivBound(n, d);
  }

  lemma SimUDivide(env: Env, cfg: Amx.Cfg, a: Amx.State, x: State, b: Amx.State)
    requires Consistent(env, cfg) && Core(env, cfg, a, x)
    requires Amx.UDivide(a, a.pri, a.alt) == Some(b)
    ensures Simulates(env, cfg, UDIVIDE, x, b)
  {
    UDivideEffect(env, x);
    CoreBoth(env, cfg, a, x, b.pri, b.alt, x.regs.eax % x.regs.ecx, x.regs.esi, NoFlags);
  }

  /** An exchange in front of a sequence. */
  lemma Exchanged(env: Env, cfg: Amx.Cfg, code: seq<Insn>, a: Amx.State, x: State, b: Amx.State)
    requires Core(env, cfg, a, x)
    requires var y := x.(regs := x.regs.(eax := x.regs.ecx, ecx := x.regs.eax));
             Core(env, cfg, a.(pri := a.alt, alt := a.pri), y) ==> Simulates(env, cfg, code, y, b)
    ensures Simulates(env, cfg, [Xchg(R(EAX), ECX)] + code, x, b)
  {
    var y := x.(regs := x.regs.(eax := x.regs.ecx, ecx := x.regs.eax));
    ExchangeEffect(env, x);
    CoreBoth(env, cfg, a, x, a.alt, a.pri, x.regs.edx, x.regs.esi, x.fl);
    assert y == Both(x, a.alt, a.pri, x.regs.edx, x.regs.esi, x.fl);
    SeqAppend(env, [Xchg(R(EAX), ECX)], code, x);
  }

  // ---- every operation --------------------------------------------------------

  lemma SimDivisions(env: Env, cfg: Amx.Cfg, op: Amx.AccOp, a: Amx.State, x: State, b: Amx.State)
    requires Consistent(env, cfg) && Core(env, cfg, a, x)
    requires op.SDiv? || op.SDivAlt? || op.UDiv? || op.UDivAlt?
    requires Amx.ApplyAcc(op, a) == Some(b)
    ensures Simulates(env, cfg, AccCode(op), x, b)
  {
    var swapped := a.(pri := a.alt, alt := a.pri);
    var y := x.(regs := x.regs.(eax := x.regs.ecx, ecx := x.regs.eax));
    match op
    case SDiv => SimDivide(env, cfg, a, x, b);
    case UDiv => SimUDivide(env, cfg, a, x, b);
    case SDivAlt =>
      if Core(env, cfg, swapped, y) { SimDivide(env, cfg, swapped, y, b); }
      Exchanged(env, cfg, DIVIDE, a, x, b);
    case UDivAlt =>
      if Core(env, cfg, swapped, y) { SimUDivide(env, cfg, swapped, y, b); }
      Exchanged(env, cfg, UDIVIDE, a, x, b);
  }

  lemma SimExchange(env: Env, cfg: Amx.Cfg, a: Amx.State, x: State)
    requires Core(env, cfg, a, x)
    ensures Simulates(env, cfg, [Xchg(R(EAX), ECX)], x, a.(pri := a.alt, alt := a.pri))
  {
    ExchangeEffect(env, x);
    CoreBoth(env, cfg, a, x, a.alt, a.pri, x.regs.edx, x.regs.esi, x.fl);
  }

  lemma SimAlign(env: Env, cfg: Amx.Cfg, r: Amx.Acc, n: Word, a: Amx.State, x: State, b: Amx.State)
    requires Core(env, cfg, a, x) && Amx.ApplyAcc(Amx.Align(r, n), a) == Some(b)
    ensures Simulates(env, cfg, AccCode(Amx.Align(r, n)), x, b)
  {
    if n < 4 {
      var v := Xor(Amx.GetAcc(a, r), 4 - n);
      One(env, Alu(XorOp, R(RegOf(r)), I(4 - n)), x, r, v, SetReg(Undef(x), RegOf(r), v));
      Yielded(env, cfg, [Alu(XorOp, R(RegOf(r)), I(4 - n))], r, v, a, x);
    } else {
      assert AccCode(Amx.Align(r, n)) == [];
      assert Effects(env, [], x) == Some(x);
    }
  }

  lemma SimMultiply(env: Env, cfg: Amx.Cfg, signed: bool, a: Amx.State, x: State)
    requires Core(env, cfg, a, x)
    ensures Simulates(env, cfg, [if signed then IMul1(ECX) else Mul1(ECX)], x,
                      a.(pri := Wrap(if signed then Int(a.pri) * Int(a.alt) else a.pri * a.alt)))
  {
    var p := if signed then Int(a.pri) * Int(a.alt) else a.pri * a.alt;
    var i := if signed then IMul1(ECX) else Mul1(ECX);
    var y := Wide(p, x);
    One(env, i, x, Amx.PRI, Wrap(p), y);
    Yielded(env, cfg, [i], Amx.PRI, Wrap(p), a, x);
  }

  lemma MoveYields(env: Env, r: Amx.Acc, x: State)
    ensures Yields(env, AccCode(Amx.Move(r)), x, r, if r.PRI? then x.regs.ecx else x.regs.eax)
  {
    var v := if r.PRI? then x.regs.ecx else x.regs.eax;
    var i := if r.PRI? then Mov(R(EAX), R(ECX)) else Mov(R(ECX), R(EAX));
    assert AccCode(Amx.Move(r)) == [i];
    One(env, i, x, r, v, SetReg(x, RegOf(r), v));
  }

  lemma SMulCYields(env: Env, c: Word, x: State)
    ensures Yields(env, AccCode(Amx.SMulC(c)), x, Amx.PRI, Wrap(Int(x.regs.eax) * Int(c)))
  {
    var v := Wrap(Int(x.regs.eax) * Int(c));
    assert AccCode(Amx.SMulC(c)) == [IMul2(EAX, I(c))];
    One(env, IMul2(EAX, I(c)), x, Amx.PRI, v, SetReg(Undef(x), EAX, v));
  }

  lemma SignYields(env: Env, r: Amx.Acc, x: State)
    ensures Yields(env, AccCode(Amx.Sign(r)), x, r, Amx.SignExtend(Get(x.regs, RegOf(r))))
  {
    var v := Amx.SignExtend(Get(x.regs, RegOf(r)));
    assert AccCode(Amx.Sign(r)) == [SignExtendLow(RegOf(r))];
    One(env, SignExtendLow(RegOf(r)), x, r, v, SetReg(x, RegOf(r), v));
  }

  lemma StepYields(env: Env, r: Amx.Acc, up: bool, x: State)
    ensures var p := Get(x.regs, RegOf(r));
            Yields(env, [if up then Inc(R(RegOf(r))) else Dec(R(RegOf(r)))], x, r, if up then Wrap(p + 1) else Wrap(p - 1))
  {
    var p := Get(x.regs, RegOf(r));
    WrapSums(p, 1);
    var v := if up then Add(p, 1) else Sub(p, 1);
    One(env, if up then Inc(R(RegOf(r))) else Dec(R(RegOf(r))), x, r, v, SetReg(Undef(x), RegOf(r), v));
  }

  lemma SimMoves(env: Env, cfg: Amx.Cfg, op: Amx.AccOp, a: Amx.State, x: State, b: Amx.State)
    requires Core(env, cfg, a, x) && Amx.ApplyAcc(op, a) == Some(b)
    requires op.Move? || op.SMulC? || op.Sign? || op.Zero?
    ensures Simulates(env, cfg, AccCode(op), x, b)
  {
    match op
    case Move(r) =>
      MoveYields(env, r, x);
      Yielded(env, cfg, AccCode(op), r, if r.PRI? then a.alt else a.pri, a, x);
    case SMulC(c) =>
      SMulCYields(env, c, x);
      Yielded(env, cfg, AccCode(op), Amx.PRI, b.pri, a, x);
    case Sign(r) =>
      SignYields(env, r, x);
      Yielded(env, cfg, AccCode(op), r, Amx.SignExtend(Amx.GetAcc(a, r)), a, x);
    case Zero(r) =>
      assert AccCode(op) == [Alu(XorOp, R(RegOf(r)), R(RegOf(r)))];
      XorSelfYields(env, r, x);
      Yielded(env, cfg, AccCode(op), r, 0, a, x);
  }

  lemma SimSteps(env: Env, cfg: Amx.Cfg, r: Amx.Acc, up: bool, a: Amx.State, x: State)
    requires Core(env, cfg, a, x)
    ensures var p := Amx.GetAcc(a, r);
            Simulates(env, cfg, [if up then Inc(R(RegOf(r))) else Dec(R(RegOf(r)))], x,
                      Amx.SetAcc(a, r, if up then Wrap(p + 1) else Wrap(p - 1)))
  {
    StepYields(env, r, up, x);
    var p: int := Amx.GetAcc(a, r);
    Yielded(env, cfg, [if up then Inc(R(RegOf(r))) else Dec(R(RegOf(r)))], r, if up then Wrap(p + 1) else Wrap(p - 1), a, x);
  }

  lemma SimUnit(env: Env, cfg: Amx.Cfg, op: Amx.AccOp, a: Amx.State, x: State, b: Amx.State)
    requires Core(env, cfg, a, x) && Amx.ApplyAcc(op, a) == Some(b)
    requires op.IncAcc? || op.DecAcc?
    ensures Simulates(env, cfg, AccCode(op), x, b)
  {
    var up := op.IncAcc?;
    assert AccCode(op) == [if up then Inc(R(RegOf(op.acc))) else Dec(R(RegOf(op.acc)))];
    SimSteps(env, cfg, op.acc, up, a, x);
  }

  lemma SimShifts(env: Env, cfg: Amx.Cfg, op: Amx.AccOp, a: Amx.State, x: State, b: Amx.State)
    requires Core(env, cfg, a, x) && Amx.ApplyAcc(op, a) == Some(b)
    requires op.ShiftAlt? || op.ShiftC?
    ensures Simulates(env, cfg, AccCode(op), x, b)
  {
    if op.ShiftAlt? {
      assert AccCode(op) == [Shift(ShiftOf(op.kind), RegOf(Amx.PRI), R(ECX))];
      ShiftYields(env, op.kind, Amx.PRI, R(ECX), a.alt, a.alt, x);
      Yielded(env, cfg, AccCode(op), Amx.PRI, b.pri, a, x);
    } else {
      var v := Amx.Shifted(op.kind, Amx.GetAcc(a, op.acc), op.v).value;
      assert AccCode(op) == [Shift(ShiftOf(op.kind), RegOf(op.acc), I(op.v % 0x100))];
      ShiftYields(env, op.kind, op.acc, I(op.v % 0x100), op.v % 0x100, op.v, x);
      Yielded(env, cfg, AccCode(op), op.acc, v, a, x);
    }
  }

  lemma SimComputed(env: Env, cfg: Amx.Cfg, op: Amx.AccOp, a: Amx.State, x: State, b: Amx.State)
    requires Core(env, cfg, a, x) && Amx.ApplyAcc(op, a) == Some(b)
    requires op.Binary? || op.Unary? || op.AddC?
    ensures Simulates(env, cfg, AccCode(op), x, b)
  {
    match op {
      case Binary(bin) => BinaryYields(env, bin, x);
      case Unary(u) => UnaryYields(env, u, x);
      case AddC(v) =>
        assert AccCode(op) == [AddConst(R(EAX), v)];
        AddConstYields(env, v, x);
    }
    Yielded(env, cfg, AccCode(op), Amx.PRI, b.pri, a, x);
  }

  lemma SimCompare(env: Env, cfg: Amx.Cfg, op: Amx.AccOp, a: Amx.State, x: State, b: Amx.State)
    requires Core(env, cfg, a, x) && Amx.ApplyAcc(op, a) == Some(b)
    requires op.Compare? || op.EqC?
    ensures Simulates(env, cfg, AccCode(op), x, b)
  {
    if op.Compare? { CompareYields(env, op.rel, x); } else { EqCYields(env, op.acc, op.v, x); }
    Yielded(env, cfg, AccCode(op), Amx.PRI, b.pri, a, x);
  }

  lemma SimProducts(env: Env, cfg: Amx.Cfg, op: Amx.AccOp, a: Amx.State, x: State, b: Amx.State)
    requires Core(env, cfg, a, x) && Amx.ApplyAcc(op, a) == Some(b)
    requires op.SMul? || op.UMul?
    ensures Simulates(env, cfg, AccCode(op), x, b)
  {
    assert AccCode(op) == [if op.SMul? then IMul1(ECX) else Mul1(ECX)];
    SimMultiply(env, cfg, op.SMul?, a, x);
  }

  lemma AccSimulated(env: Env, cfg: Amx.Cfg, op: Amx.AccOp, a: Amx.State, x: State, b: Amx.State)
    requires Consistent(env, cfg) && Core(env, cfg, a, x)
    requires Amx.ApplyAcc(op, a) == Some(b)
    ensures Simulates(env, cfg, AccCode(op), x, b)
  {
    if op.Align? {
      SimAlign(env, cfg, op.acc, op.n, a, x, b);
    } else if op.Exchange? {
      assert AccCode(op) == [Xchg(R(EAX), ECX)];
      SimExchange(env, cfg, a, x);
    } else if op.SMul? || op.UMul? {
      SimProducts(env, cfg, op, a, x, b);
    } else if op.SDiv? || op.SDivAlt? || op.UDiv? || op.UDivAlt? {
      SimDivisions(env, cfg, op, a, x, b);
    } else if op.Move? || op.SMulC? || op.Sign? || op.Zero? {
      SimMoves(env, cfg, op, a, x, b);
    } else if op.IncAcc? || op.DecAcc? {
      SimUnit(env, cfg, op, a, x, b);
    } else if op.ShiftAlt? || op.ShiftC? {
      SimShifts(env, cfg, op, a, x, b);
    } else if op.Compare? || op.EqC? {
      SimCompare(env, cfg, op, a, x, b);
    } else {
      SimComputed(env, cfg, op, a, x, b);
    }
  }
}
