/** Indirect jumps: JumpHelper looks the target up in the instruction table through a C call
    made on the AMX stack, and either goes there or returns as if nothing had happened. */
module SimIndirect {
  import opened Word32
  import opened X86
  import Amx
  import opened Emit
  import opened Relation
  import opened Layout
  import opened SimControl
  import opened SimStack
  import opened SimCalls

  // ---- memory below STK ---------------------------------------------------------

  /** A dword at an offset of the data block. */
  predicate Slot(d: Data, o: int, v: Word) {
    Has4(d, o) && Load4(d, o) == v
  }

  /** e is d outside lo..hi-1. */
  ghost predicate Outside(d: Data, e: Data, lo: int, hi: int) {
    && (forall o :: o in d <==> o in e)
    && (forall o :: o in d && !(lo <= o < hi) ==> e[o] == d[o])
  }

  lemma SlotOutside(d: Data, e: Data, lo: int, hi: int, o: int, v: Word)
    requires Slot(d, o, v) && Outside(d, e, lo, hi) && (o + 4 <= lo || hi <= o)
    ensures Slot(e, o, v)
  {
  }

  lemma OutsideStore(d: Data, e: Data, lo: int, hi: int, o: int, v: Word)
    requires Outside(d, e, lo, hi) && Has4(d, o) && lo <= o && o + 4 <= hi
    ensures Outside(d, Store4(e, o, v), lo, hi)
  {
  }

  lemma SlotStored(e: Data, o: int, v: Word)
    ensures Slot(Store4(e, o, v), o, v)
  {
    JoinOfBytes(v);
  }

  /** The stack pointer at offset sp of a block that reaches down to lo. */
  ghost predicate StackAt(env: Env, x: State, lo: int, sp: int) {
    && 0 <= lo && 0 <= sp < M && x.regs.esp == Add(env.base, sp)
    && forall o :: lo <= o < sp ==> o in x.data
  }

  function PushedAt(env: Env, x: State, sp: int, v: Word): State
    requires 4 <= sp < M
  {
    x.(regs := x.regs.(esp := Add(env.base, sp - 4)), data := Store4(x.data, sp - 4, v))
  }

  lemma EffPushAt(env: Env, x: State, lo: int, sp: int, r: Reg)
    requires StackAt(env, x, lo, sp) && lo + 4 <= sp
    ensures Effect(env, Push(R(r)), x) == Some(PushedAt(env, x, sp, Get(x.regs, r)))
    ensures StackAt(env, PushedAt(env, x, sp, Get(x.regs, r)), lo, sp - 4)
  {
    var v := Get(x.regs, r);
    assert Sub(x.regs.esp, 4) == Add(env.base, sp - 4);
    assert Sub(Add(env.base, sp - 4), env.base) == sp - 4;
    assert PushWord(env, x, v) == Some(PushedAt(env, x, sp, v));
  }

  lemma EffPopAt(env: Env, x: State, sp: int, r: Reg, v: Word)
    requires 0 <= sp && sp + 4 < M && x.regs.esp == Add(env.base, sp) && Slot(x.data, sp, v)
    requires r == EAX || r == ECX || r == EDX || r == EBP
    ensures Effect(env, Pop(R(r)), x) == Some(SetReg(SetReg(x, ESP, Add(env.base, sp + 4)), r, v))
  {
    assert Sub(Add(env.base, sp), env.base) == sp;
    assert Add(Add(env.base, sp), 4) == Add(env.base, sp + 4);
    EffPop(env, r, x, v);
  }

  // ---- JumpLookup ------------------------------------------------------------------

  /** The first five instructions of JumpLookup: the registers saved, the arguments pushed. */
  lemma PushTwo(env: Env, x: State, lo: int, sp: int) returns (y: State)
    requires StackAt(env, x, lo, sp) && lo + 8 <= sp
    ensures Effects(env, [Push(R(ECX)), Push(R(EDX))], x) == Some(y)
    ensures y == PushedAt(env, PushedAt(env, x, sp, x.regs.ecx), sp - 4, x.regs.edx) && StackAt(env, y, lo, sp - 8)
  {
    hide Effects, Effect, Store4, Add;
    var y1 := PushedAt(env, x, sp, x.regs.ecx);
    EffPushAt(env, x, lo, sp, ECX);
    y := PushedAt(env, y1, sp - 4, x.regs.edx);
    EffPushAt(env, y1, lo, sp - 4, EDX);
    Seq2(env, Push(R(ECX)), Push(R(EDX)), x);
  }

  lemma PushArgs(env: Env, x: State, lo: int, sp: int) returns (y: State)
    requires StackAt(env, x, lo, sp) && lo + 8 <= sp
    ensures Effects(env, [Mov(R(ECX), RibStart), Push(R(ECX)), Push(R(EAX))], x) == Some(y)
    ensures y == PushedAt(env, PushedAt(env, SetReg(x, ECX, env.ribPtr), sp, env.ribPtr), sp - 4, x.regs.eax)
  {
    var y0 := SetReg(x, ECX, env.ribPtr);
    assert StackAt(env, y0, lo, sp);
    var y1 := PushedAt(env, y0, sp, env.ribPtr);
    EffPushAt(env, y0, lo, sp, ECX);
    y := PushedAt(env, y1, sp - 4, x.regs.eax);
    EffPushAt(env, y1, lo, sp - 4, EAX);
    assert Effect(env, Mov(R(ECX), RibStart), x) == Some(y0);
    Seq3(env, Mov(R(ECX), RibStart), Push(R(ECX)), Push(R(EAX)), x);
  }

  lemma ArgsState(env: Env, x: State, sp: int)
    requires 16 <= sp < M
    ensures var u := PushedAt(env, PushedAt(env, x, sp, x.regs.ecx), sp - 4, x.regs.edx);
            PushedAt(env, PushedAt(env, SetReg(u, ECX, env.ribPtr), sp - 8, env.ribPtr), sp - 12, x.regs.eax)
            == x.(regs := x.regs.(ecx := env.ribPtr, esp := Add(env.base, sp - 16)),
                  data := Store4(Store4(Store4(Store4(x.data, sp - 4, x.regs.ecx), sp - 8, x.regs.edx), sp - 12, env.ribPtr), sp - 16, x.regs.eax))
  {
    hide Store4;
  }

  lemma LookupPushes(env: Env, x: State, lo: int, sp: int) returns (y: State)
    requires StackAt(env, x, lo, sp) && lo + 16 <= sp
    ensures Effects(env, [Push(R(ECX)), Push(R(EDX))] + [Mov(R(ECX), RibStart), Push(R(ECX)), Push(R(EAX))], x) == Some(y)
    ensures var u := PushedAt(env, PushedAt(env, x, sp, x.regs.ecx), sp - 4, x.regs.edx);
            y == PushedAt(env, PushedAt(env, SetReg(u, ECX, env.ribPtr), sp - 8, env.ribPtr), sp - 12, x.regs.eax)
  {
    hide Effects, Effect, Store4, Add;
    var u := PushTwo(env, x, lo, sp);
    y := PushArgs(env, u, lo, sp - 8);
    SeqJoin(env, [Push(R(ECX)), Push(R(EDX))], [Mov(R(ECX), RibStart), Push(R(ECX)), Push(R(EAX))], x, u, y);
  }

  lemma LookupArgs(env: Env, x: State, lo: int, sp: int) returns (y: State)
    requires StackAt(env, x, lo, sp) && lo + 16 <= sp
    ensures Effects(env, [Push(R(ECX)), Push(R(EDX))] + [Mov(R(ECX), RibStart), Push(R(ECX)), Push(R(EAX))], x) == Some(y)
    ensures y == x.(regs := x.regs.(ecx := env.ribPtr, esp := Add(env.base, sp - 16)), data := y.data)
    ensures Slot(y.data, sp - 4, x.regs.ecx) && Slot(y.data, sp - 8, x.regs.edx) && Slot(y.data, sp - 12, env.ribPtr) && Slot(y.data, sp - 16, x.regs.eax)
    ensures Outside(x.data, y.data, sp - 16, sp)
  {
    y := LookupPushes(env, x, lo, sp);
    ArgsState(env, x, sp);
    ArgSlots(x.data, sp, x.regs.ecx, x.regs.edx, env.ribPtr, x.regs.eax);
  }

  lemma SlotKept(d: Data, o: int, v: Word, at: int, w: Word)
    requires Slot(d, o, v) && (o + 4 <= at || at + 4 <= o)
    ensures Slot(Store4(d, at, w), o, v)
  {
  }

  lemma OutsideSelf(d: Data, lo: int, hi: int)
    ensures Outside(d, d, lo, hi)
  {
  }

  lemma ArgSlots(d: Data, sp: int, a: Word, b: Word, c: Word, e: Word)
    requires forall o :: sp - 16 <= o < sp ==> o in d
    ensures var f := Store4(Store4(Store4(Store4(d, sp - 4, a), sp - 8, b), sp - 12, c), sp - 16, e);
            Slot(f, sp - 4, a) && Slot(f, sp - 8, b) && Slot(f, sp - 12, c) && Slot(f, sp - 16, e) && Outside(d, f, sp - 16, sp)
  {
    var d1 := Store4(d, sp - 4, a);
    var d2 := Store4(d1, sp - 8, b);
    var d3 := Store4(d2, sp - 12, c);
    SlotStored(d, sp - 4, a);
    SlotKept(d1, sp - 4, a, sp - 8, b);
    SlotKept(d2, sp - 4, a, sp - 12, c);
    SlotKept(d3, sp - 4, a, sp - 16, e);
    SlotStored(d1, sp - 8, b);
    SlotKept(d2, sp - 8, b, sp - 12, c);
    SlotKept(d3, sp - 8, b, sp - 16, e);
    SlotStored(d2, sp - 12, c);
    SlotKept(d3, sp - 12, c, sp - 16, e);
    SlotStored(d3, sp - 16, e);
    OutsideSelf(d, sp - 16, sp);
    OutsideStore(d, d, sp - 16, sp, sp - 4, a);
    OutsideStore(d, d1, sp - 16, sp, sp - 8, b);
    OutsideStore(d, d2, sp - 16, sp, sp - 12, c);
    OutsideStore(d, d3, sp - 16, sp, sp - 16, e);
  }

  /** The C call: the result in eax, the saved registers still on the stack. */
  lemma LookupCall(env: Env, y: State, sp: int, a: Word) returns (z: State)
    requires 16 <= sp < M && y.regs.esp == Add(env.base, sp - 16) && Slot(y.data, sp - 16, a) && Slot(y.data, sp - 12, env.ribPtr)
    ensures Effects(env, [CallGetJITInstrPtr, Alu(AddOp, R(ESP), I(8))], y) == Some(z)
    ensures z == y.(regs := y.regs.(eax := Lookup(env.table, a), ecx := env.junk(y).ecx, edx := env.junk(y).edx, esp := Add(env.base, sp - 8)),
                    fl := NoFlags, data := Scribble(env, env.junk(y), y.data, sp - 8))
  {
    hide Load4, Store4, Scribble, Lookup;
    assert Sub(Add(env.base, sp - 16), env.base) == sp - 16;
    assert Add(Add(env.base, sp - 16), 8) == Add(env.base, sp - 8);
    assert Sub(Add(Add(env.base, sp - 16), 4), env.base) == sp - 12;
    Seq2(env, CallGetJITInstrPtr, Alu(AddOp, R(ESP), I(8)), y);
    z := y.(regs := y.regs.(eax := Lookup(env.table, a), ecx := env.junk(y).ecx, edx := env.junk(y).edx, esp := Add(env.base, sp - 8)),
            fl := NoFlags, data := Scribble(env, env.junk(y), y.data, sp - 8));
  }

  lemma LookupRestore(env: Env, z: State, sp: int, c: Word, e: Word)
    requires 16 <= sp && sp + 4 < M && z.regs.esp == Add(env.base, sp - 8) && Slot(z.data, sp - 8, e) && Slot(z.data, sp - 4, c)
    ensures Effects(env, [Pop(R(EDX)), Pop(R(ECX))], z) == Some(z.(regs := z.regs.(ecx := c, edx := e, esp := Add(env.base, sp))))
  {
    Seq2(env, Pop(R(EDX)), Pop(R(ECX)), z);
    EffPopAt(env, z, sp - 8, EDX, e);
    EffPopAt(env, SetReg(SetReg(z, ESP, Add(env.base, sp - 4)), EDX, e), sp - 4, ECX, c);
  }

  const LOOKUP_BODY: seq<Insn> :=
    ([Push(R(ECX)), Push(R(EDX))] + [Mov(R(ECX), RibStart), Push(R(ECX)), Push(R(EAX))])
    + ([CallGetJITInstrPtr, Alu(AddOp, R(ESP), I(8))] + [Pop(R(EDX)), Pop(R(ECX))])

  /** All of JumpLookup but the return: only eax, the flags and bytes below the stack pointer
      change. */
  lemma LookupBody(env: Env, x: State, sp: int) returns (z: State)
    requires 16 + env.frame <= sp && sp + 4 < M && StackAt(env, x, sp - 16 - env.frame, sp)
    ensures Effects(env, LOOKUP_BODY, x) == Some(z)
    ensures z == x.(regs := x.regs.(eax := Lookup(env.table, x.regs.eax)), fl := NoFlags, data := z.data)
    ensures Outside(x.data, z.data, sp - 16 - env.frame, sp)
  {
    var c1, c2, c3 := [Push(R(ECX)), Push(R(EDX))] + [Mov(R(ECX), RibStart), Push(R(ECX)), Push(R(EAX))],
                      [CallGetJITInstrPtr, Alu(AddOp, R(ESP), I(8))], [Pop(R(EDX)), Pop(R(ECX))];
    var y := LookupArgs(env, x, sp - 16 - env.frame, sp);
    var u := LookupCall(env, y, sp, x.regs.eax);
    SeqAppend(env, c1, c2 + c3, x);
    SeqAppend(env, c2, c3, y);
    ScribbleSlots(env, env.junk(y), x.data, y.data, sp, x.regs.ecx, x.regs.edx);
    LookupRestore(env, u, sp, x.regs.ecx, x.regs.edx);
    z := u.(regs := u.regs.(ecx := x.regs.ecx, edx := x.regs.edx, esp := Add(env.base, sp)));
  }

  lemma ScribbleSlots(env: Env, j: Junk, d: Data, e: Data, sp: int, a: Word, b: Word)
    requires Outside(d, e, sp - 16, sp) && Slot(e, sp - 4, a) && Slot(e, sp - 8, b)
    ensures var f := Scribble(env, j, e, sp - 8);
            Slot(f, sp - 4, a) && Slot(f, sp - 8, b) && Outside(d, f, sp - 16 - env.frame, sp)
  {
  }

  lemma LookupSplit(env: Env, at: int)
    requires CodeAt(env, at, JUMP_LOOKUP)
    ensures CodeAt(env, at, LOOKUP_BODY) && 0 <= at + 9 < |env.code| && env.code[at + 9] == Ret
  {
    assert JUMP_LOOKUP == LOOKUP_BODY + [Ret];
    CodeFrom(env, at, JUMP_LOOKUP, 9);
    assert JUMP_LOOKUP[..9] == LOOKUP_BODY;
  }

  /** JumpLookup called with return address addrs[r] at the top of the stack. */
  lemma LookupRuns(env: Env, x: State, sp: int, r: int) returns (z: State)
    requires Addressed(env) && HelpersPlaced(env) && 0 <= r < |env.addrs|
    requires 16 + env.frame <= sp && sp + 8 < M && StackAt(env, x, sp - 16 - env.frame, sp) && Slot(x.data, sp, env.addrs[r])
    ensures Reaches(env, Conf(x, env.helpers[JumpLookup]), Conf(z, r))
    ensures z == x.(regs := x.regs.(eax := Lookup(env.table, x.regs.eax), esp := Add(env.base, sp + 4)), fl := NoFlags, data := z.data)
    ensures Outside(x.data, z.data, sp - 16 - env.frame, sp)
  {
    hide Effects, Effect, Step, Run, Reaches, IndexOf, Load4, Store4;
    var at := env.helpers[JumpLookup];
    LookupSplit(env, at);
    var y := LookupBody(env, x, sp);
    Straight(env, LOOKUP_BODY, x, at, y);
    SlotOutside(x.data, y.data, sp - 16 - env.frame, sp, sp, env.addrs[r]);
    assert Sub(Add(env.base, sp), env.base) == sp;
    assert Add(Add(env.base, sp), 4) == Add(env.base, sp + 4);
    IndexOfIs(env.addrs, r);
    RetStep(env, y, at + 9, env.addrs[r], r);
    z := SetReg(y, ESP, Add(env.base, sp + 4));
    ReachesTrans(env, Conf(x, at), Conf(y, at + 9), Conf(z, r));
  }

  // ---- JumpHelper -------------------------------------------------------------------

  ghost predicate HelperPlacedAt(env: Env, at: int) {
    && 0 <= at && at + 9 <= |env.code|
    && env.code[at] == Push(R(EAX)) && env.code[at + 1] == Call(ToHelper(JumpLookup))
    && CodeAt(env, at + 2, [Mov(R(EDX), R(EAX)), Pop(R(EAX))])
    && CodeAt(env, at + 4, [Test(EDX, R(EDX)), Jcc(E, Skip(2))])
    && env.code[at + 6] == Lea(ESP, At(ESP, 4)) && env.code[at + 7] == JmpReg(EDX) && env.code[at + 8] == Ret
  }

  lemma HelperSplit(env: Env, at: int)
    requires CodeAt(env, at, JUMP_HELPER)
    ensures HelperPlacedAt(env, at)
  {
    var a, b, c, d := [Push(R(EAX)), Call(ToHelper(JumpLookup))], [Mov(R(EDX), R(EAX)), Pop(R(EAX))],
                      [Test(EDX, R(EDX)), Jcc(E, Skip(2))], [Lea(ESP, At(ESP, 4)), JmpReg(EDX), Ret];
    HelperSplitInto(env, at, a, b, c, d);
  }

  lemma HelperSplitInto(env: Env, at: int, a: seq<Insn>, b: seq<Insn>, c: seq<Insn>, d: seq<Insn>)
    requires CodeAt(env, at, a + (b + (c + d))) && |a| == 2 && |b| == 2 && |c| == 2 && |d| == 3
    ensures 0 <= at && at + 9 <= |env.code| && CodeAt(env, at + 2, b) && CodeAt(env, at + 4, c)
    ensures env.code[at] == a[0] && env.code[at + 1] == a[1]
    ensures env.code[at + 6] == d[0] && env.code[at + 7] == d[1] && env.code[at + 8] == d[2]
  {
    CodeParts(env, at, a, b + (c + d));
    CodeParts(env, at + 2, b, c + d);
    CodeParts(env, at + 4, c, d);
    CodeItem(env, at, a, 0);
    CodeItem(env, at, a, 1);
    CodeItem(env, at + 6, d, 0);
    CodeItem(env, at + 6, d, 1);
    CodeItem(env, at + 6, d, 2);
  }

  /** From the entry of JumpHelper to its test: the looked-up address in edx, eax as before,
      the return address on top of the stack. */
  lemma HelperThere(env: Env)
    requires HelpersPlaced(env)
    ensures JumpHelper in env.helpers && HelperPlacedAt(env, env.helpers[JumpHelper])
  {
    hide CodeAt;
    HelperSplit(env, env.helpers[JumpHelper]);
  }

  lemma HelperHead(env: Env, x: State, sp: int, r: int) returns (z: State)
    requires Addressed(env) && HelpersPlaced(env) && 0 <= r < |env.addrs|
    requires 24 + env.frame <= sp && sp + 8 < M && StackAt(env, x, sp - 24 - env.frame, sp) && Slot(x.data, sp, env.addrs[r])
    ensures Reaches(env, Conf(x, env.helpers[JumpHelper]), Conf(z, env.helpers[JumpHelper] + 4))
    ensures z == x.(regs := x.regs.(edx := Lookup(env.table, x.regs.eax)), fl := NoFlags, data := z.data)
    ensures Outside(x.data, z.data, sp - 24 - env.frame, sp) && Slot(z.data, sp, env.addrs[r])
  {
    hide Effects, Effect, Step, Run, Reaches, Lookup, Outside, CodeAt, HelpersPlaced, Addressed;
    assert JumpHelper in env.helpers && HelperPlacedAt(env, env.helpers[JumpHelper]) by { HelperThere(env); }
    var at := env.helpers[JumpHelper];
    var y := HelperLookup(env, x, sp, at, env.addrs[r]);
    z := HelperPop(env, y, sp - 4, x.regs.eax);
    Straight(env, [Mov(R(EDX), R(EAX)), Pop(R(EAX))], y, at + 2, z);
    ReachesTrans(env, Conf(x, at), Conf(y, at + 2), Conf(z, at + 4));
  }

  /** push eax; call JumpLookup, back behind the call. */
  lemma HelperCalls(env: Env, x: State, sp: int, at: int, q: Word) returns (y: State)
    requires Addressed(env) && HelpersPlaced(env)
    requires 0 <= at && at + 2 < |env.code| && env.code[at] == Push(R(EAX)) && env.code[at + 1] == Call(ToHelper(JumpLookup))
    requires 24 + env.frame <= sp && sp + 8 < M && StackAt(env, x, sp - 24 - env.frame, sp) && Slot(x.data, sp, q)
    ensures Reaches(env, Conf(x, at), Conf(y, env.helpers[JumpLookup]))
    ensures y == x.(regs := x.regs.(esp := Add(env.base, sp - 8)), data := y.data) && StackAt(env, y, sp - 24 - env.frame, sp - 8)
    ensures Outside(x.data, y.data, sp - 8, sp)
    ensures Slot(y.data, sp - 8, env.addrs[at + 2]) && Slot(y.data, sp - 4, x.regs.eax) && Slot(y.data, sp, q)
  {
    hide Effects, Effect, Step, Run, Reaches;
    var lo := sp - 24 - env.frame;
    var p := env.addrs[at + 2];
    var y1 := PushedAt(env, x, sp, x.regs.eax);
    EffPushAt(env, x, lo, sp, EAX);
    PlainStep(env, Push(R(EAX)), x, at, y1);
    y := PushedAt(env, y1, sp - 4, p);
    CallAt(env, y1, lo, sp - 4, at + 1, ToHelper(JumpLookup), env.helpers[JumpLookup]);
    ReachesTrans(env, Conf(x, at), Conf(y1, at + 1), Conf(y, env.helpers[JumpLookup]));
    HeadSlots(x.data, sp, x.regs.eax, p, q);
  }

  lemma HelperLookup(env: Env, x: State, sp: int, at: int, q: Word) returns (y: State)
    requires Addressed(env) && HelpersPlaced(env)
    requires 0 <= at && at + 2 < |env.code| && env.code[at] == Push(R(EAX)) && env.code[at + 1] == Call(ToHelper(JumpLookup))
    requires 24 + env.frame <= sp && sp + 8 < M && StackAt(env, x, sp - 24 - env.frame, sp) && Slot(x.data, sp, q)
    ensures Reaches(env, Conf(x, at), Conf(y, at + 2))
    ensures y == x.(regs := x.regs.(eax := Lookup(env.table, x.regs.eax), esp := Add(env.base, sp - 4)), fl := NoFlags, data := y.data)
    ensures Outside(x.data, y.data, sp - 24 - env.frame, sp) && Slot(y.data, sp, q) && Slot(y.data, sp - 4, x.regs.eax)
  {
    var u := HelperCalls(env, x, sp, at, q);
    y := LookupRuns(env, u, sp - 8, at + 2);
    HeadKept(x.data, u.data, y.data, sp - 24 - env.frame, sp, x.regs.eax, q);
    ReachesTrans(env, Conf(x, at), Conf(u, env.helpers[JumpLookup]), Conf(y, at + 2));
  }

  lemma HeadKept(d: Data, e: Data, f: Data, lo: int, sp: int, a: Word, q: Word)
    requires Outside(d, e, sp - 8, sp) && Outside(e, f, lo, sp - 8) && lo <= sp - 8
    requires Slot(e, sp - 4, a) && Slot(e, sp, q)
    ensures Outside(d, f, lo, sp) && Slot(f, sp - 4, a) && Slot(f, sp, q)
  {
    OutsideTwice(d, e, f, lo, sp);
    SlotOutside(e, f, lo, sp - 8, sp - 4, a);
    SlotOutside(e, f, lo, sp - 8, sp, q);
  }

  lemma OutsideTwice(d: Data, e: Data, f: Data, lo: int, sp: int)
    requires Outside(d, e, sp - 8, sp) && Outside(e, f, lo, sp - 8) && lo <= sp - 8
    ensures Outside(d, f, lo, sp)
  {
  }

  lemma HeadSlots(d: Data, sp: int, a: Word, p: Word, q: Word)
    requires forall o :: sp - 8 <= o < sp ==> o in d
    requires Slot(d, sp, q)
    ensures var f := Store4(Store4(d, sp - 4, a), sp - 8, p);
            Slot(f, sp - 4, a) && Slot(f, sp - 8, p) && Slot(f, sp, q) && Outside(d, f, sp - 8, sp)
  {
    JoinOfBytes(a);
    JoinOfBytes(p);
  }

  lemma CallAt(env: Env, x: State, lo: int, sp: int, at: int, t: Target, k: int)
    requires StackAt(env, x, lo, sp) && lo + 4 <= sp
    requires 0 <= at < |env.code| && env.code[at] == Call(t) && Resolve(env, at, t) == Some(k)
    requires |env.addrs| == |env.code| + 1
    ensures Reaches(env, Conf(x, at), Conf(PushedAt(env, x, sp, env.addrs[at + 1]), k))
    ensures StackAt(env, PushedAt(env, x, sp, env.addrs[at + 1]), lo, sp - 4)
  {
    var p := env.addrs[at + 1];
    assert Sub(x.regs.esp, 4) == Add(env.base, sp - 4);
    assert Sub(Add(env.base, sp - 4), env.base) == sp - 4;
    assert PushWord(env, x, p) == Some(PushedAt(env, x, sp, p));
    assert Step(env, Conf(x, at)) == DoCall(env, Conf(x, at), k);
    ReachesStep(env, Conf(x, at), Conf(PushedAt(env, x, sp, p), k));
  }

  lemma HelperPop(env: Env, y: State, sp: int, v: Word) returns (z: State)
    requires 0 <= sp && sp + 4 < M && y.regs.esp == Add(env.base, sp) && Slot(y.data, sp, v)
    ensures Effects(env, [Mov(R(EDX), R(EAX)), Pop(R(EAX))], y) == Some(z)
    ensures z == y.(regs := y.regs.(edx := y.regs.eax, eax := v, esp := Add(env.base, sp + 4)))
  {
    Seq2(env, Mov(R(EDX), R(EAX)), Pop(R(EAX)), y);
    var u := SetReg(y, EDX, y.regs.eax);
    assert Effect(env, Mov(R(EDX), R(EAX)), y) == Some(u);
    EffPopAt(env, u, sp, EAX, v);
    z := SetReg(SetReg(u, ESP, Add(env.base, sp + 4)), EAX, v);
  }

  /** The end of JumpHelper: to the address in edx with the return address dropped, or back
      to the caller when edx is zero. */
  lemma HelperTail(env: Env, z: State, sp: int, r: int, k: int) returns (w: State)
    requires JumpHelper in env.helpers && HelperPlacedAt(env, env.helpers[JumpHelper])
    requires Addressed(env) && 0 <= r < |env.addrs|
    requires 0 <= sp && sp + 8 < M && z.regs.esp == Add(env.base, sp) && Slot(z.data, sp, env.addrs[r])
    requires z.regs.edx != 0 ==> 0 <= k < |env.addrs| && z.regs.edx == env.addrs[k]
    ensures Reaches(env, Conf(z, env.helpers[JumpHelper] + 4), Conf(w, if z.regs.edx != 0 then k else r))
    ensures w == z.(regs := z.regs.(esp := Add(env.base, sp + 4)), fl := w.fl)
  {
    hide Effects, Effect, Step, Run, Reaches, Add, Slot, Load4;
    var at := env.helpers[JumpHelper];
    var fl := TestFlags(z.regs.edx);
    var y := z.(fl := fl);
    TestEdx(env, z);
    TestAndJump(env, z, at + 4, Test(EDX, R(EDX)), E, Skip(2), fl, at + 8);
    w := SetReg(y, ESP, Add(env.base, sp + 4));
    if z.regs.edx != 0 {
      TailJump(env, y, sp, at, k);
      ReachesTrans(env, Conf(z, at + 4), Conf(y, at + 6), Conf(w, k));
    } else {
      TailReturn(env, y, sp, at, r);
      ReachesTrans(env, Conf(z, at + 4), Conf(y, at + 8), Conf(w, r));
    }
  }

  lemma TestEdx(env: Env, z: State)
    ensures Effect(env, Test(EDX, R(EDX)), z) == Some(z.(fl := TestFlags(z.regs.edx)))
  {
    BitsSelf(z.regs.edx);
  }

  lemma TailJump(env: Env, y: State, sp: int, at: int, k: int)
    requires Addressed(env) && 0 <= at && at + 9 <= |env.code|
    requires env.code[at + 6] == Lea(ESP, At(ESP, 4)) && env.code[at + 7] == JmpReg(EDX)
    requires 0 <= sp && sp + 8 < M && y.regs.esp == Add(env.base, sp)
    requires 0 <= k < |env.addrs| && y.regs.edx == env.addrs[k]
    ensures Reaches(env, Conf(y, at + 6), Conf(SetReg(y, ESP, Add(env.base, sp + 4)), k))
  {
    var w := SetReg(y, ESP, Add(env.base, sp + 4));
    assert Add(Add(env.base, sp), 4) == Add(env.base, sp + 4);
    assert Effect(env, Lea(ESP, At(ESP, 4)), y) == Some(w);
    PlainStep(env, Lea(ESP, At(ESP, 4)), y, at + 6, w);
    IndexOfIs(env.addrs, k);
    assert Step(env, Conf(w, at + 7)) == Some(Conf(w, k));
    ReachesStep(env, Conf(w, at + 7), Conf(w, k));
    ReachesTrans(env, Conf(y, at + 6), Conf(w, at + 7), Conf(w, k));
  }

  lemma TailReturn(env: Env, y: State, sp: int, at: int, r: int)
    requires Addressed(env) && 0 <= at && at + 9 <= |env.code| && env.code[at + 8] == Ret
    requires 0 <= sp && sp + 8 < M && y.regs.esp == Add(env.base, sp) && 0 <= r < |env.addrs| && Slot(y.data, sp, env.addrs[r])
    ensures Reaches(env, Conf(y, at + 8), Conf(SetReg(y, ESP, Add(env.base, sp + 4)), r))
  {
    assert Add(Add(env.base, sp), 4) == Add(env.base, sp + 4) && Sub(Add(env.base, sp), env.base) == sp;
    IndexOfIs(env.addrs, r);
    RetStep(env, y, at + 8, env.addrs[r], r);
  }

  // ---- the instruction ------------------------------------------------------------------

  /** A state that differs from x in edx, the flags, and bytes the machine has forgotten. */
  lemma CoreIndirect(env: Env, cfg: Amx.Cfg, a: Amx.State, x: State, w: State, lo: int)
    requires Consistent(env, cfg) && Core(env, cfg, a, x)
    requires Outside(x.data, w.data, lo, a.stk)
    requires forall o :: lo <= o < a.stk ==> o !in a.mem
    requires w == x.(regs := x.regs.(edx := w.regs.edx), fl := w.fl, data := w.data)
    ensures Core(env, cfg, a, w) && Frame(x, w)
  {
  }

  /** call JumpHelper: to index k when the table has the address k for eax, behind the call
      when it has none. */
  lemma IndirectRuns(env: Env, cfg: Amx.Cfg, a: Amx.State, x: State, at: int, k: int) returns (w: State)
    requires Consistent(env, cfg) && Core(env, cfg, a, x) && Addressed(env) && HelpersPlaced(env)
    requires Amx.Room(cfg, a, cfg.frame + 28)
    requires 0 <= at < |env.code| && env.code[at] == Call(ToHelper(JumpHelper))
    requires var p := Lookup(env.table, a.pri); p != 0 ==> 0 <= k < |env.addrs| && p == env.addrs[k]
    ensures Core(env, cfg, a, w) && Frame(x, w)
    ensures Reaches(env, Conf(x, at), Conf(w, if Lookup(env.table, a.pri) != 0 then k else at + 1))
  {
    var lo := a.stk - 28 - env.frame;
    assert StackAt(env, x, lo, a.stk);
    w := HelperRuns(env, x, a.stk, at, k);
    CoreIndirect(env, cfg, a, x, w, lo);
  }

  /** call JumpHelper as a whole. */
  lemma HelperEntered(env: Env, x: State, stk: int, at: int) returns (z: State)
    requires Addressed(env) && HelpersPlaced(env) && StackAt(env, x, stk - 28 - env.frame, stk) && stk + 4 < M
    requires 0 <= at < |env.code| && env.code[at] == Call(ToHelper(JumpHelper))
    ensures z == x.(regs := x.regs.(edx := Lookup(env.table, x.regs.eax), esp := Add(env.base, stk - 4)), fl := NoFlags, data := z.data)
    ensures Outside(x.data, z.data, stk - 28 - env.frame, stk) && Slot(z.data, stk - 4, env.addrs[at + 1])
    ensures Reaches(env, Conf(x, at), Conf(z, env.helpers[JumpHelper] + 4))
  {
    hide Effects, Effect, Step, Run, Reaches;
    var sp := stk - 4;
    var lo := stk - 28 - env.frame;
    var h := env.helpers[JumpHelper];
    var p := env.addrs[at + 1];
    CallAt(env, x, lo, stk, at, ToHelper(JumpHelper), h);
    var y := PushedAt(env, x, stk, p);
    SlotStored(x.data, sp, p);
    z := HelperHead(env, y, sp, at + 1);
    OutsidePush(x.data, y.data, z.data, lo, stk, p);
    ReachesTrans(env, Conf(x, at), Conf(y, h), Conf(z, h + 4));
  }

  lemma HelperRuns(env: Env, x: State, stk: int, at: int, k: int) returns (w: State)
    requires Addressed(env) && HelpersPlaced(env) && StackAt(env, x, stk - 28 - env.frame, stk) && stk + 4 < M
    requires 0 <= at < |env.code| && env.code[at] == Call(ToHelper(JumpHelper))
    requires var p := Lookup(env.table, x.regs.eax); p != 0 ==> 0 <= k < |env.addrs| && p == env.addrs[k]
    ensures w == x.(regs := x.regs.(edx := w.regs.edx), fl := w.fl, data := w.data)
    ensures Outside(x.data, w.data, stk - 28 - env.frame, stk)
    ensures Reaches(env, Conf(x, at), Conf(w, if Lookup(env.table, x.regs.eax) != 0 then k else at + 1))
  {
    hide HelperPlacedAt, Store4, Effects, Effect, Step, Run, Reaches;
    var h := env.helpers[JumpHelper];
    var z := HelperEntered(env, x, stk, at);
    HelperSplit(env, h);
    w := HelperTail(env, z, stk - 4, at + 1, k);
    ReachesTrans(env, Conf(x, at), Conf(z, h + 4), Conf(w, if Lookup(env.table, x.regs.eax) != 0 then k else at + 1));
  }

  lemma OutsidePush(d: Data, e: Data, f: Data, lo: int, stk: int, v: Word)
    requires e == Store4(d, stk - 4, v) && Has4(d, stk - 4) && Outside(e, f, lo, stk - 4) && lo <= stk - 4
    ensures Outside(d, f, lo, stk)
  {
  }

  lemma IndirectOutcome(env: Env, cfg: Amx.Cfg, prog: seq<Amx.Instr>, i: Amx.Instr, a: Amx.State, c: Conf, w: State, t: int, found: bool)
    requires i.address in env.ends && PcAt(env, prog, env.ends[i.address], i.address + i.size)
    requires Core(env, cfg, a, w) && Frame(c.s, w)
    requires found ==> PcAt(env, prog, t, a.pri)
    requires Reaches(env, c, Conf(w, if found then t else env.ends[i.address]))
    ensures Matched(env, cfg, prog, c, Amx.Branch(a, i, found, a.pri))
  {
    if found {
      Landed(env, cfg, prog, a, c, w, t, a.pri);
    } else {
      Behind(env, cfg, prog, i, a, c, w);
    }
  }

  lemma IndirectCode(i: Amx.Instr)
    ensures i.op == Amx.Ctl(Amx.JumpPri) || i.op == Amx.Ctl(Amx.SetCip) ==> Code(i) == [Call(ToHelper(JumpHelper))]
    ensures i.op == Amx.Ctl(Amx.CodePtr) ==> Code(i) == [Call(ToHelper(JumpLookup))]
    ensures i.op == Amx.Ctl(Amx.JumpPtr) ==> Code(i) == [JmpReg(EAX)]
  {
  }

  /** An instruction that is compiled to a single one. */
  lemma SingleAt(env: Env, prog: seq<Amx.Instr>, k: int, i: Insn)
    requires Compiled(env, prog) && 0 <= k < |prog| && Placed(env, prog, k) && Code(prog[k]) == [i]
    ensures prog[k].address in env.labels && prog[k].address in env.ends
    ensures var at := env.labels[prog[k].address]; 0 <= at < |env.code| && env.code[at] == i && env.ends[prog[k].address] == at + 1
    ensures PcAt(env, prog, env.ends[prog[k].address], prog[k].address + prog[k].size)
    ensures Addressed(env) && HelpersPlaced(env)
  {
    hide Code, PcAt;
    CodeItem(env, env.labels[prog[k].address], [i], 0);
    FallThrough(env, prog, k);
  }

  lemma IndirectSimulated(env: Env, cfg: Amx.Cfg, prog: seq<Amx.Instr>, k: int, a: Amx.State, x: State)
    requires Compiled(env, prog) && Consistent(env, cfg) && 0 <= k < |prog| && Placed(env, prog, k)
    requires Core(env, cfg, a, x)
    requires prog[k].op == Amx.Ctl(Amx.JumpPri) || prog[k].op == Amx.Ctl(Amx.SetCip)
    ensures Matched(env, cfg, prog, Conf(x, env.labels[prog[k].address]), Amx.IndirectJump(cfg, prog, prog[k], a))
  {
    hide Effects, Effect, Step, Run, Reaches, Compiled, Core, Consistent, Placed, PcAt, Code, Lookup, HelpersPlaced, Addressed, Matched;
    IndirectCode(prog[k]);
    SingleAt(env, prog, k, Call(ToHelper(JumpHelper)));
    var at := env.labels[prog[k].address];
    if Amx.Room(cfg, a, cfg.frame + 28) {
      var t := TableSays(env, prog, a.pri);
      var w := IndirectRuns(env, cfg, a, x, at, t);
      IndirectOutcome(env, cfg, prog, prog[k], a, Conf(x, at), w, t, Amx.Find(prog, a.pri) >= 0);
    } else {
      StuckMatched(env, cfg, prog, Conf(x, at));
    }
  }

  /** The table has an entry exactly for the boundaries. */
  lemma TableSays(env: Env, prog: seq<Amx.Instr>, a: int) returns (t: int)
    requires Compiled(env, prog)
    ensures Lookup(env.table, a) != 0 <==> Amx.Find(prog, a) >= 0
    ensures Lookup(env.table, a) != 0 ==> 0 <= t < |env.addrs| && Lookup(env.table, a) == env.addrs[t]
    ensures Amx.Find(prog, a) >= 0 ==> a in env.labels && t == env.labels[a] && PcAt(env, prog, t, a)
  {
    var j := Amx.Find(prog, a);
    t := 0;
    if j >= 0 {
      assert Placed(env, prog, j);
      t := env.labels[a];
      assert env.addrs[t] > 0 by { if t > 0 { assert env.addrs[0] < env.addrs[t]; } }
    }
  }

  lemma Landed(env: Env, cfg: Amx.Cfg, prog: seq<Amx.Instr>, a: Amx.State, c: Conf, w: State, t: int, d: int)
    requires Core(env, cfg, a, w) && Frame(c.s, w) && Reaches(env, c, Conf(w, t)) && PcAt(env, prog, t, d)
    ensures Matched(env, cfg, prog, c, Amx.Next(a.(cip := d)))
  {
    CoreCip(env, cfg, a, w, d);
    assert Matches(env, cfg, prog, c, Amx.Next(a.(cip := d)), Conf(w, t));
  }

  // ---- native addresses as values ---------------------------------------------------------

  lemma PointerIs(env: Env, cfg: Amx.Cfg, a: int)
    requires Consistent(env, cfg)
    ensures cfg.native(a) == Lookup(env.table, a)
  {
  }

  lemma LookupKnown(env: Env)
    requires HelpersPlaced(env)
    ensures JumpLookup in env.helpers
  {
  }

  /** call JumpLookup: eax becomes the native address, and nothing else changes that the machine
      knows. */
  lemma PtrRuns(env: Env, cfg: Amx.Cfg, a: Amx.State, x: State, at: int) returns (w: State)
    requires Consistent(env, cfg) && Core(env, cfg, a, x) && Addressed(env) && HelpersPlaced(env)
    requires Amx.Room(cfg, a, cfg.frame + 20)
    requires 0 <= at < |env.code| && env.code[at] == Call(ToHelper(JumpLookup))
    ensures Core(env, cfg, a.(pri := Lookup(env.table, a.pri)), w) && Frame(x, w)
    ensures Reaches(env, Conf(x, at), Conf(w, at + 1))
  {
    hide Effects, Effect, Step, Run, Reaches, Store4, Lookup, HelpersPlaced;
    var lo, sp := a.stk - 20 - env.frame, a.stk - 4;
    assert JumpLookup in env.helpers by { LookupKnown(env); }
    var h, p := env.helpers[JumpLookup], env.addrs[at + 1];
    assert StackAt(env, x, lo, a.stk);
    CallAt(env, x, lo, a.stk, at, ToHelper(JumpLookup), h);
    var y := PushedAt(env, x, a.stk, p);
    SlotStored(x.data, sp, p);
    w := LookupRuns(env, y, sp, at + 1);
    OutsidePush(x.data, y.data, w.data, lo, a.stk, p);
    ReachesTrans(env, Conf(x, at), Conf(y, h), Conf(w, at + 1));
    var v := SetReg(w, EAX, a.pri);
    CoreIndirect(env, cfg, a, x, v, lo);
    CoreAcc(env, cfg, Amx.PRI, Lookup(env.table, a.pri), a, v);
    assert SetReg(v, EAX, Lookup(env.table, a.pri)) == w;
  }

  /** LCTRL 8: PRI becomes the native address of the code at PRI, 0 when no instruction starts
      there. */
  lemma SimCodePtr(env: Env, cfg: Amx.Cfg, prog: seq<Amx.Instr>, k: int, a: Amx.State, x: State)
    requires Compiled(env, prog) && Consistent(env, cfg) && 0 <= k < |prog| && Placed(env, prog, k)
    requires Core(env, cfg, a, x) && prog[k].op == Amx.Ctl(Amx.CodePtr)
    ensures Matched(env, cfg, prog, Conf(x, env.labels[prog[k].address]), Amx.Transfer(cfg, prog, prog[k], Amx.CodePtr, a))
  {
    hide Effects, Effect, Step, Run, Reaches, Compiled, Core, Consistent, Placed, PcAt, Code, Lookup, HelpersPlaced, Addressed, Matched;
    IndirectCode(prog[k]);
    SingleAt(env, prog, k, Call(ToHelper(JumpLookup)));
    var at := env.labels[prog[k].address];
    if Amx.Room(cfg, a, cfg.frame + 20) {
      var w := PtrRuns(env, cfg, a, x, at);
      assert Lookup(env.table, a.pri) == cfg.native(a.pri) by { PointerIs(env, cfg, a.pri); }
      Behind(env, cfg, prog, prog[k], a.(pri := Lookup(env.table, a.pri)), Conf(x, at), w);
    } else {
      StuckMatched(env, cfg, prog, Conf(x, at));
    }
  }

  lemma FindOwn(env: Env, prog: seq<Amx.Instr>, j: int)
    requires Compiled(env, prog) && 0 <= j < |prog|
    ensures Amx.Find(prog, prog[j].address) == j
  {
    FindIs(prog, j);
  }

  lemma JumpRegRuns(env: Env, x: State, at: int, t: int)
    requires Addressed(env) && 0 <= at < |env.code| && env.code[at] == JmpReg(EAX)
    requires 0 <= t < |env.addrs| && x.regs.eax == env.addrs[t]
    ensures Reaches(env, Conf(x, at), Conf(x, t))
  {
    hide Effects, Effect, Run, Reaches;
    IndexOfIs(env.addrs, t);
    assert Step(env, Conf(x, at)) == Some(Conf(x, t));
    ReachesStep(env, Conf(x, at), Conf(x, t));
  }

  /** SCTRL 8: a jump to the instruction whose native code is at PRI. */
  lemma SimJumpPtr(env: Env, cfg: Amx.Cfg, prog: seq<Amx.Instr>, k: int, a: Amx.State, x: State)
    requires Compiled(env, prog) && Consistent(env, cfg) && 0 <= k < |prog| && Placed(env, prog, k)
    requires Core(env, cfg, a, x) && prog[k].op == Amx.Ctl(Amx.JumpPtr)
    ensures Matched(env, cfg, prog, Conf(x, env.labels[prog[k].address]), Amx.Transfer(cfg, prog, prog[k], Amx.JumpPtr, a))
  {
    hide Effects, Effect, Step, Run, Reaches, Compiled, Placed, PcAt, Code, Lookup, HelpersPlaced, Matched, MemRel;
    IndirectCode(prog[k]);
    SingleAt(env, prog, k, JmpReg(EAX));
    var at := env.labels[prog[k].address];
    var j := Amx.FindPtr(cfg, prog, a.pri);
    if j >= 0 {
      var d := prog[j].address;
      FindOwn(env, prog, j);
      var t := TableSays(env, prog, d);
      JumpRegRuns(env, x, at, t);
      FrameSelf(x);
      Landed(env, cfg, prog, a, Conf(x, at), x, t, d);
    } else {
      StuckMatched(env, cfg, prog, Conf(x, at));
    }
  }
}
