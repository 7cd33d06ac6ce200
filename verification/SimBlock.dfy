/** Block copies, fills and comparisons: the string instructions do what the block operations
    specify, and the saved ALT survives below STK. */
module SimBlock {
  import opened Word32
  import opened X86
  import Amx
  import opened Emit
  import opened Relation
  import opened SimStack

  // ---- rep movs ----------------------------------------------------------------

  lemma CopyCopy(m: Data, so: int, di: int, w: nat, len: nat)
    requires w <= len && HasN(m, so, len) && HasN(m, di, len)
    requires so + len <= di || di + len <= so
    ensures HasN(m, so, w) && HasN(m, di, w)
    ensures var u := CopyUnit(m, so, di, w);
            HasN(u, so + w, len - w) && HasN(u, di + w, len - w)
            && CopyUnit(u, so + w, di + w, len - w) == CopyUnit(m, so, di, len)
  {
    var u := CopyUnit(m, so, di, w);
    assert forall k :: k in m <==> k in u;
    var v := CopyUnit(u, so + w, di + w, len - w);
    var t := CopyUnit(m, so, di, len);
    forall k | k in t
      ensures v[k] == t[k]
    {
      if di + w <= k < di + len {
        assert so + w + (k - (di + w)) == so + (k - di);
      }
    }
  }

  function Bytes(n: nat, w: nat): nat {
    if w == 4 then 4 * n else if w == 2 then 2 * n else n
  }

  lemma CopyNothing(m: Data, so: int, di: int)
    ensures CopyUnit(m, so, di, 0) == m
  {
  }

  lemma StillThere(m: Data, so: int, di: int, w: nat, len: nat)
    requires w <= len && HasN(m, so, len) && HasN(m, di, len)
    ensures HasN(CopyUnit(m, so, di, w), so + w, len - w) && HasN(CopyUnit(m, so, di, w), di + w, len - w)
  {
  }

  /** n repetitions of width w copy n * w bytes. */
  lemma {:induction false} MovsCopies(m: Data, so: int, di: int, n: nat, w: nat, len: nat)
    requires (w == 1 || w == 2 || w == 4) && len == Bytes(n, w)
    requires HasN(m, so, len) && HasN(m, di, len)
    requires so + len <= di || di + len <= so
    ensures Movs(m, so, di, n, w) == Some(CopyUnit(m, so, di, len))
    decreases n
  {
    hide CopyUnit;
    if n == 0 {
      CopyNothing(m, so, di);
    } else {
      CopyCopy(m, so, di, w, len);
      assert HasN(m, so, w) && HasN(m, di, w);
      StillThere(m, so, di, w, len);
      MovsCopies(CopyUnit(m, so, di, w), so + w, di + w, n - 1, w, len - w);
    }
  }

  function MovsWidth(n: Word): nat { if n % 4 == 0 then 4 else if n % 2 == 0 then 2 else 1 }

  lemma EffRepMovs(env: Env, w: nat, y: State, d: Data)
    requires w == 1 || w == 2 || w == 4
    requires Movs(y.data, Sub(y.regs.esi, env.base), Sub(y.regs.edi, env.base), y.regs.ecx, w) == Some(d)
    ensures Effect(env, RepMovs(w), y)
         == Some(y.(data := d, regs := y.regs.(ecx := 0, esi := Past(y.regs.esi, y.regs.ecx, w), edi := Past(y.regs.edi, y.regs.ecx, w))))
  {
  }

  lemma EffMovsBody(env: Env, n: Word, x: State, d: Data) returns (esi: Word, edi: Word)
    requires Movs(x.data, Sub(x.regs.esi, env.base), Sub(x.regs.edi, env.base), n / MovsWidth(n), MovsWidth(n)) == Some(d)
    ensures Effects(env, MovsBody(n), x) == Some(x.(data := d, regs := x.regs.(ecx := 0, esi := esi, edi := edi)))
  {
    hide Movs;
    var w := MovsWidth(n);
    var c := n / w;
    var y := SetReg(x, ECX, c);
    assert MovsBody(n) == [Mov(R(ECX), I(c)), RepMovs(w)];
    Seq2(env, Mov(R(ECX), I(c)), RepMovs(w), x);
    assert Effect(env, Mov(R(ECX), I(c)), x) == Some(y);
    EffRepMovs(env, w, y, d);
    esi, edi := Past(x.regs.esi, c, w), Past(x.regs.edi, c, w);
  }

  // ---- saving and restoring ALT --------------------------------------------------

  /** The state once the block addresses are loaded and ALT is saved. */
  function Saved(x: State, esi: Word, edi: Word, at: int): State {
    x.(regs := x.regs.(esi := esi, edi := edi, esp := Sub(x.regs.esp, 4)), data := Store4(x.data, at, x.regs.ecx))
  }

  lemma EffAddresses(env: Env, x: State)
    ensures Effects(env, [Lea(ESI, Index(EBX, EAX, 0)), Lea(EDI, Index(EBX, ECX, 0))], x)
         == Some(x.(regs := x.regs.(esi := Add(x.regs.ebx, x.regs.eax), edi := Add(x.regs.ebx, x.regs.ecx))))
  {
    Seq2(env, Lea(ESI, Index(EBX, EAX, 0)), Lea(EDI, Index(EBX, ECX, 0)), x);
  }

  lemma EffAddressesSwapped(env: Env, x: State)
    ensures Effects(env, [Lea(EDI, Index(EBX, EAX, 0)), Lea(ESI, Index(EBX, ECX, 0))], x)
         == Some(x.(regs := x.regs.(edi := Add(x.regs.ebx, x.regs.eax), esi := Add(x.regs.ebx, x.regs.ecx))))
  {
    Seq2(env, Lea(EDI, Index(EBX, EAX, 0)), Lea(ESI, Index(EBX, ECX, 0)), x);
  }

  lemma EffAddressFill(env: Env, x: State)
    ensures Effects(env, [Lea(EDI, Index(EBX, ECX, 0))], x) == Some(x.(regs := x.regs.(edi := Add(x.regs.ebx, x.regs.ecx))))
  {
    Seq1(env, Lea(EDI, Index(EBX, ECX, 0)), x);
  }

  /** push ecx in a state with room below STK. */
  lemma SaveAlt(env: Env, cfg: Amx.Cfg, a: Amx.State, x: State, esi: Word, edi: Word)
    requires Consistent(env, cfg) && Core(env, cfg, a, x) && Amx.Room(cfg, a, 4)
    ensures var y := x.(regs := x.regs.(esi := esi, edi := edi));
            Effects(env, [Push(R(ECX))], y) == Some(Saved(x, esi, edi, a.stk - 4))
    ensures MemRel(env, cfg, a.mem, Store4(x.data, a.stk - 4, x.regs.ecx))
  {
    var y := x.(regs := x.regs.(esi := esi, edi := edi));
    StackAddress(env.base, a.stk);
    Seq1(env, Push(R(ECX)), y);
    assert Sub(a.stk, 4) == a.stk - 4;
    assert Has4(x.data, a.stk - 4);
  }

  /** pop ecx brings ALT and STK back when the saved cell is untouched. */
  lemma RestoreAlt(env: Env, cfg: Amx.Cfg, a: Amx.State, x: State, z: State)
    requires Consistent(env, cfg) && Core(env, cfg, a, x) && Amx.Room(cfg, a, 4)
    requires z.regs.esp == Sub(x.regs.esp, 4)
    requires Has4(z.data, a.stk - 4) && Load4(z.data, a.stk - 4) == a.alt
    ensures Effects(env, [Pop(R(ECX))], z) == Some(SetReg(SetReg(z, ESP, x.regs.esp), ECX, a.alt))
  {
    hide Has4, Load4;
    StackAddress(env.base, a.stk);
    Seq1(env, Pop(R(ECX)), z);
    assert Sub(z.regs.esp, env.base) == a.stk - 4;
    EffPop(env, ECX, z, a.alt);
  }

  /** A block instruction between the save and the restore of ALT. */
  lemma Bracket(env: Env, cfg: Amx.Cfg, a: Amx.State, x: State, pre: seq<Insn>, mid: seq<Insn>, esi: Word, edi: Word, z: State)
    requires Consistent(env, cfg) && Core(env, cfg, a, x) && Amx.Room(cfg, a, 4)
    requires Effects(env, pre, x) == Some(x.(regs := x.regs.(esi := esi, edi := edi)))
    requires Effects(env, mid, Saved(x, esi, edi, a.stk - 4)) == Some(z)
    requires z.regs.esp == Sub(x.regs.esp, 4)
    requires Has4(z.data, a.stk - 4) && Load4(z.data, a.stk - 4) == a.alt
    ensures Effects(env, pre + [Push(R(ECX))] + mid + [Pop(R(ECX))], x) == Some(SetReg(SetReg(z, ESP, x.regs.esp), ECX, a.alt))
  {
    hide Effects, Effect;
    var c2, c4 := [Push(R(ECX))], [Pop(R(ECX))];
    assert pre + c2 + mid + c4 == pre + (c2 + (mid + c4));
    SeqAppend(env, pre, c2 + (mid + c4), x);
    var x1 := x.(regs := x.regs.(esi := esi, edi := edi));
    SeqAppend(env, c2, mid + c4, x1);
    SaveAlt(env, cfg, a, x, esi, edi);
    SeqAppend(env, mid, c4, Saved(x, esi, edi, a.stk - 4));
    RestoreAlt(env, cfg, a, x, z);
  }

  lemma CoreBlock(env: Env, cfg: Amx.Cfg, a: Amx.State, x: State, z: State, m: Amx.Memory)
    requires Core(env, cfg, a, x) && MemRel(env, cfg, m, z.data)
    requires z == x.(regs := x.regs.(esi := z.regs.esi, edi := z.regs.edi), data := z.data, fl := z.fl)
    ensures Core(env, cfg, a.(mem := m), z) && Frame(x, z)
  {
  }

  // ---- MOVS ------------------------------------------------------------------------

  lemma CopyRel(env: Env, cfg: Amx.Cfg, a: Amx.State, d: Data, n: Word)
    requires MemRel(env, cfg, a.mem, d)
    requires Amx.PlainBytes(a.mem, a.pri, n) && a.alt + n <= cfg.size && HasN(d, a.pri, n) && HasN(d, a.alt, n)
    ensures MemRel(env, cfg, Amx.CopyBlock(a.mem, a.pri, a.alt, n), CopyUnit(d, a.pri, a.alt, n))
  {
    var m := Amx.CopyBlock(a.mem, a.pri, a.alt, n);
    var e := CopyUnit(d, a.pri, a.alt, n);
    forall k | k in m
      ensures 0 <= k < cfg.size && e[k] == Enc(env, m[k]) && Known(env, m[k])
    {
      if a.alt <= k < a.alt + n {
        assert a.mem[a.pri + (k - a.alt)].Byt?;
      }
    }
  }

  lemma SpareKept(d: Data, at: int, v: Word, so: int, di: int, n: nat)
    requires Has4(d, at) && HasN(Store4(d, at, v), so, n) && HasN(Store4(d, at, v), di, n)
    requires di + n <= at || at + 4 <= di
    ensures var e := CopyUnit(Store4(d, at, v), so, di, n); Has4(e, at) && Load4(e, at) == v
  {
    JoinOfBytes(v);
  }

  lemma MovsInRange(cfg: Amx.Cfg, a: Amx.State, n: Word, env: Env, d: Data)
    requires Consistent(env, cfg) && MemRel(env, cfg, a.mem, d)
    requires Amx.PlainBytes(a.mem, a.pri, n) && Amx.TargetOk(cfg, a, n)
    ensures n > 0 ==> a.pri + n <= cfg.size
    ensures HasN(d, a.pri, n) && HasN(d, a.alt, n)
  {
    if n > 0 {
      assert a.pri + n - 1 in a.mem;
    }
  }

  lemma MovsRun(m: Data, so: int, di: int, n: Word)
    requires so + n <= di || di + n <= so
    requires HasN(m, so, n) && HasN(m, di, n)
    ensures Movs(m, so, di, n / MovsWidth(n), MovsWidth(n)) == Some(CopyUnit(m, so, di, n))
  {
    MovsCopies(m, so, di, n / MovsWidth(n), MovsWidth(n), n);
  }

  lemma MovsMiddle(env: Env, cfg: Amx.Cfg, n: Word, a: Amx.State, x: State, y: State) returns (esi: Word, edi: Word)
    requires Consistent(env, cfg) && Core(env, cfg, a, x)
    requires Amx.ApplyBlock(cfg, Amx.Movs(n), a).Some?
    requires y == Saved(x, Add(env.base, a.pri), Add(env.base, a.alt), a.stk - 4)
    requires MemRel(env, cfg, a.mem, y.data)
    ensures HasN(y.data, a.pri, n) && HasN(y.data, a.alt, n)
    ensures var d := CopyUnit(y.data, a.pri, a.alt, n);
            && MemRel(env, cfg, Amx.CopyBlock(a.mem, a.pri, a.alt, n), d)
            && Has4(d, a.stk - 4) && Load4(d, a.stk - 4) == a.alt
            && Effects(env, MovsBody(n), y) == Some(y.(data := d, regs := y.regs.(ecx := 0, esi := esi, edi := edi)))
  {
    hide Effects, Effect;
    MovsInRange(cfg, a, n, env, y.data);
    assert Sub(y.regs.esi, env.base) == a.pri && Sub(y.regs.edi, env.base) == a.alt;
    MovsRun(y.data, a.pri, a.alt, n);
    CopyRel(env, cfg, a, y.data, n);
    assert Has4(x.data, a.stk - 4);
    SpareKept(x.data, a.stk - 4, a.alt, a.pri, a.alt, n);
    esi, edi := EffMovsBody(env, n, y, CopyUnit(y.data, a.pri, a.alt, n));
  }

  lemma SimMovs(env: Env, cfg: Amx.Cfg, n: Word, a: Amx.State, x: State, b: Amx.State)
    requires Consistent(env, cfg) && Core(env, cfg, a, x)
    requires Amx.ApplyBlock(cfg, Amx.Movs(n), a) == Some(b)
    ensures Simulates(env, cfg, BlockCode(Amx.Movs(n)), x, b)
  {
    hide Effects, Effect;
    var pre := [Lea(ESI, Index(EBX, EAX, 0)), Lea(EDI, Index(EBX, ECX, 0))];
    assert BlockCode(Amx.Movs(n)) == pre + [Push(R(ECX))] + MovsBody(n) + [Pop(R(ECX))];
    var esi, edi := Add(env.base, a.pri), Add(env.base, a.alt);
    EffAddresses(env, x);
    SaveAlt(env, cfg, a, x, esi, edi);
    var y := Saved(x, esi, edi, a.stk - 4);
    var si, di := MovsMiddle(env, cfg, n, a, x, y);
    var d := CopyUnit(y.data, a.pri, a.alt, n);
    var z := y.(data := d, regs := y.regs.(ecx := 0, esi := si, edi := di));
    Bracket(env, cfg, a, x, pre, MovsBody(n), esi, edi, z);
    CoreBlock(env, cfg, a, x, SetReg(SetReg(z, ESP, x.regs.esp), ECX, a.alt), b.mem);
  }

  // ---- FILL --------------------------------------------------------------------------

  function Filled(m: Data, di: int, len: nat, v: Word): Data {
    map k | k in m :: if di <= k < di + len then ByteOf(v, (k - di) % 4) else m[k]
  }

  lemma FilledAt(m: Data, di: int, len: nat, v: Word, k: int)
    requires len >= 4 && Has4(m, di) && k in m
    ensures Filled(Store4(m, di, v), di + 4, len - 4, v)[k] == Filled(m, di, len, v)[k]
  {
    if di + 4 <= k < di + len {
      assert (k - (di + 4)) % 4 == (k - di) % 4;
    }
  }

  lemma FilledMore(m: Data, di: int, len: nat, v: Word)
    requires len >= 4 && Has4(m, di)
    ensures Filled(Store4(m, di, v), di + 4, len - 4, v) == Filled(m, di, len, v)
  {
    var s := Store4(m, di, v);
    var p, q := Filled(s, di + 4, len - 4, v), Filled(m, di, len, v);
    assert s.Keys == m.Keys;
    assert p.Keys == q.Keys;
    forall k | k in q
      ensures p[k] == q[k]
    {
      FilledAt(m, di, len, v, k);
    }
  }

  /** n stores of a cell fill 4 * n bytes with it. */
  lemma {:induction false} StosdFills(m: Data, di: int, n: nat, len: nat, v: Word)
    requires len == 4 * n && HasN(m, di, len)
    ensures Stosd(m, di, v, n) == Some(Filled(m, di, len, v))
    decreases n
  {
    if n == 0 {
      assert Filled(m, di, 0, v) == m;
    } else {
      FilledMore(m, di, len, v);
      StosdFills(Store4(m, di, v), di + 4, n - 1, len - 4, v);
    }
  }

  lemma FillRel(env: Env, cfg: Amx.Cfg, m: Amx.Memory, d: Data, at: int, n: Word, v: Word)
    requires MemRel(env, cfg, m, d) && 0 <= at && at + n <= cfg.size
    ensures MemRel(env, cfg, Amx.FillBlock(m, at, n, v), Filled(d, at, n, v))
  {
    var f, e := Amx.FillBlock(m, at, n, v), Filled(d, at, n, v);
    forall k | k in f
      ensures 0 <= k < cfg.size && e[k] == Enc(env, f[k]) && Known(env, f[k])
    {
      if !(at <= k < at + n) { assert k in m; }
    }
  }

  lemma SpareUnfilled(d: Data, at: int, v: Word, di: int, n: nat, w: Word)
    requires di + n <= at || at + 4 <= di
    ensures var e := Filled(Store4(d, at, v), di, n, w); Has4(e, at) && Load4(e, at) == v
  {
    JoinOfBytes(v);
  }

  lemma EffRepStosd(env: Env, y: State, d: Data)
    requires Stosd(y.data, Sub(y.regs.edi, env.base), y.regs.eax, y.regs.ecx) == Some(d)
    ensures Effect(env, RepStosd, y) == Some(y.(data := d, regs := y.regs.(ecx := 0, edi := Wrap(y.regs.edi + y.regs.ecx * 4))))
  {
    hide Stosd;
  }

  lemma EffFillBody(env: Env, n: Word, x: State, d: Data) returns (edi: Word)
    requires Stosd(x.data, Sub(x.regs.edi, env.base), x.regs.eax, n / 4) == Some(d)
    ensures Effects(env, [Mov(R(ECX), I(n / 4)), RepStosd], x) == Some(x.(data := d, regs := x.regs.(ecx := 0, edi := edi)))
  {
    hide Stosd;
    var c := n / 4;
    var y := SetReg(x, ECX, c);
    EffRepStosd(env, y, d);
    edi := Wrap(x.regs.edi + c * 4);
    Seq2(env, Mov(R(ECX), I(c)), RepStosd, x);
    assert Effect(env, Mov(R(ECX), I(c)), x) == Some(y);
  }

  lemma FillCount(n: Word)
    requires n % 4 == 0
    ensures 4 * (n / 4) == n
  {
  }

  lemma BlockIn(env: Env, cfg: Amx.Cfg, m: Amx.Memory, d: Data, at: int, n: nat)
    requires MemRel(env, cfg, m, d) && 0 <= at && at + n <= cfg.size
    ensures HasN(d, at, n)
  {
  }

  lemma FillMiddle(env: Env, cfg: Amx.Cfg, n: Word, a: Amx.State, x: State, y: State) returns (edi: Word)
    requires Consistent(env, cfg) && Core(env, cfg, a, x)
    requires Amx.ApplyBlock(cfg, Amx.Fill(n), a).Some?
    requires y == Saved(x, x.regs.esi, Add(env.base, a.alt), a.stk - 4)
    requires MemRel(env, cfg, a.mem, y.data)
    ensures var d := Filled(y.data, a.alt, n, a.pri);
            && MemRel(env, cfg, Amx.FillBlock(a.mem, a.alt, n, a.pri), d)
            && Has4(d, a.stk - 4) && Load4(d, a.stk - 4) == a.alt
            && Effects(env, [Mov(R(ECX), I(n / 4)), RepStosd], y) == Some(y.(data := d, regs := y.regs.(ecx := 0, edi := edi)))
  {
    hide Effects, Effect, Load4, Store4, Amx.FillBlock, Filled, Stosd, MemRel;
    FillCount(n);
    assert Sub(y.regs.edi, env.base) == a.alt;
    assert HasN(y.data, a.alt, n) by { BlockIn(env, cfg, a.mem, y.data, a.alt, n); }
    StosdFills(y.data, a.alt, n / 4, n, a.pri);
    FillRel(env, cfg, a.mem, y.data, a.alt, n, a.pri);
    SpareUnfilled(x.data, a.stk - 4, a.alt, a.alt, n, a.pri);
    edi := EffFillBody(env, n, y, Filled(y.data, a.alt, n, a.pri));
  }

  lemma SimFill(env: Env, cfg: Amx.Cfg, n: Word, a: Amx.State, x: State, b: Amx.State)
    requires Consistent(env, cfg) && Core(env, cfg, a, x)
    requires Amx.ApplyBlock(cfg, Amx.Fill(n), a) == Some(b)
    ensures Simulates(env, cfg, BlockCode(Amx.Fill(n)), x, b)
  {
    hide Effects, Effect;
    var pre, mid := [Lea(EDI, Index(EBX, ECX, 0))], [Mov(R(ECX), I(n / 4)), RepStosd];
    assert BlockCode(Amx.Fill(n)) == pre + [Push(R(ECX))] + mid + [Pop(R(ECX))];
    var edi := Add(env.base, a.alt);
    EffAddressFill(env, x);
    SaveAlt(env, cfg, a, x, x.regs.esi, edi);
    var y := Saved(x, x.regs.esi, edi, a.stk - 4);
    var di := FillMiddle(env, cfg, n, a, x, y);
    var d := Filled(y.data, a.alt, n, a.pri);
    var z := y.(data := d, regs := y.regs.(ecx := 0, edi := di));
    Bracket(env, cfg, a, x, pre, mid, x.regs.esi, edi, z);
    assert b.mem == Amx.FillBlock(a.mem, a.alt, n, a.pri);
    CoreBlock(env, cfg, a, x, SetReg(SetReg(z, ESP, x.regs.esp), ECX, a.alt), b.mem);
  }

  // ---- CMPS --------------------------------------------------------------------------

  /** Flags that the jumps behind the comparison take for the sign c. */
  predicate Reports(fl: Flags, c: int) {
    fl.Flags? && (fl.cf <==> c < 0) && (fl.zf && !fl.cf <==> c == 0)
  }

  /** The sign that flags are taken for. */
  function Said(fl: Flags): (c: int)
    requires fl.Flags?
    ensures Reports(fl, c) && -1 <= c <= 1
  {
    if fl.cf then -1 else if fl.zf then 0 else 1
  }

  /** repe cmpsb over at least one byte reports the first difference; over none it leaves the
      flags as they were. */
  lemma {:induction false} CmpsbCompares(env: Env, cfg: Amx.Cfg, m: Amx.Memory, d: Data, p: int, q: int, n: nat, fl: Flags)
    requires MemRel(env, cfg, m, d)
    requires Amx.PlainBytes(m, p, n) && Amx.PlainBytes(m, q, n)
    ensures var r := Cmpsb(d, p, q, n, fl);
            r.Some? && if n > 0 then Reports(r.value.0, Amx.CompareBlocks(m, p, q, n)) else r.value.0 == fl
    decreases n
  {
    if n > 0 {
      assert p in m && q in m && d[p] == m[p].b && d[q] == m[q].b;
      var f := CmpFlags(d[p], d[q], 0x100);
      if f.zf {
        CmpsbCompares(env, cfg, m, d, p + 1, q + 1, n - 1, f);
      }
    }
  }

  /** Two blocks that can be compared: readable, with a spare cell below STK. */
  predicate Comparable(cfg: Amx.Cfg, a: Amx.State, n: Word) {
    Amx.Room(cfg, a, 4) && Amx.PlainBytes(a.mem, a.pri, n) && Amx.PlainBytes(a.mem, a.alt, n)
  }

  lemma EffRepeCmpsb(env: Env, y: State, fl: Flags, k: nat)
    requires Cmpsb(y.data, Sub(y.regs.esi, env.base), Sub(y.regs.edi, env.base), y.regs.ecx, y.fl) == Some((fl, k))
    ensures Effect(env, RepeCmpsb, y)
         == Some(y.(fl := fl, regs := y.regs.(ecx := Wrap(y.regs.ecx - k), esi := Wrap(y.regs.esi + k), edi := Wrap(y.regs.edi + k))))
  {
    hide Cmpsb;
  }

  lemma EffCmpsBody(env: Env, n: Word, x: State, fl: Flags, k: nat) returns (ecx: Word, esi: Word, edi: Word)
    requires Cmpsb(x.data, Sub(x.regs.esi, env.base), Sub(x.regs.edi, env.base), n, x.fl) == Some((fl, k))
    ensures Effects(env, [Mov(R(ECX), I(n)), RepeCmpsb], x) == Some(x.(fl := fl, regs := x.regs.(ecx := ecx, esi := esi, edi := edi)))
  {
    hide Cmpsb;
    var y := SetReg(x, ECX, n);
    EffRepeCmpsb(env, y, fl, k);
    ecx, esi, edi := Wrap(n - k), Wrap(x.regs.esi + k), Wrap(x.regs.edi + k);
    Seq2(env, Mov(R(ECX), I(n)), RepeCmpsb, x);
    assert Effect(env, Mov(R(ECX), I(n)), x) == Some(y);
  }

  lemma CmpsMiddle(env: Env, cfg: Amx.Cfg, n: Word, a: Amx.State, x: State, y: State)
    returns (fl: Flags, ecx: Word, esi: Word, edi: Word)
    requires Consistent(env, cfg) && Core(env, cfg, a, x)
    requires Comparable(cfg, a, n)
    requires y == Saved(x, Add(env.base, a.alt), Add(env.base, a.pri), a.stk - 4)
    requires MemRel(env, cfg, a.mem, y.data)
    ensures if n > 0 then Reports(fl, Amx.CompareBlocks(a.mem, a.alt, a.pri, n)) else fl == x.fl
    ensures Effects(env, [Mov(R(ECX), I(n)), RepeCmpsb], y) == Some(y.(fl := fl, regs := y.regs.(ecx := ecx, esi := esi, edi := edi)))
  {
    hide Effects, Effect;
    assert Sub(y.regs.esi, env.base) == a.alt && Sub(y.regs.edi, env.base) == a.pri;
    CmpsbCompares(env, cfg, a.mem, y.data, a.alt, a.pri, n, y.fl);
    var r := Cmpsb(y.data, a.alt, a.pri, n, y.fl).value;
    fl := r.0;
    ecx, esi, edi := EffCmpsBody(env, n, y, r.0, r.1);
  }

  /** Everything before the jumps of CMPS: the flags report the comparison if there is anything to
      compare, the state is otherwise as before. */
  lemma CmpsFlags(env: Env, cfg: Amx.Cfg, n: Word, a: Amx.State, x: State)
    requires Consistent(env, cfg) && Core(env, cfg, a, x)
    requires Comparable(cfg, a, n)
    ensures var t := Effects(env, CMPS_PREFIX + [Mov(R(ECX), I(n)), RepeCmpsb, Pop(R(ECX))], x);
            && t.Some? && Core(env, cfg, a, t.value) && Frame(x, t.value)
            && if n > 0 then Reports(t.value.fl, Amx.CompareBlocks(a.mem, a.alt, a.pri, n)) else t.value.fl == x.fl
  {
    hide Effects, Effect;
    var pre, mid := [Lea(EDI, Index(EBX, EAX, 0)), Lea(ESI, Index(EBX, ECX, 0))], [Mov(R(ECX), I(n)), RepeCmpsb];
    assert CMPS_PREFIX + [Mov(R(ECX), I(n)), RepeCmpsb, Pop(R(ECX))] == pre + [Push(R(ECX))] + mid + [Pop(R(ECX))];
    var esi, edi := Add(env.base, a.alt), Add(env.base, a.pri);
    EffAddressesSwapped(env, x);
    SaveAlt(env, cfg, a, x, esi, edi);
    var y := Saved(x, esi, edi, a.stk - 4);
    var fl, ecx, si, di := CmpsMiddle(env, cfg, n, a, x, y);
    var z := y.(fl := fl, regs := y.regs.(ecx := ecx, esi := si, edi := di));
    ReadBack(x.data, a.stk - 4, a.alt);
    Bracket(env, cfg, a, x, pre, mid, esi, edi, z);
    CoreBlock(env, cfg, a, x, SetReg(SetReg(z, ESP, x.regs.esp), ECX, a.alt), a.mem);
  }
}
