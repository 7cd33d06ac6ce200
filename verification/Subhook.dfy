/** Hooks on functions of a 32-bit program: a jump written over the first instructions, which
    are kept as bytes and as a trampoline that runs them elsewhere. */
module Subhook {
  import opened Word32

  const JMP_OPCODE: Byte := 0xE9
  const JMP_SIZE := 5
  const MAX_INSN_LEN := 15

  /** What the disassembler says of the instruction at an address: its length, 0 when it does
      not know it, and where in it a relative operand lies, 0 when there is none. */
  datatype Decoded = Decoded(length: nat, operand: nat)

  datatype Error = Ok | Invalid

  predicate WellFormed(d: Decoded) {
    d.length <= MAX_INSN_LEN && (d.operand > 0 ==> d.operand + 4 <= d.length)
  }

  function Dword(m: seq<Byte>, a: nat): Word
    requires a + 4 <= |m|
  {
    Join(m[a], m[a + 1], m[a + 2], m[a + 3])
  }

  /** Where a relative operand leads that ends at address e: it is taken from the instruction's
      own end, which is the same distance away before and after the move. */
  function Target(m: seq<Byte>, a: nat, e: nat): Word
    requires a + 4 <= |m|
  {
    Wrap(e + Dword(m, a))
  }

  /** The bytes of a jump from one address to another. */
  ghost predicate JumpAt(m: seq<Byte>, src: nat, dst: Word) {
    src + JMP_SIZE <= |m| && m[src] == JMP_OPCODE && Wrap(src + JMP_SIZE + Dword(m, src + 1)) == dst
  }

  lemma OffsetReaches(src: nat, dst: Word, v: Word)
    requires v == Wrap(dst - (src + JMP_SIZE))
    ensures Wrap(src + JMP_SIZE + v) == dst
  {
    var q := (dst - (src + JMP_SIZE)) / M;
    assert dst - (src + JMP_SIZE) == q * M + v;
    WrapUnique(src + JMP_SIZE + v, dst, -q);
  }

  /** Moving an instruction by some distance and subtracting the distance from its relative
      operand keeps the address it leads to. */
  lemma OperandMoves(e: nat, f: nat, op: Word)
    ensures Wrap(f + Wrap(op - (f - e))) == Wrap(e + op)
  {
    var v := Wrap(op - (f - e));
    var q := (op - (f - e)) / M;
    assert op - (f - e) == q * M + v;
    var r := (e + op) / M;
    assert e + op == r * M + Wrap(e + op);
    assert f + v == e + op - q * M;
    WrapUnique(f + v, Wrap(e + op), r - q);
  }

  /** Where the n-th instruction from src on starts, counted from src. */
  function Start(disasm: nat -> Decoded, src: nat, n: nat): nat {
    if n == 0 then 0 else var k := Start(disasm, src, n - 1); k + disasm(src + k).length
  }

  predicate InOperand(d: Decoded, b: int) { d.operand > 0 && d.operand <= b < d.operand + 4 }

  /** The instruction at distance k from src does at the trampoline what it does in place: its
      bytes are the same, except that a relative operand leads to the same address from there. */
  ghost predicate Relocated(m: seq<Byte>, now: seq<Byte>, d: Decoded, from: nat, to: nat)
    requires |now| == |m|
  {
    && from + d.length <= |m| && to + d.length <= |m| && WellFormed(d)
    && (forall a :: to <= a < to + d.length && !InOperand(d, a - to) ==> now[a] == m[a - to + from])
    && (d.operand > 0 ==> Target(now, to + d.operand, to + d.length) == Target(m, from + d.operand, from + d.length))
  }

  lemma {:induction false} RelocatedKept(m: seq<Byte>, before: seq<Byte>, now: seq<Byte>, d: Decoded, from: nat, to: nat)
    requires |m| == |before| == |now| && Relocated(m, before, d, from, to)
    requires forall a :: to <= a < to + d.length ==> now[a] == before[a]
    ensures Relocated(m, now, d, from, to)
  {
  }

  /** A copy whose operand is less by the distance of the move is the instruction relocated. */
  lemma {:induction false} IsRelocated(m: seq<Byte>, copied: seq<Byte>, now: seq<Byte>, d: Decoded, from: nat, to: nat)
    requires |m| == |copied| == |now| && WellFormed(d) && from + d.length <= |m| && to + d.length <= |m|
    requires forall a :: to <= a < to + d.length ==> copied[a] == m[a - to + from]
    requires forall a :: to <= a < to + d.length && !InOperand(d, a - to) ==> now[a] == copied[a]
    requires d.operand > 0 ==> Dword(now, to + d.operand) == Wrap(Dword(copied, to + d.operand) - (to - from))
    ensures Relocated(m, now, d, from, to)
  {
    if d.operand > 0 {
      var f, t := from + d.operand, to + d.operand;
      assert copied[t] == m[f] && copied[t + 1] == m[f + 1] && copied[t + 2] == m[f + 2] && copied[t + 3] == m[f + 3];
      SameTarget(m, now, Dword(m, f), f, from + d.length, t, to + d.length);
    }
  }

  lemma {:induction false} SameTarget(m: seq<Byte>, now: seq<Byte>, op: Word, f: nat, e: nat, t: nat, g: nat)
    requires f + 4 <= |m| && t + 4 <= |now| && g - e == t - f
    requires Dword(m, f) == op && Dword(now, t) == Wrap(op - (t - f))
    ensures Target(now, t, g) == Target(m, f, e)
  {
    hide Dword;
    OperandMoves(e, g, op);
  }

  /** The first n instructions from src on all do at the trampoline what they do in place. */
  ghost predicate AllRelocated(m: seq<Byte>, now: seq<Byte>, disasm: nat -> Decoded, src: nat, trampoline: nat, n: nat)
    requires |now| == |m|
  {
    forall j :: 0 <= j < n ==> var k := Start(disasm, src, j); Relocated(m, now, disasm(src + k), src + k, trampoline + k)
  }

  lemma {:induction false} StartsBelow(disasm: nat -> Decoded, src: nat, j: nat, n: nat)
    requires j < n
    ensures Start(disasm, src, j) + disasm(src + Start(disasm, src, j)).length <= Start(disasm, src, n)
  {
    if j < n - 1 { StartsBelow(disasm, src, j, n - 1); }
  }

  /** Bytes written behind the instructions copied so far leave them relocated. */
  lemma {:induction false} AllKept(m: seq<Byte>, before: seq<Byte>, now: seq<Byte>, disasm: nat -> Decoded, src: nat, trampoline: nat, n: nat)
    requires |m| == |before| == |now| && AllRelocated(m, before, disasm, src, trampoline, n)
    requires forall a :: 0 <= a < |m| && trampoline <= a < trampoline + Start(disasm, src, n) ==> now[a] == before[a]
    ensures AllRelocated(m, now, disasm, src, trampoline, n)
  {
    hide Relocated, Start;
    forall j | 0 <= j < n
      ensures var k := Start(disasm, src, j); Relocated(m, now, disasm(src + k), src + k, trampoline + k)
    {
      var k := Start(disasm, src, j);
      assert Relocated(m, before, disasm(src + k), src + k, trampoline + k);
      StartsBelow(disasm, src, j, n);
      Bounds(m, before, disasm(src + k), src + k, trampoline + k);
      RelocatedKept(m, before, now, disasm(src + k), src + k, trampoline + k);
    }
  }

  lemma {:induction false} Bounds(m: seq<Byte>, now: seq<Byte>, d: Decoded, from: nat, to: nat)
    requires |now| == |m| && Relocated(m, now, d, from, to)
    ensures from + d.length <= |m| && to + d.length <= |m|
  {
  }

  /** One more instruction relocated. */
  lemma {:induction false} AllStep(m: seq<Byte>, before: seq<Byte>, now: seq<Byte>, disasm: nat -> Decoded, src: nat, trampoline: nat, n: nat)
    requires |m| == |before| == |now| && AllRelocated(m, before, disasm, src, trampoline, n)
    requires var k := Start(disasm, src, n);
             && Relocated(before, now, disasm(src + k), src + k, trampoline + k)
             && (forall a :: 0 <= a < |m| && !(trampoline + k <= a < trampoline + k + disasm(src + k).length) ==> now[a] == before[a])
             && (forall a :: src + k <= a < src + k + disasm(src + k).length ==> before[a] == m[a])
    ensures AllRelocated(m, now, disasm, src, trampoline, n + 1)
    ensures Start(disasm, src, n + 1) == Start(disasm, src, n) + disasm(src + Start(disasm, src, n)).length
  {
    hide Relocated, Start;
    var k := Start(disasm, src, n);
    AllKept(m, before, now, disasm, src, trampoline, n);
    NextStart(disasm, src, n);
    SameSource(m, before, now, disasm(src + k), src + k, trampoline + k);
  }

  class Hook {
    /** The memory of the process. */
    const memory: array<Byte>
    const src: nat
    const dst: Word
    const trampoline: nat
    var trampolineLen: nat
    var code: seq<Byte>
    var installed: bool

    const trampolineSize := JMP_SIZE * 2 + MAX_INSN_LEN

    ghost predicate Apart() {
      && src + JMP_SIZE + MAX_INSN_LEN <= memory.Length && trampoline + trampolineSize <= memory.Length <= M
      && (trampoline + trampolineSize <= src || src + JMP_SIZE + MAX_INSN_LEN <= trampoline)
    }

    /** The function starts with the jump while the hook is installed, and with its own bytes
        while it is not. */
    ghost predicate Valid()
      reads this, memory
    {
      && Apart() && |code| == JMP_SIZE
      && if installed then JumpAt(memory[..], src, dst) else memory[src..src + JMP_SIZE] == code
    }

    constructor (memory: array<Byte>, src: nat, dst: Word, trampoline: nat)
      requires src + JMP_SIZE + MAX_INSN_LEN <= memory.Length && trampoline + JMP_SIZE * 2 + MAX_INSN_LEN <= memory.Length <= M
      requires trampoline + JMP_SIZE * 2 + MAX_INSN_LEN <= src || src + JMP_SIZE + MAX_INSN_LEN <= trampoline
      ensures Valid() && !installed && code == memory[src..src + JMP_SIZE]
      ensures this.memory == memory && this.src == src && this.dst == dst && this.trampoline == trampoline
    {
      this.memory, this.src, this.dst, this.trampoline := memory, src, dst, trampoline;
      trampolineLen, code, installed := 0, memory[src..src + JMP_SIZE], false;
    }

    /** Writes the jump. */
    method MakeJmp(at: nat, to: Word)
      requires at + JMP_SIZE <= memory.Length <= M
      modifies memory
      ensures JumpAt(memory[..], at, to)
      ensures forall b :: 0 <= b < memory.Length && !(at <= b < at + JMP_SIZE) ==> memory[b] == old(memory[b])
    {
      var offset := Wrap(to - (at + JMP_SIZE));
      memory[at] := JMP_OPCODE;
      memory[at + 1], memory[at + 2] := ByteOf(offset, 0), ByteOf(offset, 1);
      memory[at + 3], memory[at + 4] := ByteOf(offset, 2), ByteOf(offset, 3);
      JoinOfBytes(offset);
      OffsetReaches(at, to, offset);
    }

    method Install() returns (e: Error)
      requires Valid()
      modifies this`installed, memory
      ensures Valid() && installed
      ensures e == (if old(installed) then Invalid else Ok) && (!old(installed) ==> memory[src] == 0xE9)
      ensures forall b :: 0 <= b < memory.Length && !(src <= b < src + JMP_SIZE) ==> memory[b] == old(memory[b])
    {
      if installed { return Invalid; }
      MakeJmp(src, dst);
      installed := true;
      return Ok;
    }

    method Remove() returns (e: Error)
      requires Valid()
      modifies this`installed, memory
      ensures Valid() && !installed
      ensures e == if old(installed) then Ok else Invalid
      ensures forall b :: 0 <= b < memory.Length && !(src <= b < src + JMP_SIZE) ==> memory[b] == old(memory[b])
    {
      if !installed { return Invalid; }
      var k := 0;
      while k < JMP_SIZE
        invariant 0 <= k <= JMP_SIZE && |code| == JMP_SIZE
        invariant forall b :: 0 <= b < memory.Length ==> memory[b] == if src <= b < src + k then code[b - src] else old(memory[b])
      {
        memory[src + k] := code[k];
        k := k + 1;
      }
      installed := false;
      assert memory[src..src + JMP_SIZE] == code;
      return Ok;
    }

    /** Where the jump at an address leads, 0 when there is none. */
    method ReadDst(at: nat) returns (to: Word)
      requires at + JMP_SIZE <= memory.Length
      ensures memory[at] != JMP_OPCODE ==> to == 0
      ensures forall d: Word :: JumpAt(memory[..], at, d) ==> to == d
    {
      if memory[at] == JMP_OPCODE {
        return Wrap(Join(memory[at + 1], memory[at + 2], memory[at + 3], memory[at + 4]) + at + JMP_SIZE);
      }
      return 0;
    }

    method Copy(at: nat, to: nat, n: nat)
      requires at + n <= memory.Length && to + n <= memory.Length
      requires to + n <= at || at + n <= to
      modifies memory
      ensures memory[to..to + n] == old(memory[at..at + n])
      ensures forall b :: 0 <= b < memory.Length && !(to <= b < to + n) ==> memory[b] == old(memory[b])
    {
      var k := 0;
      while k < n
        invariant 0 <= k <= n
        invariant memory[to..to + k] == old(memory[at..at + k])
        invariant forall b :: 0 <= b < memory.Length && !(to <= b < to + k) ==> memory[b] == old(memory[b])
      {
        memory[to + k] := memory[at + k];
        assert memory[to..to + k + 1] == memory[to..to + k] + [memory[to + k]];
        k := k + 1;
      }
    }

    /** Subtracts from the operand at an address. */
    method MoveOperand(p: nat, offset: int)
      requires p + 4 <= memory.Length
      modifies memory
      ensures Dword(memory[..], p) == Wrap(old(Dword(memory[..], p)) - offset)
      ensures forall b :: 0 <= b < memory.Length && !(p <= b < p + 4) ==> memory[b] == old(memory[b])
    {
      var moved := Wrap(Join(memory[p], memory[p + 1], memory[p + 2], memory[p + 3]) - offset);
      memory[p], memory[p + 1], memory[p + 2], memory[p + 3] := ByteOf(moved, 0), ByteOf(moved, 1), ByteOf(moved, 2), ByteOf(moved, 3);
      JoinOfBytes(moved);
    }

    /** Copies one instruction and moves its relative operand. */
    method CopyInsn(d: Decoded, at: nat, to: nat)
      requires WellFormed(d) && at + d.length <= memory.Length <= M && to + d.length <= memory.Length
      requires to + d.length <= at || at + d.length <= to
      modifies memory
      ensures Relocated(old(memory[..]), memory[..], d, at, to)
      ensures forall b :: 0 <= b < memory.Length && !(to <= b < to + d.length) ==> memory[b] == old(memory[b])
    {
      hide Dword, Relocated;
      ghost var m := memory[..];
      Copy(at, to, d.length);
      ghost var copied := memory[..];
      assert forall a :: to <= a < to + d.length ==> copied[a] == m[a - to + at] by {
        forall a | to <= a < to + d.length ensures copied[a] == m[a - to + at] {
          assert copied[a] == copied[to..to + d.length][a - to] && m[a - to + at] == m[at..at + d.length][a - to];
        }
      }
      if d.operand > 0 {
        MoveOperand(to + d.operand, to - at);
      }
      IsRelocated(m, copied, memory[..], d, at, to);
    }

    /** Copies whole instructions until the jump's place is covered, and goes back behind them.
        Everything fits the trampoline, and nothing else changes. Fails when the disassembler
        does not know an instruction. */
    method MakeTrampoline(disasm: nat -> Decoded) returns (e: Error, ghost n: nat)
      requires Valid() && !installed && forall a :: WellFormed(disasm(a))
      modifies this`trampolineLen, memory
      ensures Valid() && !installed
      ensures var size := Start(disasm, src, n);
              if e == Ok
              then
                && JMP_SIZE <= size < JMP_SIZE + MAX_INSN_LEN && trampolineLen == size + JMP_SIZE <= trampolineSize
                && (n > 0 ==> Start(disasm, src, n - 1) < JMP_SIZE)
                && AllRelocated(old(memory[..]), memory[..], disasm, src, trampoline, n)
                && JumpAt(memory[..], trampoline + size, src + size)
              else size < JMP_SIZE && disasm(src + size).length == 0
      ensures forall b :: 0 <= b < memory.Length && !(trampoline <= b < trampoline + trampolineSize) ==> memory[b] == old(memory[b])
    {
      hide Relocated, AllRelocated, Start, JumpAt, Target;
      n := 0;
      ghost var m := memory[..];
      var origSize := 0;
      NoneYet(m, disasm, src, trampoline);
      while origSize < JMP_SIZE
        invariant origSize == Start(disasm, src, n) && origSize < JMP_SIZE + MAX_INSN_LEN
        invariant n > 0 ==> Start(disasm, src, n - 1) < JMP_SIZE
        invariant AllRelocated(m, memory[..], disasm, src, trampoline, n)
        invariant forall b :: 0 <= b < memory.Length && !(trampoline <= b < trampoline + origSize) ==> memory[b] == m[b]
        decreases JMP_SIZE - origSize
      {
        var d := disasm(src + origSize);
        if d.length == 0 {
          assert memory[src..src + JMP_SIZE] == m[src..src + JMP_SIZE];
          return Invalid, n;
        }
        ghost var before := memory[..];
        CopyInsn(d, src + origSize, trampoline + origSize);
        AllStep(m, before, memory[..], disasm, src, trampoline, n);
        origSize := origSize + d.length;
        n := n + 1;
      }
      trampolineLen := origSize + JMP_SIZE;
      ghost var before := memory[..];
      MakeJmp(trampoline + origSize, src + origSize);
      AllKept(m, before, memory[..], disasm, src, trampoline, n);
      assert memory[src..src + JMP_SIZE] == m[src..src + JMP_SIZE];
      e := Ok;
    }
  }

  lemma NoneYet(m: seq<Byte>, disasm: nat -> Decoded, src: nat, trampoline: nat)
    ensures Start(disasm, src, 0) == 0 && AllRelocated(m, m, disasm, src, trampoline, 0)
  {
  }

  lemma NextStart(disasm: nat -> Decoded, src: nat, n: nat)
    ensures Start(disasm, src, n + 1) == Start(disasm, src, n) + disasm(src + Start(disasm, src, n)).length
  {
  }

  lemma {:induction false} SameSource(m: seq<Byte>, before: seq<Byte>, now: seq<Byte>, d: Decoded, from: nat, to: nat)
    requires |m| == |before| == |now| && Relocated(before, now, d, from, to)
    requires forall a :: from <= a < from + d.length ==> before[a] == m[a]
    ensures Relocated(m, now, d, from, to)
  {
  }
}
