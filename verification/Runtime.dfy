/** The code around the compiled program: Exec, which the host and native functions call;
    ExecHelper, which switches to the AMX stack and back; and SysreqDHelper, which calls a
    native function. Sleep support is switched off. */
module Runtime {
  import opened Word32
  import opened X86
  import opened Emit

  const AMX_ERR_NONE: Word := 0
  const AMX_ERR_STACKERR: Word := 3
  const AMX_ERR_STACKLOW: Word := 7
  const AMX_ERR_HEAPLOW: Word := 8
  const AMX_ERR_NOTFOUND: Word := 19
  const AMX_ERR_INDEX: Word := 20
  const AMX_FLAG_NTVREG: Word := 0x1000

  /** A local variable or an argument of Exec. */
  function Local(k: int): Opd { Mm(At(EBP, Wrap(k))) }

  // Distances of Exec's return_label, and of its error exits, from its start.
  const EXEC_RETURN := 66
  const EXEC_STACKERR := 71
  const EXEC_HEAPLOW := 73
  const EXEC_STACKLOW := 75
  const EXEC_NOTFOUND := 77
  const EXEC_INDEX := 79

  const EXEC_PROLOGUE: seq<Insn> :=
    [Push(R(EBP)), Mov(R(EBP), R(ESP)), Alu(SubOp, R(ESP), I(20)), Push(R(ESI)),
     Mov(R(ESI), Mm(Rib(RibAmx))), Push(R(EBX)), Mov(R(EBX), Mm(Amx(ESI, AData)))]

  const EXEC_DATA: seq<Insn> :=
    [Test(EBX, R(EBX)), Jcc(NE, Skip(3)),
     Mov(R(EBX), Mm(Amx(ESI, ABase))), Mov(R(EAX), Mm(Hdr(EBX, HDat))), Alu(AddOp, R(EBX), R(EAX))]

  /** Compares two fields of the AMX structure and leaves on a condition. */
  function Check(f: AmxField, g: AmxField, c: Cond, at: int, exit: int): seq<Insn> {
    [Mov(R(ECX), Mm(Amx(ESI, f))), Mov(R(EDX), Mm(Amx(ESI, g))), Cmp(ECX, R(EDX)), Jcc(c, Skip(exit - (at + 4)))]
  }

  const EXEC_CHECKS: seq<Insn> :=
    Check(AHea, AStk, GE, 12, EXEC_STACKERR)
    + (Check(AStk, AStp, G, 16, EXEC_STACKLOW)
    + (Check(AHea, AHlw, L, 20, EXEC_HEAPLOW)
    + [Mov(R(ECX), Mm(Amx(ESI, AFlags))), Test(ECX, I(AMX_FLAG_NTVREG)), Jcc(E, Skip(EXEC_NOTFOUND - 27))]))

  const EXEC_LOOKUP: seq<Insn> :=
    [Mov(Mm(Amx(ESI, AError)), I(AMX_ERR_NONE)), Push(Local(8)), Mov(R(EAX), Mm(Rib(RibAmx))), Push(R(EAX)),
     CallGetPublicAddress, Alu(AddOp, R(ESP), I(8)), Test(EAX, R(EAX)), Jcc(E, Skip(EXEC_INDEX - 35)),
     Mov(R(ECX), RibStart), Push(R(ECX)), Push(R(EAX)), CallGetJITInstrPtr, Alu(AddOp, R(ESP), I(8)),
     Mov(Local(-4), R(EAX))]

  const EXEC_SAVE: seq<Insn> :=
    [Mov(R(EAX), Mm(Rib(RibResetEbp))), Mov(Local(-8), R(EAX)),
     Mov(R(EAX), Mm(Rib(RibResetEsp))), Mov(Local(-12), R(EAX)),
     Mov(R(EAX), Mm(Rib(RibResetStk))), Mov(Local(-16), R(EAX)),
     Mov(R(EAX), Mm(Rib(RibResetHea))), Mov(Local(-20), R(EAX)),
     Push(Local(-4)), Call(ToHelper(ExecHelper)), Alu(AddOp, R(ESP), I(4))]

  const EXEC_RESULT: seq<Insn> :=
    [Mov(R(ECX), Local(12)), Test(ECX, R(ECX)), Jcc(E, Skip(1)), Mov(Mm(At(ECX, 0)), R(EAX))]

  const EXEC_RESTORE: seq<Insn> :=
    [Mov(R(EAX), Local(-8)), Mov(Mm(Rib(RibResetEbp)), R(EAX)),
     Mov(R(EAX), Local(-12)), Mov(Mm(Rib(RibResetEsp)), R(EAX)),
     Mov(R(EAX), Local(-16)), Mov(Mm(Rib(RibResetStk)), R(EAX)),
     Mov(R(EAX), Local(-20)), Mov(Mm(Rib(RibResetHea)), R(EAX)),
     Mov(R(EAX), I(AMX_ERR_NONE)), Xchg(Mm(Amx(ESI, AError)), EAX)]

  const EXEC_EPILOGUE: seq<Insn> := [Pop(R(EBX)), Pop(R(ESI)), Mov(R(ESP), R(EBP)), Pop(R(EBP)), Ret]

  function ErrorExit(code: Word, at: int): seq<Insn> {
    [Mov(R(EAX), I(code)), Jmp(Skip(EXEC_RETURN - (at + 2)))]
  }

  const EXEC_ERRORS: seq<Insn> :=
    ErrorExit(AMX_ERR_STACKERR, EXEC_STACKERR)
    + (ErrorExit(AMX_ERR_HEAPLOW, EXEC_HEAPLOW)
    + (ErrorExit(AMX_ERR_STACKLOW, EXEC_STACKLOW)
    + (ErrorExit(AMX_ERR_NOTFOUND, EXEC_NOTFOUND)
    + ErrorExit(AMX_ERR_INDEX, EXEC_INDEX))))

  const EXEC: seq<Insn> :=
    EXEC_PROLOGUE + (EXEC_DATA + (EXEC_CHECKS + (EXEC_LOOKUP + (EXEC_SAVE + (EXEC_RESULT
    + (EXEC_RESTORE + (EXEC_EPILOGUE + EXEC_ERRORS)))))))

  // ---- ExecHelper ----------------------------------------------------------------------

  const HELPER_SAVE: seq<Insn> :=
    [Mov(R(EAX), Mm(At(ESP, 4))), Push(R(ESI)), Push(R(EDI)), Push(Mm(Rib(RibEbp))), Push(Mm(Rib(RibEsp))),
     Push(Mm(Rib(RibAmxEbp))), Push(Mm(Rib(RibAmxEsp)))]

  const HELPER_PARAMS: seq<Insn> :=
    [Mov(R(ECX), Mm(Rib(RibAmx))), Mov(R(EDX), Mm(Amx(ECX, AHea))), Mov(Mm(Rib(RibResetHea)), R(EDX)),
     Mov(R(ESI), Mm(Amx(ECX, AParamCount))), IMul2(ESI, I(4)), Mov(R(EDX), Mm(Amx(ECX, AStk))),
     Lea(EDI, Index(EDX, ESI, 0)), Mov(Mm(Rib(RibResetStk)), R(EDI)), Alu(SubOp, R(EDX), I(4)),
     Mov(Mm(Index(EBX, EDX, 0)), R(ESI)), Mov(Mm(Amx(ECX, AParamCount)), I(0))]

  const HELPER_SWITCH: seq<Insn> :=
    [Mov(Mm(Rib(RibEsp)), R(ESP)), Alu(AddOp, R(EDX), R(EBX)), Mov(Mm(Rib(RibAmxEsp)), R(EDX)), Mov(R(ESP), R(EDX)),
     Mov(Mm(Rib(RibEbp)), R(EBP)), Mov(R(EDX), Mm(Amx(ECX, AFrm))), Alu(AddOp, R(EDX), R(EBX)),
     Mov(Mm(Rib(RibAmxEbp)), R(EDX)), Mov(R(EBP), R(EDX)), Lea(ECX, At(ESP, M - 4)), Mov(Mm(Rib(RibResetEsp)), R(ECX)),
     Mov(Mm(Rib(RibResetEbp)), R(EBP)), CallReg(EAX)]

  /** The part behind the call of the compiled code, at call_return_label. */
  const HELPER_SYNC: seq<Insn> :=
    [Mov(R(ESI), Mm(Rib(RibAmx))), Mov(R(EDI), Mm(Amx(ESI, AError))), Mov(Mm(Amx(ESI, APri)), R(EAX)),
     Mov(Mm(Amx(ESI, AAlt)), R(ECX)), Mov(R(EDX), R(EBP)), Alu(SubOp, R(EDX), R(EBX)), Mov(Mm(Amx(ESI, AFrm)), R(EDX)),
     Mov(R(EDX), R(ESP)), Alu(SubOp, R(EDX), R(EBX)), Mov(Mm(Amx(ESI, AStk)), R(EDX))]

  /** At exec_exit_label. */
  const HELPER_EXIT: seq<Insn> :=
    [Mov(Mm(Rib(RibAmxEbp)), R(EBP)), Mov(R(EBP), Mm(Rib(RibEbp))), Mov(Mm(Rib(RibAmxEsp)), R(ESP)),
     Mov(R(ESP), Mm(Rib(RibEsp))), Pop(Mm(Rib(RibAmxEsp))), Pop(Mm(Rib(RibAmxEbp))), Pop(Mm(Rib(RibEsp))),
     Pop(Mm(Rib(RibEbp))), Pop(R(EDI)), Pop(R(ESI)), Ret]

  const HELPER_RETURN := 31
  const HELPER_EXIT_AT := 41

  const EXEC_HELPER: seq<Insn> :=
    HELPER_SAVE + (HELPER_PARAMS + (HELPER_SWITCH + (HELPER_SYNC + HELPER_EXIT)))

  // ---- SysreqDHelper -------------------------------------------------------------------

  const SYSREQ_ENTER: seq<Insn> :=
    [Mov(R(EDX), Mm(Rib(RibAmx))), Pop(R(ESI)), Pop(R(EAX)), Lea(EDI, At(ESP, 0)), Mov(Mm(Rib(RibAmxEbp)), R(EBP)),
     Alu(SubOp, R(EBP), R(EBX)), Mov(Mm(Amx(EDX, AFrm)), R(EBP)), Mov(R(EBP), Mm(Rib(RibEbp))),
     Mov(Mm(Rib(RibAmxEsp)), R(ESP)), Alu(SubOp, R(ESP), R(EBX)), Mov(Mm(Amx(EDX, AStk)), R(ESP)),
     Mov(R(ESP), Mm(Rib(RibEsp))), Push(Mm(Rib(RibAmxEsp))), Push(Mm(Rib(RibAmxEbp))), Push(R(ECX)), Push(R(EDI)),
     Push(R(EDX)), CallReg(EAX)]

  const SYSREQ_LEAVE: seq<Insn> :=
    [Alu(AddOp, R(ESP), I(8)), Pop(R(ECX)), Pop(R(EDX)), Mov(R(EBP), R(EDX)), Pop(R(EDX)), Mov(R(ESP), R(EDX)),
     Mov(R(EDX), Mm(Rib(RibAmx))), Mov(R(EDI), Mm(Amx(EDX, AError))), Cmp(EDI, I(AMX_ERR_NONE)), Jcc(NE, Skip(2)),
     Push(R(ESI)), Ret, Call(ToHelper(HaltHelper))]

  const SYSREQ_D_HELPER: seq<Insn> := SYSREQ_ENTER + SYSREQ_LEAVE

  // ---- where they lie --------------------------------------------------------------------

  lemma Lengths()
    ensures |EXEC_CHECKS| == 15 && |EXEC_ERRORS| == 10
    ensures |EXEC| == 81 && |EXEC_HELPER| == 52 && |SYSREQ_D_HELPER| == 31 && |JUMP_LOOKUP| == 10 && |JUMP_HELPER| == 9 && |HALT_HELPER| == 14
  {
  }
}
