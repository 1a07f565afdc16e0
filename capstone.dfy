/** The decoded instruction as the disassembler library hands it over.
    Only the fields and identifiers that the pseudo-C printer looks at are
    kept: the register file, the opcode identities it tests, the operand
    variants and the first prefix byte. */
module Capstone {

  /** Register identities. The four registers the printer compares against
      are named; every other register is an opaque identity. */
  datatype Reg = RBP | EBP | RIP | EIP | OtherReg(id: nat)

  /** Opcode identities. Every identity the printer tests is named; any
      other instruction is `OtherInsn`. */
  datatype Opcode =
    | ADD | AND | CMP | DEC | IDIV | IMUL | INC | MOV | SHL | SHR | SUB | XOR
    | CDQE | LEA | MOVSX | OR | NOT | TEST | MUL | SAR | SAL | MOVZX
    | STOSB | STOSW | STOSD | STOSQ
    | MOVSB | MOVSW | MOVSD | MOVSQ
    | LODSB | LODSW | LODSD | LODSQ
    | CMPSB | CMPSW | CMPSD | CMPSQ
    | SCASB | SCASW | SCASD | SCASQ
    | JNS | JS | JP | JNP | JCXZ | JECXZ | JRCXZ
    | JA | JAE | JB | JBE | JE | JNE | JG | JGE | JL | JLE | JO | JNO
    | JMP | CALL | RET
    | OtherInsn(id: nat)

  /** A memory operand: `segment:[base + index*scale + disp]`, where an
      absent register is the library's "invalid" register. */
  datatype MemOp = MemOp(base: Option<Reg>, index: Option<Reg>, segment: Option<Reg>,
                         scale: int, disp: int)

  datatype Option<T> = None | Some(value: T)

  /** The four operand types the printer distinguishes. */
  datatype OpKind = Imm(imm: int) | Reg(reg: Reg) | Fp(fp: real) | Mem(mem: MemOp)

  /** An operand together with its width in bytes. */
  datatype Operand = Operand(kind: OpKind, size: nat)

  /** A decoded instruction: its address and length in bytes, its opcode
      identity, the mnemonic and operand text of the assembler syntax, the
      operand list and the prefix bytes (the first one is the REP group). */
  datatype Inst = Inst(address: int, size: nat, id: Opcode, mnemonic: string,
                       opStr: string, operands: seq<Operand>, prefix: seq<int>)

  const PREFIX_REP := 0xF3
  const PREFIX_REPNE := 0xF2

  /** The instruction classes the printer asks about before dispatching on
      the opcode identity. */
  predicate IsRet(op: Opcode) { op == RET }

  predicate IsCall(op: Opcode) { op == CALL }

  predicate IsUncondJump(op: Opcode) { op == JMP }

  predicate IsCondJump(op: Opcode)
  {
    op in {JNS, JS, JP, JNP, JCXZ, JECXZ, JRCXZ,
           JA, JAE, JB, JBE, JE, JNE, JG, JGE, JL, JLE, JO, JNO}
  }

  predicate IsJump(op: Opcode) { IsUncondJump(op) || IsCondJump(op) }
}
