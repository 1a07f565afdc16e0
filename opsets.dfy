/** The opcode groups the printer dispatches on, and the shape the
    disassembler guarantees for the instructions it decodes. Each group is
    the membership test of the source's constant set of the same name. */
module OpSets {
  import opened Capstone

  /** `ASSIGNMENT_OPS`: bitwise and shift instructions that assign their
      result to their first operand (fused with a following jump, they
      test that result). */
  predicate AssignmentOp(op: Opcode)
  {
    op in {XOR, AND, OR, SAR, SAL, SHR, SHL}
  }

  /** `JMP_ADD_ZERO`: conditional jumps whose condition compares against an
      implicit zero (`jns ADDR` reads `if > 0`). */
  predicate JmpAddZero(op: Opcode)
  {
    op in {JNS, JS, JP, JNP, JCXZ, JECXZ, JRCXZ}
  }

  /** `INST_CHECK`: instructions printed as an assignment or an operator
      form. */
  predicate InstCheck(op: Opcode)
  {
    op in {SUB, ADD, MOV, CMP, XOR, AND, SHR, SHL, IMUL, SAR, SAL, MOVZX,
           DEC, INC, LEA, MOVSX, OR}
  }

  predicate InstStos(op: Opcode) { op in {STOSB, STOSW, STOSD, STOSQ} }
  predicate InstLods(op: Opcode) { op in {LODSB, LODSW, LODSD, LODSQ} }
  predicate InstMovs(op: Opcode) { op in {MOVSB, MOVSW, MOVSD, MOVSQ} }
  predicate InstCmps(op: Opcode) { op in {CMPSB, CMPSW, CMPSD, CMPSQ} }
  predicate InstScas(op: Opcode) { op in {SCASB, SCASW, SCASD, SCASQ} }

  /** `REP_PREFIX`: the two prefixes that make a string instruction repeat. */
  predicate RepPrefix(p: int) { p in {PREFIX_REPNE, PREFIX_REP} }

  predicate IsStringOp(op: Opcode)
  {
    InstStos(op) || InstLods(op) || InstMovs(op) || InstCmps(op) || InstScas(op)
  }

  /** How the groups relate: every `ASSIGNMENT_OPS` instruction is also in
      `INST_CHECK`, the five string groups are disjoint from `INST_CHECK`
      and from each other, and `JMP_ADD_ZERO` holds conditional jumps
      only. */
  lemma GroupsRelate(op: Opcode)
    ensures AssignmentOp(op) ==> InstCheck(op)
    ensures IsStringOp(op) ==> !InstCheck(op)
    ensures JmpAddZero(op) ==> IsCondJump(op) && !IsUncondJump(op)
    ensures InstStos(op) ==> !InstLods(op) && !InstMovs(op) && !InstCmps(op) && !InstScas(op)
    ensures InstLods(op) ==> !InstMovs(op) && !InstCmps(op) && !InstScas(op)
    ensures InstMovs(op) ==> !InstCmps(op) && !InstScas(op)
    ensures InstCmps(op) ==> !InstScas(op)
  {
  }

  /** The operand counts and widths the decoder produces for the opcodes
      the printer indexes into without checking: the prefix array is never
      empty, and each operand the printer reads exists. */
  predicate WellFormed(i: Inst)
  {
    |i.prefix| > 0 &&
    (IsCall(i.id) || IsJump(i.id) || i.id in {INC, DEC, IDIV, MUL, NOT} ==> |i.operands| >= 1) &&
    ((InstCheck(i.id) && i.id !in {INC, DEC, IMUL}) || IsStringOp(i.id) ==> |i.operands| >= 2) &&
    (i.id == MUL ==> i.operands[0].size in {1, 2, 4, 8})
  }
}
