/** The printer of the x86 back end (`class Output` of
    lib/arch/x86/output.py). It prints by appending to its output buffer,
    one token per sink call, and every method is proved to append exactly
    what the rendering functions of the other modules describe. */
module X86Output {
  import opened Capstone
  import opened PyFormat
  import opened Sink
  import opened Lookups
  import opened OpSets
  import OperandSpec
  import ConditionSpec
  import RepSpec
  import DispatchSpec

  /** Pieces appended one after the other, regrouped. */
  lemma Regroup(b: seq<Token>, x: seq<Token>, y: seq<Token>, z: seq<Token>)
    ensures b + x + y + z == b + (x + y + z)
  {
  }

  lemma Assoc(a: seq<Token>, b: seq<Token>, c: seq<Token>)
    ensures a + b + c == a + (b + c)
  {
  }

  class Output {
    /** The loaded binary and the analysis context, read-only while printing. */
    const ctx: Ctx
    /** Everything printed so far. */
    var buf: seq<Token>

    constructor (c: Ctx)
      ensures ctx == c && buf == []
    {
      ctx := c;
      buf := [];
    }

    /** One sink call: its token goes at the end of the buffer. */
    method Add(t: Token)
      modifies this
      ensures buf == old(buf) + [t]
    {
      buf := buf + [t];
    }

    /** `_operand(i, k, hexa, show_deref)`: prints operand `k` and returns
        whether the printed text differs from the assembler syntax. */
    method Operand(i: Inst, k: nat, hexa: bool, showDeref: bool) returns (modified: bool)
      requires k < |i.operands|
      modifies this
      ensures buf == old(buf) + OperandSpec.OperandOut(ctx, i, k, hexa, showDeref).toks
      ensures modified == OperandSpec.OperandOut(ctx, i, k, hexa, showDeref).modified
    {
      var op := i.operands[k];
      match op.kind {
        case Imm(imm) =>
          modified := ImmOperand(imm, op.size, hexa);
        case Reg(reg) =>
          Add(RegName(reg));
          modified := false;
        case Fp(x) =>
          Add(FpText(x));
          modified := false;
        case Mem(m) =>
          MemOperand(i, k, m, showDeref);
          modified := true;
      }
    }

    /** The immediate branch of `_operand`. */
    method ImmOperand(imm: int, size: nat, hexa: bool) returns (modified: bool)
      modifies this
      ensures buf == old(buf) + OperandSpec.ImmOperand(ctx, imm, size, hexa).toks
      ensures modified == OperandSpec.ImmOperand(ctx, imm, size, hexa).modified
    {
      var (secName, isData) := IsAddress(ctx, imm);
      if secName.Some? {
        AddressOperand(imm);
        modified := imm in ctx.reverseSymbols || imm in ctx.labels;
      } else if size == 1 {
        Add(CharLit(imm));
        modified := false;
      } else if hexa {
        Add(Text(HexString(imm)));
        modified := false;
      } else {
        modified := DecimalOperand(imm, size);
      }
    }

    /** A plain immediate in decimal, with its string preview. */
    method DecimalOperand(imm: int, size: nat) returns (modified: bool)
      modifies this
      ensures buf == old(buf) + OperandSpec.DecimalImm(ctx, imm, size).toks
      ensures modified == OperandSpec.DecimalImm(ctx, imm, size).modified
    {
      Add(Text(DecimalString(imm)));
      if imm > 0 {
        if size == 4 || size == 8 {
          var packed := LeBytes(imm, size);
          if OperandSpec.AllPrintable(ctx, packed) {
            Add(Str(OperandSpec.Preview(packed)));
            return false;
          }
        } else {
          return false;
        }
      }
      // capstone prints immediates in hex, so the decimal form is a change
      modified := true;
    }

    /** An immediate that lies in a section: section name, symbol, label or
        raw hex, then the data preview. */
    method AddressOperand(imm: int)
      requires IsAddress(ctx, imm).0.Some?
      modifies this
      ensures buf == old(buf) + OperandSpec.AddressImm(ctx, imm).toks
    {
      ghost var b0 := buf;
      SectionPrefix(imm);
      var named := NameParts(imm);
      if !named {
        Add(Text(HexString(imm)));
      }
      ghost var p0 := OperandSpec.SectionPrefix(ctx, imm);
      ghost var p1 := OperandSpec.NameParts(ctx, imm);
      ghost var p2 := OperandSpec.RawHex(imm, named);
      assert buf == b0 + p0 + p1 + p2;
      Regroup(b0, p0, p1, p2);
      DataPreview(imm);
      Assoc(b0, p0 + p1 + p2, OperandSpec.DataPreview(ctx, imm));
    }

    /** The `(section) ` prefix, when section names are shown. */
    method SectionPrefix(imm: int)
      requires IsAddress(ctx, imm).0.Some?
      modifies this
      ensures buf == old(buf) + OperandSpec.SectionPrefix(ctx, imm)
    {
      if ctx.sectionsName {
        var (secName, _) := IsAddress(ctx, imm);
        Add(Text("("));
        Add(SectionName(secName.value));
        Add(Text(") "));
      }
    }

    /** The symbol and the label of an address, each when it has one;
        returns whether either was printed. */
    method NameParts(imm: int) returns (named: bool)
      modifies this
      ensures buf == old(buf) + OperandSpec.NameParts(ctx, imm)
      ensures named == (imm in ctx.reverseSymbols || imm in ctx.labels)
    {
      named := false;
      if imm in ctx.reverseSymbols {
        Add(Symbol(imm));
        Add(Text(" "));
        named := true;
      }
      if imm in ctx.labels {
        Add(Label(imm));
        Add(Text(" "));
        named := true;
      }
    }

    /** The string an address into data points to, when it is not empty. */
    method DataPreview(imm: int)
      modifies this
      ensures buf == old(buf) + OperandSpec.DataPreview(ctx, imm)
    {
      var (_, isData) := IsAddress(ctx, imm);
      if isData {
        var s := GetString(ctx, imm);
        if s != EMPTY_QUOTED {
          Add(Text(" "));
          Add(Str(s));
        }
      }
    }

    /** The memory branch of `_operand`: the stack variable or the
        RIP-relative target, or the general address expression. */
    method MemOperand(i: Inst, k: nat, m: MemOp, showDeref: bool)
      modifies this
      ensures buf == old(buf) + OperandSpec.MemOperand(ctx, i, k, m, showDeref).toks
    {
      if OperandSpec.BaseDispOnly(m) && OperandSpec.IsFrameReg(m.base.value) &&
         (i.address, k) in ctx.varNames {
        Add(Variable(ctx.varNames[(i.address, k)]));
      } else if OperandSpec.BaseDispOnly(m) && OperandSpec.IsIpReg(m.base.value) {
        var addr := i.address + i.size + m.disp;
        Add(Text("*("));
        if addr in ctx.reverseSymbols {
          Add(Symbol(addr));
        } else {
          Add(Text(HexString(addr)));
        }
        Add(Text(")"));
      } else {
        GeneralMem(m, showDeref);
      }
    }

    /** The general memory operand: `*(` base + index + disp `)`. */
    method GeneralMem(m: MemOp, showDeref: bool)
      modifies this
      ensures buf == old(buf) + OperandSpec.GeneralMemOperand(ctx, m, showDeref).toks
    {
      ghost var b0 := buf;
      ghost var open: seq<Token> := if showDeref then [Text("*(")] else [];
      ghost var close: seq<Token> := if showDeref then [Text(")")] else [];
      if showDeref {
        Add(Text("*("));
      }
      assert buf == b0 + open;
      MemBody(m);
      ghost var b2 := buf;
      if showDeref {
        Add(Text(")"));
      }
      assert buf == b2 + close;
      Regroup(b0, open, OperandSpec.MemBody(ctx, m), close);
    }

    /** The address expression: each term in turn, with `printed`
        recording whether a term has been printed yet. */
    method MemBody(m: MemOp)
      modifies this
      ensures buf == old(buf) + OperandSpec.MemBody(ctx, m)
    {
      ghost var b1 := buf;
      ghost var p1 := OperandSpec.BasePart(m);
      var printed := BaseTerm(m);
      ghost var p2 := OperandSpec.IndexPart(m, p1 != []);
      printed := IndexTerm(m, printed);
      ghost var p3 := OperandSpec.DispPart(ctx, m, p1 + p2 != []);
      assert printed == (p1 + p2 != []);
      DispTerm(m, printed);
      Regroup(b1, p1, p2, p3);
    }

    /** The base register, or the segment register when there is no base. */
    method BaseTerm(m: MemOp) returns (printed: bool)
      modifies this
      ensures buf == old(buf) + OperandSpec.BasePart(m)
      ensures printed == (OperandSpec.BasePart(m) != [])
    {
      printed := false;
      if m.base.Some? {
        Add(RegName(m.base.value));
        printed := true;
      } else if m.segment.Some? {
        Add(RegName(m.segment.value));
        printed := true;
      }
    }

    /** The index term, after `" + "` when a term came before. */
    method IndexTerm(m: MemOp, printed: bool) returns (printed': bool)
      modifies this
      ensures buf == old(buf) + OperandSpec.IndexPart(m, printed)
      ensures printed' == (printed || OperandSpec.IndexPart(m, printed) != [])
    {
      printed' := printed;
      if m.index.Some? {
        if printed {
          Add(Text(" + "));
        }
        if m.scale == 1 {
          Add(RegName(m.index.value));
        } else {
          Add(ScaledIndex(m.index.value, m.scale));
        }
        printed' := true;
      }
    }

    /** The displacement term. */
    method DispTerm(m: MemOp, printed: bool)
      modifies this
      ensures buf == old(buf) + OperandSpec.DispPart(ctx, m, printed)
    {
      if m.disp != 0 {
        var (secName, _) := IsAddress(ctx, m.disp);
        if secName.Some? {
          if printed {
            Add(Text(" + "));
          }
          if m.disp in ctx.reverseSymbols {
            Add(Symbol(m.disp));
          } else {
            Add(Text(HexString(m.disp)));
          }
        } else if printed {
          if m.disp < 0 {
            Add(Text(" - " + DecimalString(-m.disp)));
          } else {
            Add(Text(" + " + DecimalString(m.disp)));
          }
        }
      }
    }

    /** `_if_cond(jump_cond, fused_inst)`. */
    method IfCond(jumpCond: Opcode, fused: Option<Inst>)
      requires fused.Some? ==> ConditionSpec.FusableShape(fused.value)
      modifies this
      ensures buf == old(buf) + ConditionSpec.IfCond(ctx, jumpCond, fused)
    {
      if fused.None? {
        Add(CondSym(jumpCond));
        if JmpAddZero(jumpCond) {
          Add(Text(" 0"));
        }
        return;
      }
      OperandSpec.OperandViewsRender(ctx, fused.value);
      FusedCond(jumpCond, fused.value, OperandSpec.OperandViews(ctx, fused.value));
    }

    /** `_if_cond` with a fused instruction `f` whose operands print as `v`. */
    method FusedCond(jumpCond: Opcode, f: Inst, ghost v: OperandSpec.Views)
      requires ConditionSpec.FusableShape(f) && OperandSpec.Renders(ctx, f, v)
      modifies this
      ensures buf == old(buf) + ConditionSpec.FusedCond(jumpCond, f, v)
    {
      ghost var b0 := buf;
      var assignment := AssignmentOp(f.id);
      if assignment {
        Add(Text("("));
      }
      Add(Text("("));
      ghost var p0 := (if AssignmentOp(f.id) then [Text("(")] else []) + [Text("(")];
      assert buf == b0 + p0;
      ghost var b1 := buf;
      FusedComparison(jumpCond, f, v);
      ghost var p1 := ConditionSpec.FusedComparison(jumpCond, f, v);
      ghost var b2 := buf;
      if f.id == TEST || (f.id != CMP && (JmpAddZero(jumpCond) || assignment)) {
        Add(Text(" 0"));
      }
      Add(Text(")"));
      ghost var zero := if ConditionSpec.AddsZero(jumpCond, f.id) then [Text(" 0")] else [];
      ghost var p2 := zero + [Text(")")];
      assert buf == b2 + p2;
      Regroup(b0, p0, p1, p2);
      Assoc(p0 + p1, zero, [Text(")")]);
    }

    /** The comparison inside a fused condition: the first operand, then
        the jump's symbol and the second operand, or for an assignment the
        operation it performs in parentheses before the jump's symbol. */
    method FusedComparison(jumpCond: Opcode, f: Inst, ghost v: OperandSpec.Views)
      requires ConditionSpec.FusableShape(f) && OperandSpec.Renders(ctx, f, v)
      modifies this
      ensures buf == old(buf) + ConditionSpec.FusedComparison(jumpCond, f, v)
    {
      ghost var b0 := buf;
      var m0 := ShownOperand(f, 0, v);
      Add(Text(" "));
      ghost var p0 := OperandSpec.Op(v, 0) + [Text(" ")];
      assert buf == b0 + p0;
      ghost var b1 := buf;
      ghost var p1: seq<Token>;
      if f.id == TEST {
        Add(CondSym(jumpCond));
        p1 := [CondSym(jumpCond)];
      } else if AssignmentOp(f.id) {
        FusedAssignment(jumpCond, f, v);
        p1 := [InstSym(f.id), Text(" ")] + OperandSpec.Op(v, 1) + [Text(") "), CondSym(jumpCond)];
      } else {
        Add(CondSym(jumpCond));
        Add(Text(" "));
        assert buf == b1 + [CondSym(jumpCond), Text(" ")];
        var m1 := ShownOperand(f, 1, v);
        p1 := [CondSym(jumpCond), Text(" ")] + OperandSpec.Op(v, 1);
        Assoc(b1, [CondSym(jumpCond), Text(" ")], OperandSpec.Op(v, 1));
      }
      assert buf == b1 + p1;
      Assoc(b0, p0, p1);
    }

    /** A fused assignment: the operation it performs, closed before the
        jump's symbol. */
    method FusedAssignment(jumpCond: Opcode, f: Inst, ghost v: OperandSpec.Views)
      requires |f.operands| >= 2 && OperandSpec.Renders(ctx, f, v)
      modifies this
      ensures buf == old(buf) + [InstSym(f.id), Text(" ")] + OperandSpec.Op(v, 1) + [Text(") "), CondSym(jumpCond)]
    {
      ghost var b0 := buf;
      Add(InstSym(f.id));
      Add(Text(" "));
      var m1 := ShownOperand(f, 1, v);
      Add(Text(") "));
      Add(CondSym(jumpCond));
      Regroup(b0, [InstSym(f.id), Text(" ")], OperandSpec.Op(v, 1), [Text(") "), CondSym(jumpCond)]);
    }

    /** `_rep_begin(i, tab)`: opens the loop of a REP-prefixed instruction
        and returns the depth of its body. */
    method RepBegin(i: Inst, tab: int) returns (inner: int)
      requires |i.prefix| > 0
      modifies this
      ensures buf == old(buf) + RepSpec.RepBegin(i, tab).0
      ensures inner == RepSpec.RepBegin(i, tab).1
    {
      inner := tab;
      if RepPrefix(i.prefix[0]) {
        Add(Tabs(inner));
        Add(Keyword("while"));
        Add(Text(" (!rcx)) {"));
        Add(NewLine);
        inner := inner + 1;
      }
    }

    /** `_rep_end(i, tab)`: closes the loop opened by `RepBegin`. */
    method RepEnd(i: Inst, tab: int)
      requires |i.prefix| > 0
      modifies this
      ensures buf == old(buf) + RepSpec.RepEnd(i, tab)
    {
      if RepPrefix(i.prefix[0]) {
        ghost var b0 := buf;
        Add(NewLine);
        Add(LabelOrAddress(i.address, tab, true));
        Add(Text("rcx--"));
        Add(NewLine);
        ghost var p0 := [NewLine, LabelOrAddress(i.address, tab, true), Text("rcx--"), NewLine];
        assert buf == b0 + p0;
        ghost var b1 := buf;
        if i.prefix[0] == PREFIX_REPNE {
          Add(Tabs(tab));
          Add(Keyword("if"));
          Add(Text(" (!Z) "));
          Add(Keyword("break"));
          Add(NewLine);
        }
        ghost var p1 := if i.prefix[0] == PREFIX_REPNE
          then [Tabs(tab), Keyword("if"), Text(" (!Z) "), Keyword("break"), NewLine] else [];
        assert buf == b1 + p1;
        var outer := tab - 1;
        Add(Tabs(outer));
        Add(Text("}"));
        Regroup(b0, p0, p1, [Tabs(tab - 1), Text("}")]);
      }
    }

    /** Operand `k` of `i`, printed by `Operand`, where `v` holds what the
        operand printer gives for `i`: the dispatcher's view of the same call. */
    method OperandOf(i: Inst, k: nat, hexa: bool, showDeref: bool, ghost v: OperandSpec.Views)
        returns (modified: bool)
      requires k < |i.operands| && OperandSpec.Renders(ctx, i, v) && (hexa ==> showDeref)
      modifies this
      ensures var r := if hexa then v.hexa[k] else if showDeref then v.shown[k] else v.bare[k];
              buf == old(buf) + r.toks && modified == r.modified
    {
      modified := Operand(i, k, hexa, showDeref);
    }

    /** `_operand(i, k)` with its defaults: the operand as an expression. */
    method ShownOperand(i: Inst, k: nat, ghost v: OperandSpec.Views) returns (modified: bool)
      requires k < |i.operands| && OperandSpec.Renders(ctx, i, v)
      modifies this
      ensures buf == old(buf) + OperandSpec.Op(v, k) && modified == v.shown[k].modified
    {
      modified := Operand(i, k, false, true);
    }

    /** `_operand(i, k, show_deref=False)`: a string instruction's pointer. */
    method PointerOperand(i: Inst, k: nat, ghost v: OperandSpec.Views) returns (modified: bool)
      requires k < |i.operands| && OperandSpec.Renders(ctx, i, v)
      modifies this
      ensures buf == old(buf) + OperandSpec.Ptr(v, k) && modified == v.bare[k].modified
    {
      modified := Operand(i, k, false, false);
    }

    /** `__sub_asm_inst(i, tab)`, where `v` holds what the operand printer
        gives for `i`: prints the instruction and returns whether it was
        rewritten. */
    method SubAsmInst(i: Inst, tab: int, ghost v: OperandSpec.Views) returns (modified: bool)
      requires WellFormed(i) && OperandSpec.Renders(ctx, i, v)
      modifies this
      ensures buf == old(buf) + DispatchSpec.Dispatch(ctx, i, v, tab).toks
      ensures modified == DispatchSpec.Dispatch(ctx, i, v, tab).modified
    {
      ghost var b0 := buf;
      var inner := RepBegin(i, tab);
      Add(LabelAndAddress(i.address, inner));
      Add(Bytes(i.address));
      ghost var head := RepSpec.RepBegin(i, tab).0 + [LabelAndAddress(i.address, inner), Bytes(i.address)];
      assert buf == b0 + head;
      modified := Instruction(i, inner, v);
      Assoc(b0, head, DispatchSpec.Instruction(ctx, i, v, inner).toks);
    }

    /** The rest of `__sub_asm_inst`: returns, calls and jumps leave the
        loop open, everything else is closed by `_rep_end`. */
    method Instruction(i: Inst, inner: int, ghost v: OperandSpec.Views) returns (modified: bool)
      requires WellFormed(i) && OperandSpec.Renders(ctx, i, v)
      modifies this
      ensures buf == old(buf) + DispatchSpec.Instruction(ctx, i, v, inner).toks
      ensures modified == DispatchSpec.Instruction(ctx, i, v, inner).modified
    {
      if IsRet(i.id) {
        Add(RetCall(i.mnemonic + " " + i.opStr));
        return false;
      }
      if IsCall(i.id) {
        ghost var b0 := buf;
        Add(RetCall(i.mnemonic));
        Add(Text(" "));
        modified := OperandOf(i, 0, true, true, v);
        Assoc(b0, [RetCall(i.mnemonic), Text(" ")], v.hexa[0].toks);
        return;
      }
      if IsJump(i.id) {
        Jump(i, v);
        return false;
      }
      ghost var b0 := buf;
      modified := Body(i, inner, v);
      ghost var body := DispatchSpec.Body(i, v, inner).toks;
      RepEnd(i, inner);
      Assoc(b0, body, RepSpec.RepEnd(i, inner));
    }

    /** The jump branch of `__sub_asm_inst`. */
    method Jump(i: Inst, ghost v: OperandSpec.Views)
      requires |i.operands| >= 1 && OperandSpec.Renders(ctx, i, v)
      modifies this
      ensures buf == old(buf) + DispatchSpec.JumpBody(ctx, i, v)
    {
      Add(Text(i.mnemonic + " "));
      if !i.operands[0].kind.Imm? {
        var m := ShownOperand(i, 0, v);
        if IsUncondJump(i.id) && ctx.comments && !ctx.dump && i.address !in ctx.jmptables {
          Add(Comment(" # STOPPED"));
        }
        return;
      }
      var addr := i.operands[0].kind.imm;
      if addr in ctx.addrColor {
        Add(LabelOrAddress(addr, -1, false));
      } else {
        Add(Text(HexString(addr)));
      }
    }

    /** Everything in `__sub_asm_inst` after the returns, calls and jumps
        and before `_rep_end`. */
    method Body(i: Inst, tab: int, ghost v: OperandSpec.Views) returns (modified: bool)
      requires WellFormed(i) && OperandSpec.Renders(ctx, i, v)
      modifies this
      ensures buf == old(buf) + DispatchSpec.Body(i, v, tab).toks
      ensures modified == DispatchSpec.Body(i, v, tab).modified
    {
      if InstCheck(i.id) {
        CheckInst(i, v);
        modified := true;
      } else if DispatchSpec.FixedForm(i.id) {
        FixedInst(i, v);
        modified := true;
      } else if IsStringOp(i.id) {
        StringInst(i, tab, v);
        modified := true;
      } else {
        modified := GenericInst(i, v);
      }
    }

    /** CDQE, IDIV, MUL and NOT. */
    method FixedInst(i: Inst, ghost v: OperandSpec.Views)
      requires DispatchSpec.FixedArity(i) && OperandSpec.Renders(ctx, i, v)
      modifies this
      ensures buf == old(buf) + DispatchSpec.FixedBody(i, v)
    {
      if i.id == CDQE {
        Add(Text("rax = eax"));
      } else if i.id == IDIV {
        ghost var b0 := buf;
        Add(Text("eax = edx:eax / "));
        var m0 := ShownOperand(i, 0, v);
        Assoc(b0, [Text("eax = edx:eax / ")], OperandSpec.Op(v, 0));
        Add(Text("; edx = edx:eax % "));
        var m1 := ShownOperand(i, 0, v);
        Regroup(b0, [Text("eax = edx:eax / ")] + OperandSpec.Op(v, 0), [Text("; edx = edx:eax % ")], OperandSpec.Op(v, 0));
      } else if i.id == MUL {
        var (src, dst) := DispatchSpec.MulRegs(i.operands[0].size);
        Add(Text(dst + " = " + src + " * "));
        var m0 := ShownOperand(i, 0, v);
      } else {
        var m0 := ShownOperand(i, 0, v);
        Add(Text(" ^= -1"));
      }
    }

    /** The branch of `__sub_asm_inst` for the instructions of `InstCheck`. */
    method CheckInst(i: Inst, ghost v: OperandSpec.Views)
      requires WellFormed(i) && InstCheck(i.id) && OperandSpec.Renders(ctx, i, v)
      modifies this
      ensures buf == old(buf) + DispatchSpec.CheckBody(i, v)
    {
      if DispatchSpec.IsRewrite(i) {
        RewriteInst(i, v);
      } else {
        OperationInst(i, v);
      }
    }

    /** `x = -1`, `x = 0`, `r = 0`, `x++` and `x--`. */
    method RewriteInst(i: Inst, ghost v: OperandSpec.Views)
      requires |i.operands| >= 1 && OperandSpec.Renders(ctx, i, v)
      modifies this
      ensures buf == old(buf) + DispatchSpec.Rewrite(i, v)
    {
      var m0 := ShownOperand(i, 0, v);
      if DispatchSpec.IsOrMinusOne(i) {
        Add(Text(" = -1"));
      } else if DispatchSpec.IsAndZero(i) {
        Add(Text(" = 0"));
      } else if DispatchSpec.IsXorSelf(i) {
        Add(Text(" = 0"));
      } else {
        Add(InstSym(i.id));
      }
    }

    /** LEA, MOVZX, IMUL and the operator forms. */
    method OperationInst(i: Inst, ghost v: OperandSpec.Views)
      requires (i.id != IMUL ==> |i.operands| >= 2) && OperandSpec.Renders(ctx, i, v)
      modifies this
      ensures buf == old(buf) + DispatchSpec.Operation(i, v)
    {
      if i.id == LEA {
        var m0 := ShownOperand(i, 0, v);
        Add(Text(" = &("));
        var m1 := ShownOperand(i, 1, v);
        Add(Text(")"));
      } else if i.id == MOVZX {
        var m0 := ShownOperand(i, 0, v);
        Add(Text(" = (zero ext) "));
        var m1 := ShownOperand(i, 1, v);
      } else if i.id == IMUL {
        ImulInst(i, v);
      } else {
        var m0 := ShownOperand(i, 0, v);
        Add(SpacedInstSym(i.id, false));
        var m1 := ShownOperand(i, 1, v);
      }
    }

    /** IMUL with three, two or one operand(s). */
    method ImulInst(i: Inst, ghost v: OperandSpec.Views)
      requires OperandSpec.Renders(ctx, i, v)
      modifies this
      ensures buf == old(buf) + DispatchSpec.ImulBody(i, v)
    {
      if |i.operands| == 3 {
        var m0 := ShownOperand(i, 0, v);
        Add(Text(" = "));
        var m1 := ShownOperand(i, 1, v);
        Add(SpacedInstSym(i.id, true));
        var m2 := ShownOperand(i, 2, v);
      } else if |i.operands| == 2 {
        var m0 := ShownOperand(i, 0, v);
        Add(SpacedInstSym(i.id, false));
        var m1 := ShownOperand(i, 1, v);
      } else if |i.operands| == 1 {
        var sz := i.operands[0].size;
        if sz == 1 {
          Add(Text("ax = al * "));
        } else if sz == 2 {
          Add(Text("dx:ax = ax * "));
        } else if sz == 4 {
          Add(Text("edx:eax = eax * "));
        } else if sz == 8 {
          Add(Text("rdx:rax = rax * "));
        }
        var m0 := ShownOperand(i, 0, v);
      }
    }

    /** The string instructions, one branch per group: the statement, then
        one pointer advance per pointer moved, each on a new line at the
        instruction's address. */
    method StringInst(i: Inst, tab: int, ghost v: OperandSpec.Views)
      requires |i.operands| >= 2 && IsStringOp(i.id) && OperandSpec.Renders(ctx, i, v)
      modifies this
      ensures buf == old(buf) + DispatchSpec.StringBody(i, v, tab)
    {
      ghost var b0 := buf;
      if InstScas(i.id) {
        Statement(i, " cmp ", v);
        Advance(i, tab, 1, " += D", v);
      } else if InstStos(i.id) {
        Statement(i, " = ", v);
        Advance(i, tab, 0, " += D", v);
      } else if InstLods(i.id) {
        Statement(i, " = ", v);
        Advance(i, tab, 1, " += D", v);
      } else if InstCmps(i.id) {
        Statement(i, " cmp ", v);
        Advance(i, tab, 0, " += D", v);
        ghost var b2 := buf;
        Advance(i, tab, 1, "' += D", v);
        Regroup(b0, DispatchSpec.Statement(v, " cmp "), DispatchSpec.Advance(i, v, tab, 0, " += D"),
                DispatchSpec.Advance(i, v, tab, 1, "' += D"));
      } else {
        Statement(i, " = ", v);
        Advance(i, tab, 0, " += D", v);
        Advance(i, tab, 1, " += D", v);
        Regroup(b0, DispatchSpec.Statement(v, " = "), DispatchSpec.Advance(i, v, tab, 0, " += D"),
                DispatchSpec.Advance(i, v, tab, 1, " += D"));
      }
    }

    /** `op0 sep op1`. */
    method Statement(i: Inst, sep: string, ghost v: OperandSpec.Views)
      requires |i.operands| >= 2 && OperandSpec.Renders(ctx, i, v)
      modifies this
      ensures buf == old(buf) + DispatchSpec.Statement(v, sep)
    {
      var m0 := ShownOperand(i, 0, v);
      Add(Text(sep));
      var m1 := ShownOperand(i, 1, v);
    }

    /** A new line at the instruction's address, then pointer `k` without
        its dereference and `suffix`. */
    method Advance(i: Inst, tab: int, k: nat, suffix: string, ghost v: OperandSpec.Views)
      requires k < |i.operands| && OperandSpec.Renders(ctx, i, v)
      modifies this
      ensures buf == old(buf) + DispatchSpec.Advance(i, v, tab, k, suffix)
    {
      Add(NewLine);
      Add(LabelOrAddress(i.address, tab, true));
      var p := PointerOperand(i, k, v);
      Add(Text(suffix));
    }

    /** The generic fallback: the mnemonic, then the operands separated by
        `", "`; the instruction counts as rewritten when any operand was. */
    method GenericInst(i: Inst, ghost v: OperandSpec.Views) returns (modified: bool)
      requires OperandSpec.Renders(ctx, i, v)
      modifies this
      ensures buf == old(buf) + DispatchSpec.Generic(i, v).toks
      ensures modified == DispatchSpec.Generic(i, v).modified
    {
      Add(Text(i.mnemonic + " "));
      modified := false;
      if |i.operands| > 0 {
        ghost var b0 := buf;
        modified := ShownOperand(i, 0, v);
        var k := 1;
        while k < |i.operands|
          invariant 1 <= k <= |i.operands|
          invariant buf == b0 + DispatchSpec.JoinedOperands(v, k).toks
          invariant modified == DispatchSpec.JoinedOperands(v, k).modified
        {
          Add(Text(", "));
          var m := ShownOperand(i, k, v);
          modified := modified || m;
          k := k + 1;
        }
      }
    }

    /** `_asm_inst(i, tab)`, where `v` holds what the operand printer gives
        for `i`: the user comments before the instruction, then (unless the
        instruction is fused into the following jump) its line. */
    method AsmInst(i: Inst, tab: int, ghost v: OperandSpec.Views)
      requires WellFormed(i) && OperandSpec.Renders(ctx, i, v)
      modifies this
      ensures buf == old(buf) + DispatchSpec.AsmInst(ctx, i, v, tab)
    {
      ghost var b0 := buf;
      PreviousComments(i, tab);
      if i.address in ctx.allFusedInst {
        assert DispatchSpec.AsmInst(ctx, i, v, tab) == DispatchSpec.CommentsBefore(ctx, i.address, tab) + [];
        return;
      }
      Line(i, tab, v);
      Assoc(b0, DispatchSpec.CommentsBefore(ctx, i.address, tab), DispatchSpec.InstLine(ctx, i, tab, DispatchSpec.Dispatch(ctx, i, v, tab)));
      assert DispatchSpec.AsmInst(ctx, i, v, tab) ==
        DispatchSpec.CommentsBefore(ctx, i.address, tab) + DispatchSpec.InstLine(ctx, i, tab, DispatchSpec.Dispatch(ctx, i, v, tab));
    }

    /** The user comments recorded for the lines before the instruction. */
    method PreviousComments(i: Inst, tab: int)
      modifies this
      ensures buf == old(buf) + DispatchSpec.CommentsBefore(ctx, i.address, tab)
    {
      if i.address in ctx.previousComments {
        var comms := ctx.previousComments[i.address];
        ghost var b0 := buf;
        for j := 0 to |comms|
          invariant buf == b0 + DispatchSpec.CommentLines(comms[..j], tab)
        {
          ghost var b := buf;
          Add(Tabs(tab));
          Add(InternalComment("; " + comms[j]));
          Add(NewLine);
          assert buf == b + DispatchSpec.CommentLine(comms[j], tab);
          assert comms[..j + 1][..j] == comms[..j];
          Assoc(b0, DispatchSpec.CommentLines(comms[..j], tab), DispatchSpec.CommentLine(comms[j], tab));
        }
        assert comms[..|comms|] == comms;
      }
    }

    /** The line of an instruction that is not fused: the symbol line, the
        instruction, and what follows it on the line. */
    method Line(i: Inst, tab: int, ghost v: OperandSpec.Views)
      requires WellFormed(i) && OperandSpec.Renders(ctx, i, v)
      modifies this
      ensures buf == old(buf) + DispatchSpec.InstLine(ctx, i, tab, DispatchSpec.Dispatch(ctx, i, v, tab))
    {
      ghost var b0 := buf;
      if i.address in ctx.symbolAddrs {
        Add(Tabs(tab));
        Add(Symbol(i.address));
        Add(NewLine);
      }
      ghost var sym := DispatchSpec.SymbolLine(ctx, i.address, tab);
      assert buf == b0 + sym;
      var modified := SubAsmInst(i, tab, v);
      ghost var sub := DispatchSpec.Dispatch(ctx, i, v, tab);
      LineEnd(i, modified);
      Regroup(b0, sym, sub.toks, DispatchSpec.LineEnd(ctx, i, modified));
    }

    /** The inline comment, the assembler syntax as a comment when the
        instruction was rewritten and comments are on, and the new line. */
    method LineEnd(i: Inst, modified: bool)
      modifies this
      ensures buf == old(buf) + DispatchSpec.LineEnd(ctx, i, modified)
    {
      if i.address in ctx.inlineComments {
        Add(InternalComment(" ; " + ctx.inlineComments[i.address]));
      }
      if modified && ctx.comments {
        Add(Comment(" # " + DispatchSpec.InstStr(i)));
      }
      Add(NewLine);
    }
  }
}
