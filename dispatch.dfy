/** How a whole instruction is printed (`Output.__sub_asm_inst`) and the
    decisions of the line driver around it (`Output._asm_inst`). The
    dispatcher is stated over the renderings of the instruction's operands
    (`Views`), which `OperandViews` fills in from the operand printer. */
module DispatchSpec {
  import opened Capstone
  import opened PyFormat
  import opened Sink
  import opened Lookups
  import opened OpSets
  import opened OperandSpec
  import opened RepSpec

  /** The registers named by the register operands. */
  function RegSet(ops: seq<Operand>): set<Reg>
  {
    set j | 0 <= j < |ops| && ops[j].kind.Reg? :: ops[j].kind.reg
  }

  /** The XOR test as the source writes it: every operand is a register,
      and the set of those registers has exactly one element. */
  predicate SingleRegisterSet(ops: seq<Operand>)
  {
    (forall j :: 0 <= j < |ops| ==> ops[j].kind.Reg?) && |RegSet(ops)| == 1
  }

  /** There is an operand, and every operand is the first one's register. */
  predicate AllSameReg(ops: seq<Operand>)
  {
    |ops| >= 1 && ops[0].kind.Reg? && forall j :: 0 <= j < |ops| ==> ops[j].kind == ops[0].kind
  }

  /** The two readings of the XOR-with-itself test agree. */
  lemma AllSameRegMeans(ops: seq<Operand>)
    ensures SingleRegisterSet(ops) <==> AllSameReg(ops)
  {
    if AllSameReg(ops) {
      assert RegSet(ops) == {ops[0].kind.reg};
    }
    if SingleRegisterSet(ops) {
      var r :| r in RegSet(ops);
      assert RegSet(ops) - {r} == {} by {
        assert |RegSet(ops) - {r}| == 0;
      }
      forall j | 0 <= j < |ops| ensures ops[j].kind == ops[0].kind {
        assert ops[j].kind.reg in RegSet(ops);
        assert ops[0].kind.reg in RegSet(ops);
      }
    }
  }

  /** The operands joined by `", "`, first `n` of them, and whether any of
      them was rewritten (the loop of the generic fallback). */
  function JoinedOperands(v: Views, n: nat): (r: Rendered)
    requires 1 <= n <= |v.shown|
    ensures |r.toks| >= n - 1
    ensures |r.toks| >= |Op(v, 0)| && r.toks[..|Op(v, 0)|] == Op(v, 0)
  {
    if n == 1 then v.shown[0]
    else
      var front := JoinedOperands(v, n - 1);
      Rendered(front.toks + [Text(", ")] + Op(v, n - 1), front.modified || v.shown[n - 1].modified)
  }

  /** The generic fallback: `mnemonic op1, op2, ...`. */
  function Generic(i: Inst, v: Views): (r: Rendered)
    requires Fits(i, v)
    ensures |r.toks| >= 1 && r.toks[0] == Text(i.mnemonic + " ")
    ensures |i.operands| == 0 ==> r == Rendered([Text(i.mnemonic + " ")], false)
  {
    if |i.operands| > 0 then
      var ops := JoinedOperands(v, |i.operands|);
      Rendered([Text(i.mnemonic + " ")] + ops.toks, ops.modified)
    else Rendered([Text(i.mnemonic + " ")], false)
  }

  /** The joined operand list is rewritten exactly when one of its
      operands is. */
  lemma {:induction false} JoinedModified(v: Views, n: nat)
    requires 1 <= n <= |v.shown|
    ensures JoinedOperands(v, n).modified <==> exists j :: 0 <= j < n && v.shown[j].modified
  {
    if n > 1 {
      JoinedModified(v, n - 1);
    }
  }

  /** The generic fallback is rewritten exactly when one of its operands
      is; with no operands it is not. */
  lemma GenericModified(c: Ctx, i: Inst)
    ensures Generic(i, OperandViews(c, i)).modified <==>
              exists j :: 0 <= j < |i.operands| && OperandOut(c, i, j, false, true).modified
  {
    var v := OperandViews(c, i);
    if |i.operands| > 0 {
      JoinedModified(v, |i.operands|);
      if exists j :: 0 <= j < |i.operands| && OperandOut(c, i, j, false, true).modified {
        var j :| 0 <= j < |i.operands| && OperandOut(c, i, j, false, true).modified;
        assert v.shown[j].modified;
      }
    }
  }

  /** Register names of the MUL forms: the source register and the
      destination (pair) for each operand width, as the Intel manual's MUL
      entry gives them (AX := AL * r/m8, DX:AX := AX * r/m16, EDX:EAX :=
      EAX * r/m32, RDX:RAX := RAX * r/m64). */
  function MulRegs(size: nat): (r: (string, string))
    requires size in {1, 2, 4, 8}
  {
    match size
    case 1 => ("al", "ax")
    case 2 => ("ax", "dx:ax")
    case 4 => ("eax", "edx:eax")
    case 8 => ("rax", "rdx:rax")
  }

  /** The one-operand IMUL prefix for each operand width; another width
      prints no prefix. */
  function ImulOneOperandPrefix(size: nat): seq<Token>
  {
    if size == 1 then [Text("ax = al * ")]
    else if size == 2 then [Text("dx:ax = ax * ")]
    else if size == 4 then [Text("edx:eax = eax * ")]
    else if size == 8 then [Text("rdx:rax = rax * ")]
    else []
  }

  /** The one-operand IMUL names the same registers as MUL: the same
      implicit source multiplied into the same destination (pair). */
  lemma ImulAgreesWithMul(size: nat)
    requires size in {1, 2, 4, 8}
    ensures ImulOneOperandPrefix(size) == [Text(MulRegs(size).1 + " = " + MulRegs(size).0 + " * ")]
  {
    if size == 1 {
      assert "ax" + " = " + "al" + " * " == "ax = al * ";
    } else if size == 2 {
      assert "dx:ax" + " = " + "ax" + " * " == "dx:ax = ax * ";
    } else if size == 4 {
      assert "edx:eax" + " = " + "eax" + " * " == "edx:eax = eax * ";
    } else {
      assert "rdx:rax" + " = " + "rax" + " * " == "rdx:rax = rax * ";
    }
  }

  /** IMUL with three, two or one operand(s). */
  function ImulBody(i: Inst, v: Views): seq<Token>
    requires Fits(i, v)
  {
    var n := |i.operands|;
    if n == 3 then
      Op(v, 0) + [Text(" = ")] + Op(v, 1) + [SpacedInstSym(i.id, true)] + Op(v, 2)
    else if n == 2 then
      Op(v, 0) + [SpacedInstSym(i.id, false)] + Op(v, 1)
    else if n == 1 then
      ImulOneOperandPrefix(i.operands[0].size) + Op(v, 0)
    else []
  }

  /** OR with the immediate -1. */
  predicate IsOrMinusOne(i: Inst)
  {
    i.id == OR && |i.operands| >= 2 && i.operands[1].kind == Imm(-1)
  }

  /** AND with the immediate 0. */
  predicate IsAndZero(i: Inst)
  {
    i.id == AND && |i.operands| >= 2 && i.operands[1].kind == Imm(0)
  }

  /** XOR of a register with itself. */
  predicate IsXorSelf(i: Inst)
  {
    AllSameReg(i.operands) && i.id == XOR
  }

  /** The instructions of `InstCheck`, printed as an assignment or an
      operator form. */
  function CheckBody(i: Inst, v: Views): seq<Token>
    requires WellFormed(i) && Fits(i, v) && InstCheck(i.id)
  {
    if IsRewrite(i) then Rewrite(i, v) else Operation(i, v)
  }

  /** The idioms read as constants, and the increments. */
  predicate IsRewrite(i: Inst)
  {
    IsOrMinusOne(i) || IsAndZero(i) || IsXorSelf(i) || i.id == INC || i.id == DEC
  }

  function Rewrite(i: Inst, v: Views): seq<Token>
    requires Fits(i, v) && |i.operands| >= 1
  {
    if IsOrMinusOne(i) then Op(v, 0) + [Text(" = -1")]
    else if IsAndZero(i) then Op(v, 0) + [Text(" = 0")]
    else if IsXorSelf(i) then Op(v, 0) + [Text(" = 0")]
    else Op(v, 0) + [InstSym(i.id)]
  }

  /** LEA, MOVZX, IMUL and the operator forms of the other instructions. */
  function Operation(i: Inst, v: Views): seq<Token>
    requires Fits(i, v) && (i.id != IMUL ==> |i.operands| >= 2)
  {
    if i.id == LEA then Op(v, 0) + [Text(" = &(")] + Op(v, 1) + [Text(")")]
    else if i.id == MOVZX then Op(v, 0) + [Text(" = (zero ext) ")] + Op(v, 1)
    else if i.id == IMUL then ImulBody(i, v)
    else Op(v, 0) + [SpacedInstSym(i.id, false)] + Op(v, 1)
  }

  /** A new line continuing the instruction, at its address and depth. */
  function Continue(i: Inst, tab: int): seq<Token>
  {
    [NewLine, LabelOrAddress(i.address, tab, true)]
  }

  /** The statement of a string instruction: `op0 sep op1`. */
  function Statement(v: Views, sep: string): seq<Token>
    requires |v.shown| >= 2
  {
    Op(v, 0) + [Text(sep)] + Op(v, 1)
  }

  /** One pointer advance: a new line at the instruction's address, the
      pointer operand `k` without its dereference, and `suffix`. */
  function Advance(i: Inst, v: Views, tab: int, k: nat, suffix: string): seq<Token>
    requires k < |v.bare|
  {
    Continue(i, tab) + Ptr(v, k) + [Text(suffix)]
  }

  /** The string instructions: the primary statement, then one pointer
      advance per pointer the instruction moves (CMPS and MOVS move two). */
  function StringBody(i: Inst, v: Views, tab: int): seq<Token>
    requires |i.operands| >= 2 && Fits(i, v) && IsStringOp(i.id)
  {
    if InstScas(i.id) then
      Statement(v, " cmp ") + Advance(i, v, tab, 1, " += D")
    else if InstStos(i.id) then
      Statement(v, " = ") + Advance(i, v, tab, 0, " += D")
    else if InstLods(i.id) then
      Statement(v, " = ") + Advance(i, v, tab, 1, " += D")
    else if InstCmps(i.id) then
      Statement(v, " cmp ") + Advance(i, v, tab, 0, " += D") + Advance(i, v, tab, 1, "' += D")
    else
      Statement(v, " = ") + Advance(i, v, tab, 0, " += D") + Advance(i, v, tab, 1, " += D")
  }

  /** Everything that is not a return, call or jump, at depth `tab`. */
  function Body(i: Inst, v: Views, tab: int): (r: Rendered)
    requires WellFormed(i) && Fits(i, v)
  {
    if InstCheck(i.id) then Rendered(CheckBody(i, v), true)
    else if FixedForm(i.id) then Rendered(FixedBody(i, v), true)
    else if IsStringOp(i.id) then Rendered(StringBody(i, v, tab), true)
    else Generic(i, v)
  }

  /** The instructions whose other operands are fixed registers. */
  predicate FixedForm(op: Opcode)
  {
    op in {CDQE, IDIV, MUL, NOT}
  }

  /** A fixed-register instruction with the operand its rendering reads. */
  predicate FixedArity(i: Inst)
  {
    FixedForm(i.id) && (i.id != CDQE ==> |i.operands| >= 1) &&
    (i.id == MUL ==> i.operands[0].size in {1, 2, 4, 8})
  }

  /** CDQE, IDIV, MUL and NOT, with their implicit registers written out. */
  function FixedBody(i: Inst, v: Views): seq<Token>
    requires FixedArity(i) && Fits(i, v)
  {
    if i.id == CDQE then [Text("rax = eax")]
    else if i.id == IDIV then
      [Text("eax = edx:eax / ")] + Op(v, 0) + [Text("; edx = edx:eax % ")] + Op(v, 0)
    else if i.id == MUL then
      var (src, dst) := MulRegs(i.operands[0].size);
      [Text(dst + " = " + src + " * ")] + Op(v, 0)
    else Op(v, 0) + [Text(" ^= -1")]
  }

  /** A jump: its target label or hex for an immediate target, otherwise
      the operand, marked `# STOPPED` for an unconditional jump that is
      not through a known jump table. */
  function JumpBody(c: Ctx, i: Inst, v: Views): seq<Token>
    requires Fits(i, v) && |i.operands| >= 1
  {
    [Text(i.mnemonic + " ")] +
    match i.operands[0].kind
    case Imm(addr) =>
      if addr in c.addrColor then [LabelOrAddress(addr, -1, false)] else [Text(HexString(addr))]
    case _ =>
      Op(v, 0) +
      (if IsUncondJump(i.id) && c.comments && !c.dump && i.address !in c.jmptables
       then [Comment(" # STOPPED")] else [])
  }

  /** `__sub_asm_inst(i, tab)` over given operand renderings: the optional
      REP loop header, the address column, then the instruction. Returns,
      calls and jumps return before the loop is closed. */
  function Dispatch(c: Ctx, i: Inst, v: Views, tab: int): (r: Rendered)
    requires WellFormed(i) && Fits(i, v)
  {
    var (open, inner) := RepBegin(i, tab);
    var rest := Instruction(c, i, v, inner);
    Rendered(open + [LabelAndAddress(i.address, inner), Bytes(i.address)] + rest.toks, rest.modified)
  }

  /** What `__sub_asm_inst` prints after the address column, at the depth
      `inner` of the loop body. */
  function Instruction(c: Ctx, i: Inst, v: Views, inner: int): Rendered
    requires WellFormed(i) && Fits(i, v)
  {
    if IsRet(i.id) then
      Rendered([RetCall(i.mnemonic + " " + i.opStr)], false)
    else if IsCall(i.id) then
      Rendered([RetCall(i.mnemonic), Text(" ")] + v.hexa[0].toks, v.hexa[0].modified)
    else if IsJump(i.id) then
      Rendered(JumpBody(c, i, v), false)
    else
      var body := Body(i, v, inner);
      Rendered(body.toks + RepEnd(i, inner), body.modified)
  }

  /** The assembler syntax of the instruction, `mnemonic op_str`. */
  function InstStr(i: Inst): string
  {
    i.mnemonic + " " + i.opStr
  }

  /** The user comments recorded for the lines before an instruction, one
      line each: indentation, `; ` and the comment. */
  function CommentLines(comms: seq<string>, tab: int): seq<Token>
  {
    if comms == [] then []
    else CommentLines(comms[..|comms| - 1], tab) + CommentLine(comms[|comms| - 1], tab)
  }

  /** One user comment on a line of its own. */
  function CommentLine(comm: string, tab: int): seq<Token>
  {
    [Tabs(tab), InternalComment("; " + comm), NewLine]
  }

  /** Comment `j` of the list sits on line `j`: indentation, the comment,
      and the end of the line. */
  lemma {:induction false} CommentLinesShape(comms: seq<string>, tab: int)
    ensures var toks := CommentLines(comms, tab);
            && |toks| == 3 * |comms|
            && forall j :: 0 <= j < |comms| ==>
                 toks[3 * j] == Tabs(tab) && toks[3 * j + 1] == InternalComment("; " + comms[j]) &&
                 toks[3 * j + 2] == NewLine
  {
    if comms != [] {
      var front := comms[..|comms| - 1];
      CommentLinesShape(front, tab);
      var toks := CommentLines(comms, tab);
      assert toks == CommentLines(front, tab) + CommentLine(comms[|comms| - 1], tab);
      forall j | 0 <= j < |comms|
        ensures toks[3 * j] == Tabs(tab) && toks[3 * j + 1] == InternalComment("; " + comms[j]) &&
                toks[3 * j + 2] == NewLine
      {
        if j < |front| {
          assert comms[j] == front[j];
        }
      }
    }
  }

  /** The comment lines printed before the instruction at `addr`. */
  function CommentsBefore(c: Ctx, addr: int, tab: int): seq<Token>
  {
    if addr in c.previousComments then CommentLines(c.previousComments[addr], tab) else []
  }

  /** The user comment printed after the instruction at `addr`. */
  function InlineComment(c: Ctx, addr: int): seq<Token>
  {
    if addr in c.inlineComments then [InternalComment(" ; " + c.inlineComments[addr])] else []
  }

  /** `_asm_inst(i, tab)`, where `v` holds the renderings of `i`'s
      operands: `AsmLine` around what `__sub_asm_inst` prints. */
  function AsmInst(c: Ctx, i: Inst, v: Views, tab: int): seq<Token>
    requires WellFormed(i) && Fits(i, v)
  {
    AsmLine(c, i, tab, Dispatch(c, i, v, tab))
  }

  /** `_asm_inst(i, tab)` given what `__sub_asm_inst` prints: the user
      comments before the instruction are printed even for an instruction
      fused into the following jump, which prints nothing else; otherwise
      the line of `InstLine` follows them. */
  function AsmLine(c: Ctx, i: Inst, tab: int, sub: Rendered): seq<Token>
  {
    CommentsBefore(c, i.address, tab) +
    (if i.address in c.allFusedInst then [] else InstLine(c, i, tab, sub))
  }

  /** The line of an instruction that is not fused, given what
      `__sub_asm_inst` printed: the symbol line when a symbol starts
      here, the instruction, its inline comment, the assembler syntax as a
      comment when the instruction was rewritten and comments are on, and
      the end of the line. */
  function InstLine(c: Ctx, i: Inst, tab: int, sub: Rendered): seq<Token>
  {
    SymbolLine(c, i.address, tab) + sub.toks + LineEnd(c, i, sub.modified)
  }

  /** The line of its own that a symbol starting at `addr` gets. */
  function SymbolLine(c: Ctx, addr: int, tab: int): seq<Token>
  {
    if addr in c.symbolAddrs then [Tabs(tab), Symbol(addr), NewLine] else []
  }

  /** What follows the instruction on its line. */
  function LineEnd(c: Ctx, i: Inst, modified: bool): seq<Token>
  {
    InlineComment(c, i.address) +
    (if modified && c.comments then [Comment(" # " + InstStr(i))] else []) + [NewLine]
  }

  /** What `_asm_inst` prints, given an instruction text that does not end
      with the comment `_asm_inst` may add (`DispatchLastIsNotComment`):
      the user comments before the instruction come first; a fused
      instruction prints nothing else; otherwise the line ends with a new
      line, starts with the symbol line when a symbol starts here, and ends
      with the assembler syntax as a comment exactly when the instruction
      was rewritten and comments are on. */
  lemma AsmLineShape(c: Ctx, i: Inst, tab: int, sub: Rendered)
    requires |sub.toks| >= 1 && sub.toks[|sub.toks| - 1] != Comment(" # " + InstStr(i))
    ensures var toks := AsmLine(c, i, tab, sub);
            var before := CommentsBefore(c, i.address, tab);
            && |toks| >= |before| && toks[..|before|] == before
            && (i.address in c.allFusedInst ==> toks == before)
            && (i.address !in c.allFusedInst ==> |toks| >= |before| + 2 && toks[|toks| - 1] == NewLine)
            && (i.address !in c.allFusedInst && i.address in c.symbolAddrs ==>
                  |toks| >= |before| + 3 && toks[|before|..|before| + 3] == [Tabs(tab), Symbol(i.address), NewLine])
            && (i.address !in c.allFusedInst ==>
                  (toks[|toks| - 2] == Comment(" # " + InstStr(i)) <==> sub.modified && c.comments))
  {
    var before := CommentsBefore(c, i.address, tab);
    if i.address in c.allFusedInst {
      assert AsmLine(c, i, tab, sub) == before + [];
    } else {
      var line := InstLine(c, i, tab, sub);
      InstLineShape(c, i, tab, sub);
      assert AsmLine(c, i, tab, sub) == before + line;
      AfterPrefix(before, line);
    }
  }

  /** The line of an instruction ends with a new line, starts with the
      symbol line when a symbol starts here, and ends with the assembler
      syntax as a comment exactly when the instruction was rewritten and
      comments are on. */
  lemma InstLineShape(c: Ctx, i: Inst, tab: int, sub: Rendered)
    requires |sub.toks| >= 1 && sub.toks[|sub.toks| - 1] != Comment(" # " + InstStr(i))
    ensures var toks := InstLine(c, i, tab, sub);
            && |toks| >= 2 && toks[|toks| - 1] == NewLine
            && (i.address in c.symbolAddrs ==> |toks| >= 3 && toks[..3] == [Tabs(tab), Symbol(i.address), NewLine])
            && (toks[|toks| - 2] == Comment(" # " + InstStr(i)) <==> sub.modified && c.comments)
  {
    var sym := SymbolLine(c, i.address, tab);
    var comment := if sub.modified && c.comments then [Comment(" # " + InstStr(i))] else [];
    var inline := InlineComment(c, i.address);
    LineShape(sym, sub.toks, inline, comment, " # " + InstStr(i));
    assert LineEnd(c, i, sub.modified) == inline + comment + [NewLine];
    assert InstLine(c, i, tab, sub) == sym + sub.toks + inline + comment + [NewLine];
  }

  /** Where the last tokens of a line end up once something is printed
      before it. */
  lemma AfterPrefix(before: seq<Token>, line: seq<Token>)
    requires |line| >= 2
    ensures var toks := before + line;
            && toks[..|before|] == before
            && toks[|toks| - 1] == line[|line| - 1] && toks[|toks| - 2] == line[|line| - 2]
            && (|line| >= 3 ==> toks[|before|..|before| + 3] == line[..3])
  {
  }

  /** Where the pieces of a printed line end up. */
  lemma LineShape(sym: seq<Token>, body: seq<Token>, inline: seq<Token>, comment: seq<Token>, s: string)
    requires |body| >= 1 && body[|body| - 1] != Comment(s)
    requires inline == [] || (|inline| == 1 && !inline[0].Comment?)
    requires comment == [] || comment == [Comment(s)]
    ensures var toks := sym + body + inline + comment + [NewLine];
            && |toks| >= 2 && toks[|toks| - 1] == NewLine
            && (|sym| >= 3 ==> toks[..3] == sym[..3])
            && (toks[|toks| - 2] == Comment(s) <==> comment != [])
  {
    var toks := sym + body + inline + comment + [NewLine];
    if comment == [] {
      if inline == [] {
        assert toks[|toks| - 2] == body[|body| - 1];
      } else {
        assert toks[|toks| - 2] == inline[0];
      }
    }
  }

  /** Every rendering in the views is non-empty and does not end with a
      comment. */
  predicate EndsClean(v: Views)
  {
    (forall k :: 0 <= k < |v.shown| ==> v.shown[k].toks != [] && !v.shown[k].toks[|v.shown[k].toks| - 1].Comment?) &&
    (forall k :: 0 <= k < |v.hexa| ==> v.hexa[k].toks != [] && !v.hexa[k].toks[|v.hexa[k].toks| - 1].Comment?)
  }

  /** The last token an operand prints (with the dereference shown) is
      never a comment. */
  lemma OperandLastNotComment(c: Ctx, i: Inst, k: nat, hexa: bool)
    requires k < |i.operands|
    ensures var t := OperandOut(c, i, k, hexa, true).toks;
            |t| >= 1 && !t[|t| - 1].Comment?
  {
    match i.operands[k].kind
    case Imm(imm) =>
      ImmLastNotComment(c, imm, i.operands[k].size, hexa);
    case Reg(_) =>
    case Fp(_) =>
    case Mem(m) =>
      MemLastNotComment(c, i, k, m);
  }

  lemma ImmLastNotComment(c: Ctx, imm: int, size: nat, hexa: bool)
    ensures var t := ImmOperand(c, imm, size, hexa).toks;
            |t| >= 1 && !t[|t| - 1].Comment?
  {
    if IsAddress(c, imm).0.Some? {
      var named := imm in c.reverseSymbols || imm in c.labels;
      var front := SectionPrefix(c, imm) + NameParts(c, imm) + RawHex(imm, named);
      assert AddressImm(c, imm).toks == front + DataPreview(c, imm);
      assert |front| >= 1 && !front[|front| - 1].Comment?;
    }
  }

  lemma MemLastNotComment(c: Ctx, i: Inst, k: nat, m: MemOp)
    ensures var t := MemOperand(c, i, k, m, true).toks;
            |t| >= 1 && !t[|t| - 1].Comment?
  {
    if !SpecialMem(c, i, k, m) {
      assert GeneralMemOperand(c, m, true).toks == [Text("*(")] + MemBody(c, m) + [Text(")")];
    }
  }

  /** Renderings of the operand printer end cleanly. */
  lemma RendersEndClean(c: Ctx, i: Inst, v: Views)
    requires Renders(c, i, v)
    ensures EndsClean(v)
  {
    forall k | 0 <= k < |i.operands|
      ensures v.shown[k].toks != [] && !v.shown[k].toks[|v.shown[k].toks| - 1].Comment?
      ensures v.hexa[k].toks != [] && !v.hexa[k].toks[|v.hexa[k].toks| - 1].Comment?
    {
      OperandLastNotComment(c, i, k, false);
      OperandLastNotComment(c, i, k, true);
    }
  }

  /** The last token of an operand-list rendering is its last operand's. */
  lemma JoinedLastNotComment(v: Views, n: nat)
    requires 1 <= n <= |v.shown| && EndsClean(v)
    ensures var t := JoinedOperands(v, n).toks;
            !t[|t| - 1].Comment?
  {
    if n > 1 {
      var front := JoinedOperands(v, n - 1).toks + [Text(", ")];
      assert JoinedOperands(v, n).toks == front + Op(v, n - 1);
    }
  }

  /** The token sequence is empty or does not end with a comment. */
  predicate LastNotComment(t: seq<Token>)
  {
    t == [] || !t[|t| - 1].Comment?
  }

  lemma AppendLastNotComment(a: seq<Token>, b: seq<Token>)
    requires b != [] && LastNotComment(b)
    ensures LastNotComment(a + b)
  {
    assert (a + b)[|a + b| - 1] == b[|b| - 1];
  }

  /** Operand `k`, shown, is non-empty and does not end with a comment. */
  lemma OpEndsClean(v: Views, k: nat)
    requires k < |v.shown| && EndsClean(v)
    ensures Op(v, k) != [] && LastNotComment(Op(v, k))
  {
  }

  /** The assignment and operator forms end with an operand or a literal. */
  lemma CheckBodyLastNotComment(i: Inst, v: Views)
    requires WellFormed(i) && Fits(i, v) && EndsClean(v) && InstCheck(i.id)
    ensures LastNotComment(CheckBody(i, v))
  {
    if !IsRewrite(i) {
      OperationLastNotComment(i, v);
    }
  }

  lemma OperationLastNotComment(i: Inst, v: Views)
    requires Fits(i, v) && (i.id != IMUL ==> |i.operands| >= 2) && EndsClean(v)
    ensures LastNotComment(Operation(i, v))
  {
    if i.id == LEA {
    } else if i.id == MOVZX {
      OpEndsClean(v, 1);
      AppendLastNotComment(Op(v, 0) + [Text(" = (zero ext) ")], Op(v, 1));
    } else if i.id == IMUL {
      ImulLastNotComment(i, v);
    } else {
      OpEndsClean(v, 1);
      AppendLastNotComment(Op(v, 0) + [SpacedInstSym(i.id, false)], Op(v, 1));
    }
  }

  lemma ImulLastNotComment(i: Inst, v: Views)
    requires Fits(i, v) && EndsClean(v)
    ensures LastNotComment(ImulBody(i, v))
  {
    var n := |i.operands|;
    if n == 3 {
      OpEndsClean(v, 2);
      AppendLastNotComment(Op(v, 0) + [Text(" = ")] + Op(v, 1) + [SpacedInstSym(i.id, true)], Op(v, 2));
    } else if n == 2 {
      OpEndsClean(v, 1);
      AppendLastNotComment(Op(v, 0) + [SpacedInstSym(i.id, false)], Op(v, 1));
    } else if n == 1 {
      OpEndsClean(v, 0);
      AppendLastNotComment(ImulOneOperandPrefix(i.operands[0].size), Op(v, 0));
    }
  }

  lemma FixedBodyLastNotComment(i: Inst, v: Views)
    requires FixedArity(i) && Fits(i, v) && EndsClean(v)
    ensures LastNotComment(FixedBody(i, v))
  {
    if i.id == IDIV {
      OpEndsClean(v, 0);
      AppendLastNotComment([Text("eax = edx:eax / ")] + Op(v, 0) + [Text("; edx = edx:eax % ")], Op(v, 0));
    } else if i.id == MUL {
      var (src, dst) := MulRegs(i.operands[0].size);
      OpEndsClean(v, 0);
      AppendLastNotComment([Text(dst + " = " + src + " * ")], Op(v, 0));
    }
  }

  /** Every string rendering ends with its last pointer advance. */
  lemma StringBodyLastNotComment(i: Inst, v: Views, tab: int)
    requires |i.operands| >= 2 && Fits(i, v) && IsStringOp(i.id)
    ensures LastNotComment(StringBody(i, v, tab))
  {
    var t := StringBody(i, v, tab);
    if InstScas(i.id) || InstLods(i.id) {
      AppendLastNotComment(Statement(v, " cmp "), Advance(i, v, tab, 1, " += D"));
      AppendLastNotComment(Statement(v, " = "), Advance(i, v, tab, 1, " += D"));
    } else if InstStos(i.id) {
      AppendLastNotComment(Statement(v, " = "), Advance(i, v, tab, 0, " += D"));
    } else if InstCmps(i.id) {
      AppendLastNotComment(Statement(v, " cmp ") + Advance(i, v, tab, 0, " += D"), Advance(i, v, tab, 1, "' += D"));
    } else {
      AppendLastNotComment(Statement(v, " = ") + Advance(i, v, tab, 0, " += D"), Advance(i, v, tab, 1, " += D"));
    }
  }

  /** What `Body` prints never ends with a comment. */
  lemma BodyLastNotComment(i: Inst, v: Views, tab: int)
    requires WellFormed(i) && Fits(i, v) && EndsClean(v)
    ensures LastNotComment(Body(i, v, tab).toks)
  {
    if InstCheck(i.id) {
      CheckBodyLastNotComment(i, v);
    } else if FixedForm(i.id) {
      FixedBodyLastNotComment(i, v);
    } else if IsStringOp(i.id) {
      StringBodyLastNotComment(i, v, tab);
    } else if |i.operands| > 0 {
      JoinedLastNotComment(v, |i.operands|);
      AppendLastNotComment([Text(i.mnemonic + " ")], JoinedOperands(v, |i.operands|).toks);
    }
  }

  /** The instruction's own tokens never end with the raw-syntax comment,
      so the comment after them is there only when the driver adds it. */
  lemma DispatchLastIsNotComment(c: Ctx, i: Inst, v: Views, tab: int)
    requires WellFormed(i) && Fits(i, v) && EndsClean(v)
    ensures var toks := Dispatch(c, i, v, tab).toks;
            |toks| >= 2 && toks[|toks| - 1] != Comment(" # " + InstStr(i))
  {
    var s := " # " + InstStr(i);
    assert s != " # STOPPED" by {
      assert s[3..] == InstStr(i) && InstStr(i)[|i.mnemonic|] == ' ';
    }
    var (open, inner) := RepBegin(i, tab);
    var head := open + [LabelAndAddress(i.address, inner), Bytes(i.address)];
    var rest := Instruction(c, i, v, inner).toks;
    assert Dispatch(c, i, v, tab).toks == head + rest;
    InstructionLast(c, i, v, inner);
    if rest != [] {
      assert (head + rest)[|head + rest| - 1] == rest[|rest| - 1];
    }
  }

  /** After the address column the instruction ends with an operand, a
      literal, the loop's closing brace or the `# STOPPED` mark. */
  lemma InstructionLast(c: Ctx, i: Inst, v: Views, inner: int)
    requires WellFormed(i) && Fits(i, v) && EndsClean(v)
    ensures var t := Instruction(c, i, v, inner).toks;
            LastNotComment(t) || t[|t| - 1] == Comment(" # STOPPED")
  {
    if IsRet(i.id) {
    } else if IsCall(i.id) {
      AppendLastNotComment([RetCall(i.mnemonic), Text(" ")], v.hexa[0].toks);
    } else if IsJump(i.id) {
      JumpBodyLast(c, i, v);
    } else {
      BodyLastNotComment(i, v, inner);
      var body := Body(i, v, inner).toks;
      if HasRep(i) {
        AppendLastNotComment(body, RepEnd(i, inner));
      }
    }
  }

  lemma JumpBodyLast(c: Ctx, i: Inst, v: Views)
    requires Fits(i, v) && |i.operands| >= 1 && EndsClean(v)
    ensures var t := JumpBody(c, i, v);
            LastNotComment(t) || t[|t| - 1] == Comment(" # STOPPED")
  {
    if !i.operands[0].kind.Imm? {
      var stop := IsUncondJump(i.id) && c.comments && !c.dump && i.address !in c.jmptables;
      var t := [Text(i.mnemonic + " ")] + Op(v, 0) + (if stop then [Comment(" # STOPPED")] else []);
      assert JumpBody(c, i, v) == t;
      if !stop {
        OpEndsClean(v, 0);
        AppendLastNotComment([Text(i.mnemonic + " ")], Op(v, 0));
        assert t == [Text(i.mnemonic + " ")] + Op(v, 0);
      }
    }
  }
}
