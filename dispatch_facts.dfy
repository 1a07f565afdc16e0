/** What the instruction printer promises about the lines it prints:
    which instructions count as rewritten, where the REP loop opens and
    closes, how the idioms and string instructions read, and how a jump
    shows its target. */
module DispatchFacts {
  import opened Capstone
  import opened PyFormat
  import opened Sink
  import opened Lookups
  import opened OpSets
  import opened OperandSpec
  import opened RepSpec
  import opened DispatchSpec

  /** The flag `__sub_asm_inst` returns: false for returns and jumps, the
      target's flag for calls, true for every instruction it rewrites into
      an expression, and for the generic fallback true exactly when one of
      the operands was rewritten. */
  lemma ModifiedFlag(c: Ctx, i: Inst, v: Views, tab: int)
    requires WellFormed(i) && Fits(i, v)
    ensures var m := Dispatch(c, i, v, tab).modified;
            && (IsRet(i.id) ==> !m)
            && (IsCall(i.id) ==> m == v.hexa[0].modified)
            && (IsJump(i.id) ==> !m)
            && (InstCheck(i.id) || FixedForm(i.id) || IsStringOp(i.id) ==> m)
            && (!IsRet(i.id) && !IsCall(i.id) && !IsJump(i.id) && !InstCheck(i.id) &&
                !FixedForm(i.id) && !IsStringOp(i.id) ==>
                  (m <==> exists j :: 0 <= j < |i.operands| && v.shown[j].modified))
  {
    var inner := RepBegin(i, tab).1;
    assert Dispatch(c, i, v, tab).modified == Instruction(c, i, v, inner).modified;
    NotTransfer(i.id);
    if !IsRet(i.id) && !IsCall(i.id) && !IsJump(i.id) {
      BodyModified(i, v, inner);
    }
  }

  /** The printed groups are not returns, calls or jumps. */
  lemma NotTransfer(op: Opcode)
    ensures InstCheck(op) || FixedForm(op) || IsStringOp(op) ==> !IsRet(op) && !IsCall(op) && !IsJump(op)
  {
    if InstCheck(op) {
      CheckNotTransfer(op);
    } else if IsStringOp(op) {
      StringNotTransfer(op);
    }
  }

  lemma CheckNotTransfer(op: Opcode)
    requires InstCheck(op)
    ensures !IsRet(op) && !IsCall(op) && !IsJump(op)
  {
  }

  lemma StringNotTransfer(op: Opcode)
    requires IsStringOp(op)
    ensures !IsRet(op) && !IsCall(op) && !IsJump(op)
  {
    if InstStos(op) || InstLods(op) {
      assert !IsCondJump(op);
    } else {
      assert !IsCondJump(op);
    }
  }

  /** Everything but the generic fallback counts as rewritten; the
      fallback does when one of its operands does. */
  lemma BodyModified(i: Inst, v: Views, tab: int)
    requires WellFormed(i) && Fits(i, v)
    ensures var m := Body(i, v, tab).modified;
            && (InstCheck(i.id) || FixedForm(i.id) || IsStringOp(i.id) ==> m)
            && (!InstCheck(i.id) && !FixedForm(i.id) && !IsStringOp(i.id) ==>
                  (m <==> exists j :: 0 <= j < |i.operands| && v.shown[j].modified))
  {
    if !InstCheck(i.id) && !FixedForm(i.id) && !IsStringOp(i.id) && |i.operands| > 0 {
      JoinedModified(v, |i.operands|);
    }
  }

  /** Returns, calls and jumps print after the address column and stop
      before `_rep_end`: under a REP prefix (the `rep ret` idiom) the loop
      header is printed and its closing brace never is. A return prints its
      assembler syntax, a call its mnemonic and its target in hex mode, a
      jump its target. */
  lemma TransferLeavesLoopOpen(c: Ctx, i: Inst, v: Views, tab: int)
    requires WellFormed(i) && Renders(c, i, v) && (IsRet(i.id) || IsCall(i.id) || IsJump(i.id))
    ensures var toks := Dispatch(c, i, v, tab).toks;
            var (open, inner) := RepBegin(i, tab);
            var head := open + [LabelAndAddress(i.address, inner), Bytes(i.address)];
            && (HasRep(i) ==> toks[..4] == [Tabs(tab)] + REP_HEADER)
            && toks[|toks| - 1] != Text("}")
            && (IsRet(i.id) ==> toks == head + [RetCall(InstStr(i))])
            && (IsCall(i.id) ==> toks == head + ([RetCall(i.mnemonic), Text(" ")] + v.hexa[0].toks))
            && (IsJump(i.id) ==> toks == head + JumpBody(c, i, v))
  {
    RendersNeverClose(c, i, v);
    var (open, inner) := RepBegin(i, tab);
    var rest := Instruction(c, i, v, inner).toks;
    TransferRest(c, i, v, inner);
    HeadThenRest(i, tab, inner, rest);
  }

  /** The loop header and the address column, followed by a non-empty
      rest: the header opens the sequence and the rest closes it. */
  lemma HeadThenRest(i: Inst, tab: int, inner: int, rest: seq<Token>)
    requires |i.prefix| > 0 && rest != []
    ensures var toks := RepBegin(i, tab).0 + [LabelAndAddress(i.address, inner), Bytes(i.address)] + rest;
            && (HasRep(i) ==> toks[..4] == [Tabs(tab)] + REP_HEADER)
            && toks[|toks| - 1] == rest[|rest| - 1]
  {
  }

  /** What a return, call or jump prints after the address column. */
  lemma TransferRest(c: Ctx, i: Inst, v: Views, inner: int)
    requires WellFormed(i) && Fits(i, v) && NeverClose(v) && (IsRet(i.id) || IsCall(i.id) || IsJump(i.id))
    ensures var t := Instruction(c, i, v, inner).toks;
            && |t| >= 1 && t[|t| - 1] != Text("}")
            && (IsRet(i.id) ==> t == [RetCall(InstStr(i))])
            && (IsCall(i.id) ==> t == [RetCall(i.mnemonic), Text(" ")] + v.hexa[0].toks)
            && (IsJump(i.id) ==> t == JumpBody(c, i, v))
  {
    if IsCall(i.id) {
      var t := [RetCall(i.mnemonic), Text(" ")] + v.hexa[0].toks;
      assert t[|t| - 1] == v.hexa[0].toks[|v.hexa[0].toks| - 1];
    } else if IsJump(i.id) {
      JumpDoesNotClose(c, i, v);
    }
  }

  /** No rendering with the dereference shown ends with the loop's closing
      brace. */
  predicate NeverClose(v: Views)
  {
    (forall k :: 0 <= k < |v.shown| ==> v.shown[k].toks != [] && v.shown[k].toks[|v.shown[k].toks| - 1] != Text("}")) &&
    (forall k :: 0 <= k < |v.hexa| ==> v.hexa[k].toks != [] && v.hexa[k].toks[|v.hexa[k].toks| - 1] != Text("}"))
  }

  /** The operand printer's renderings never end with the closing brace. */
  lemma RendersNeverClose(c: Ctx, i: Inst, v: Views)
    requires Renders(c, i, v)
    ensures NeverClose(v)
  {
    forall k | 0 <= k < |i.operands|
      ensures v.shown[k].toks != [] && v.shown[k].toks[|v.shown[k].toks| - 1] != Text("}")
      ensures v.hexa[k].toks != [] && v.hexa[k].toks[|v.hexa[k].toks| - 1] != Text("}")
    {
      OperandDoesNotClose(c, i, k, false);
      OperandDoesNotClose(c, i, k, true);
    }
  }

  /** A jump never ends with the loop's closing brace. */
  lemma JumpDoesNotClose(c: Ctx, i: Inst, v: Views)
    requires Fits(i, v) && |i.operands| >= 1 && NeverClose(v)
    ensures var t := JumpBody(c, i, v);
            t[|t| - 1] != Text("}")
  {
    if i.operands[0].kind.Imm? {
      var a := i.operands[0].kind.imm;
      assert |HexString(a)| >= 3;
    } else {
      var stop := IsUncondJump(i.id) && c.comments && !c.dump && i.address !in c.jmptables;
      if !stop {
        var t := [Text(i.mnemonic + " ")] + Op(v, 0);
        assert JumpBody(c, i, v) == t;
        assert t[|t| - 1] == Op(v, 0)[|Op(v, 0)| - 1];
      }
    }
  }

  /** An operand printed with its dereference never ends with the loop's
      closing brace. */
  lemma OperandDoesNotClose(c: Ctx, i: Inst, k: nat, hexa: bool)
    requires k < |i.operands|
    ensures var t := OperandOut(c, i, k, hexa, true).toks;
            |t| >= 1 && t[|t| - 1] != Text("}")
  {
    match i.operands[k].kind
    case Imm(imm) =>
      ImmDoesNotClose(c, imm, i.operands[k].size, hexa);
    case Reg(_) =>
    case Fp(_) =>
    case Mem(m) =>
      if !SpecialMem(c, i, k, m) {
        assert GeneralMemOperand(c, m, true).toks == [Text("*(")] + MemBody(c, m) + [Text(")")];
      }
  }

  lemma ImmDoesNotClose(c: Ctx, imm: int, size: nat, hexa: bool)
    ensures var t := ImmOperand(c, imm, size, hexa).toks;
            |t| >= 1 && t[|t| - 1] != Text("}")
  {
    if IsAddress(c, imm).0.Some? {
      AddressDoesNotClose(c, imm);
    } else if size != 1 && hexa {
      assert |HexString(imm)| >= 3;
    } else if size != 1 {
      DecimalDoesNotClose(c, imm, size);
    }
  }

  lemma AddressDoesNotClose(c: Ctx, imm: int)
    requires IsAddress(c, imm).0.Some?
    ensures var t := AddressImm(c, imm).toks;
            |t| >= 1 && t[|t| - 1] != Text("}")
  {
    var named := imm in c.reverseSymbols || imm in c.labels;
    var front := SectionPrefix(c, imm) + NameParts(c, imm) + RawHex(imm, named);
    assert AddressImm(c, imm).toks == front + DataPreview(c, imm);
    if named {
      assert RawHex(imm, named) == [];
      assert NameParts(c, imm)[|NameParts(c, imm)| - 1] == Text(" ");
    } else {
      assert |HexString(imm)| >= 3;
    }
    assert front[|front| - 1] != Text("}");
  }

  lemma DecimalDoesNotClose(c: Ctx, imm: int, size: nat)
    ensures var t := DecimalImm(c, imm, size).toks;
            |t| >= 1 && t[|t| - 1] != Text("}")
  {
    var s := DecimalString(imm);
    assert s[0] == '-' || '0' <= s[0] <= '9';
    assert s != "}";
  }

  /** Any other instruction under a REP prefix is wrapped in the loop: the
      header at depth `tab`, the instruction one level deeper, and the
      closing brace back at depth `tab`; without the prefix the address
      column and the instruction are all there is. */
  lemma LoopWrapsBody(c: Ctx, i: Inst, v: Views, tab: int)
    requires WellFormed(i) && Fits(i, v) && !IsRet(i.id) && !IsCall(i.id) && !IsJump(i.id)
    ensures var toks := Dispatch(c, i, v, tab).toks;
            && (HasRep(i) ==>
                  && |toks| >= 7
                  && toks[..4] == [Tabs(tab)] + REP_HEADER
                  && toks[4] == LabelAndAddress(i.address, tab + 1)
                  && toks[|toks| - 2] == Tabs(tab) && toks[|toks| - 1] == Text("}"))
            && (!HasRep(i) ==>
                  toks == [LabelAndAddress(i.address, tab), Bytes(i.address)] + Body(i, v, tab).toks)
  {
    var (open, inner) := RepBegin(i, tab);
    var body := Body(i, v, inner).toks;
    assert Dispatch(c, i, v, tab).toks ==
      open + [LabelAndAddress(i.address, inner), Bytes(i.address)] + body + RepEnd(i, inner);
    RepLoopAround(i, tab, body);
  }

  /** The REP header and closing brace around any instruction text. */
  lemma RepLoopAround(i: Inst, tab: int, body: seq<Token>)
    requires |i.prefix| > 0
    ensures var (open, inner) := RepBegin(i, tab);
            var toks := open + [LabelAndAddress(i.address, inner), Bytes(i.address)] + body + RepEnd(i, inner);
            && (HasRep(i) ==>
                  && |toks| >= 7
                  && toks[..4] == [Tabs(tab)] + REP_HEADER
                  && toks[4] == LabelAndAddress(i.address, tab + 1)
                  && toks[|toks| - 2] == Tabs(tab) && toks[|toks| - 1] == Text("}"))
            && (!HasRep(i) ==> toks == [LabelAndAddress(i.address, tab), Bytes(i.address)] + body)
  {
    if HasRep(i) {
      var close := RepEnd(i, tab + 1);
      RepEndShape(i, tab + 1);
      RepBeginEndPair(i, tab);
      var toks := [Tabs(tab)] + REP_HEADER + [LabelAndAddress(i.address, tab + 1), Bytes(i.address)] + body + close;
      assert toks[|toks| - 2] == close[|close| - 2];
    }
  }

  /** The three idioms read as constants: `or x, -1` as `x = -1`,
      `and x, 0` as `x = 0` and `xor r, r` as `r = 0`; all three count as
      rewritten. */
  lemma IdiomRewrites(c: Ctx, i: Inst, tab: int)
    requires WellFormed(i)
    ensures var b := Body(i, OperandViews(c, i), tab);
            && (IsOrMinusOne(i) ==> b == Rendered(OperandOut(c, i, 0, false, true).toks + [Text(" = -1")], true))
            && (IsAndZero(i) ==> b == Rendered(OperandOut(c, i, 0, false, true).toks + [Text(" = 0")], true))
            && (IsXorSelf(i) ==> b == Rendered([RegName(i.operands[0].kind.reg), Text(" = 0")], true))
  {
  }

  /** Operand renderings that stay on the current line. */
  predicate OnOneLine(v: Views)
  {
    (forall k :: 0 <= k < |v.shown| ==> NewLine !in v.shown[k].toks) &&
    (forall k :: 0 <= k < |v.bare| ==> NewLine !in v.bare[k].toks)
  }

  lemma OperandViewsOnOneLine(c: Ctx, i: Inst)
    ensures OnOneLine(OperandViews(c, i))
  {
    var v := OperandViews(c, i);
    forall k | 0 <= k < |i.operands|
      ensures NewLine !in v.shown[k].toks && NewLine !in v.bare[k].toks
    {
      OperandOnOneLine(c, i, k, false, true);
      OperandOnOneLine(c, i, k, false, false);
    }
  }

  /** A string instruction prints one continuation line per pointer it
      moves, two for CMPS and MOVS and one otherwise, and the last line
      advances the pointer (the source pointer of CMPS is primed). */
  lemma StringAdvance(i: Inst, v: Views, tab: int)
    requires |i.operands| >= 2 && Fits(i, v) && OnOneLine(v) && IsStringOp(i.id)
    ensures var t := StringBody(i, v, tab);
            && multiset(t)[NewLine] == (if InstCmps(i.id) || InstMovs(i.id) then 2 else 1)
            && t[|t| - 1] == Text(if InstCmps(i.id) then "' += D" else " += D")
  {
    assert NewLine !in Op(v, 0) && NewLine !in Op(v, 1);
    assert NewLine !in Ptr(v, 0) && NewLine !in Ptr(v, 1);
    if InstScas(i.id) {
      OneAdvance(i, v, tab, " cmp ", 1);
      ScasBody(i, v, tab);
    } else if InstStos(i.id) {
      OneAdvance(i, v, tab, " = ", 0);
      StosBody(i, v, tab);
    } else if InstLods(i.id) {
      OneAdvance(i, v, tab, " = ", 1);
      LodsBody(i, v, tab);
    } else if InstCmps(i.id) {
      TwoAdvances(i, v, tab, " cmp ", "' += D");
      CmpsBody(i, v, tab);
    } else {
      TwoAdvances(i, v, tab, " = ", " += D");
      MovsBody(i, v, tab);
    }
  }

  /** Which branch of the string rendering each instruction group takes. */
  lemma ScasBody(i: Inst, v: Views, tab: int)
    requires |i.operands| >= 2 && Fits(i, v) && InstScas(i.id)
    ensures !InstCmps(i.id) && !InstMovs(i.id)
    ensures StringBody(i, v, tab) == Statement(v, " cmp ") + Advance(i, v, tab, 1, " += D")
  {
  }

  lemma StosBody(i: Inst, v: Views, tab: int)
    requires |i.operands| >= 2 && Fits(i, v) && InstStos(i.id)
    ensures !InstCmps(i.id) && !InstMovs(i.id)
    ensures StringBody(i, v, tab) == Statement(v, " = ") + Advance(i, v, tab, 0, " += D")
  {
  }

  lemma LodsBody(i: Inst, v: Views, tab: int)
    requires |i.operands| >= 2 && Fits(i, v) && InstLods(i.id)
    ensures !InstCmps(i.id) && !InstMovs(i.id)
    ensures StringBody(i, v, tab) == Statement(v, " = ") + Advance(i, v, tab, 1, " += D")
  {
  }

  lemma CmpsBody(i: Inst, v: Views, tab: int)
    requires |i.operands| >= 2 && Fits(i, v) && InstCmps(i.id)
    ensures StringBody(i, v, tab) ==
            Statement(v, " cmp ") + Advance(i, v, tab, 0, " += D") + Advance(i, v, tab, 1, "' += D")
  {
  }

  lemma MovsBody(i: Inst, v: Views, tab: int)
    requires |i.operands| >= 2 && Fits(i, v) && InstMovs(i.id)
    ensures !InstCmps(i.id)
    ensures StringBody(i, v, tab) ==
            Statement(v, " = ") + Advance(i, v, tab, 0, " += D") + Advance(i, v, tab, 1, " += D")
  {
  }

  /** The statement and one pointer advance: one line break, and the
      advance ends the text. */
  lemma OneAdvance(i: Inst, v: Views, tab: int, sep: string, k: nat)
    requires |v.shown| >= 2 && k < |v.bare|
    requires NewLine !in Op(v, 0) && NewLine !in Op(v, 1) && NewLine !in Ptr(v, k)
    ensures var t := Statement(v, sep) + Advance(i, v, tab, k, " += D");
            multiset(t)[NewLine] == 1 && t[|t| - 1] == Text(" += D")
  {
    var s := Statement(v, sep);
    StatementCount(v, sep);
    AdvanceCount(i, v, tab, k, " += D");
    assert multiset(s + Advance(i, v, tab, k, " += D")) == multiset(s) + multiset(Advance(i, v, tab, k, " += D"));
  }

  /** The statement and two pointer advances: two line breaks, and the
      second advance ends the text. */
  lemma TwoAdvances(i: Inst, v: Views, tab: int, sep: string, suffix: string)
    requires |v.shown| >= 2 && |v.bare| >= 2
    requires NewLine !in Op(v, 0) && NewLine !in Op(v, 1) && NewLine !in Ptr(v, 0) && NewLine !in Ptr(v, 1)
    ensures var t := Statement(v, sep) + Advance(i, v, tab, 0, " += D") + Advance(i, v, tab, 1, suffix);
            multiset(t)[NewLine] == 2 && t[|t| - 1] == Text(suffix)
  {
    var s := Statement(v, sep) + Advance(i, v, tab, 0, " += D");
    OneAdvance(i, v, tab, sep, 0);
    AdvanceCount(i, v, tab, 1, suffix);
    assert multiset(s + Advance(i, v, tab, 1, suffix)) == multiset(s) + multiset(Advance(i, v, tab, 1, suffix));
  }

  /** The statement stays on the instruction's line. */
  lemma StatementCount(v: Views, sep: string)
    requires |v.shown| >= 2 && NewLine !in Op(v, 0) && NewLine !in Op(v, 1)
    ensures multiset(Statement(v, sep))[NewLine] == 0
  {
    assert NewLine !in Statement(v, sep);
  }

  /** One pointer advance counts one line break and ends with its suffix. */
  lemma AdvanceCount(i: Inst, v: Views, tab: int, k: nat, suffix: string)
    requires k < |v.bare| && NewLine !in Ptr(v, k)
    ensures var t := Advance(i, v, tab, k, suffix);
            multiset(t)[NewLine] == 1 && t[|t| - 1] == Text(suffix)
  {
    var t := Advance(i, v, tab, k, suffix);
    assert t == Continue(i, tab) + Ptr(v, k) + [Text(suffix)];
    assert multiset(t) == multiset(Continue(i, tab)) + multiset(Ptr(v, k)) + multiset([Text(suffix)]);
    assert multiset(Continue(i, tab))[NewLine] == 1;
  }

  /** A jump to an immediate shows its label when the target has one and
      its hex otherwise; any other jump shows its operand and, for an
      unconditional jump outside a known jump table with comments on and
      outside dump mode, ends with the `# STOPPED` mark. */
  lemma JumpTarget(c: Ctx, i: Inst, v: Views)
    requires Fits(i, v) && |i.operands| >= 1 && EndsClean(v)
    ensures var t := JumpBody(c, i, v);
            && (i.operands[0].kind.Imm? ==>
                  var a := i.operands[0].kind.imm;
                  t[|t| - 1] == (if a in c.addrColor then LabelOrAddress(a, -1, false) else Text(HexString(a))))
            && (!i.operands[0].kind.Imm? ==>
                  (t[|t| - 1] == Comment(" # STOPPED") <==>
                    IsUncondJump(i.id) && c.comments && !c.dump && i.address !in c.jmptables))
  {
  }

  /** The shape of what `_asm_inst` prints for an instruction whose
      `__sub_asm_inst` reported `modified`: the user comments come first; a
      fused instruction prints nothing else; otherwise the line ends with a
      new line, just after the assembler syntax as a comment exactly when
      the instruction was rewritten and comments are on. */
  predicate AsmShaped(c: Ctx, i: Inst, tab: int, modified: bool, toks: seq<Token>)
  {
    var before := CommentsBefore(c, i.address, tab);
    && |toks| >= |before| && toks[..|before|] == before
    && (i.address in c.allFusedInst ==> toks == before)
    && (i.address !in c.allFusedInst ==>
          && |toks| >= |before| + 2 && toks[|toks| - 1] == NewLine
          && (toks[|toks| - 2] == Comment(" # " + InstStr(i)) <==> modified && c.comments))
  }

  /** The whole of `_asm_inst` has that shape, for the `modified` that
      `__sub_asm_inst` reports. */
  lemma AsmInstLine(c: Ctx, i: Inst, v: Views, tab: int)
    requires WellFormed(i) && Renders(c, i, v)
    ensures AsmShaped(c, i, tab, Dispatch(c, i, v, tab).modified, AsmInst(c, i, v, tab))
  {
    RendersEndClean(c, i, v);
    DispatchLastIsNotComment(c, i, v, tab);
    LineShaped(c, i, tab, Dispatch(c, i, v, tab));
  }

  lemma LineShaped(c: Ctx, i: Inst, tab: int, sub: Rendered)
    requires |sub.toks| >= 1 && sub.toks[|sub.toks| - 1] != Comment(" # " + InstStr(i))
    ensures AsmShaped(c, i, tab, sub.modified, AsmLine(c, i, tab, sub))
  {
    AsmLineShape(c, i, tab, sub);
  }
}
