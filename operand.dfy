/** How one operand of a decoded instruction is printed, and whether the
    printed text differs from the assembler syntax (`Output._operand`). */
module OperandSpec {
  import opened Capstone
  import opened PyFormat
  import opened Sink
  import opened Lookups

  /** An immediate that lies in a section: an optional `(section) `
      prefix, then its symbol and/or its label, or its raw hex when it has
      neither, then a string preview when it points into data. */
  function AddressImm(c: Ctx, imm: int): (r: Rendered)
    requires IsAddress(c, imm).0.Some?
    ensures r.modified <==> imm in c.reverseSymbols || imm in c.labels
  {
    var named := imm in c.reverseSymbols || imm in c.labels;
    Rendered(SectionPrefix(c, imm) + NameParts(c, imm) + RawHex(imm, named) + DataPreview(c, imm), named)
  }

  function SectionPrefix(c: Ctx, imm: int): seq<Token>
    requires IsAddress(c, imm).0.Some?
  {
    if c.sectionsName then [Text("("), SectionName(IsAddress(c, imm).0.value), Text(") ")] else []
  }

  function NameParts(c: Ctx, imm: int): seq<Token>
  {
    (if imm in c.reverseSymbols then [Symbol(imm), Text(" ")] else []) +
    (if imm in c.labels then [Label(imm), Text(" ")] else [])
  }

  function RawHex(imm: int, named: bool): seq<Token>
  {
    if !named then [Text(HexString(imm))] else []
  }

  function DataPreview(c: Ctx, imm: int): seq<Token>
  {
    var s := GetString(c, imm);
    if IsAddress(c, imm).1 && s != EMPTY_QUOTED then [Text(" "), Str(s)] else []
  }

  /** What an address immediate shows: its symbol exactly when it has one,
      its label exactly when it has one, its raw hex exactly when it has
      neither, and a string preview exactly when it points into data that
      holds a non-empty string. */
  lemma AddressImmShows(c: Ctx, imm: int)
    requires IsAddress(c, imm).0.Some?
    ensures var r := AddressImm(c, imm);
            && (Text(HexString(imm)) in r.toks <==> !r.modified)
            && (Symbol(imm) in r.toks <==> imm in c.reverseSymbols)
            && (Label(imm) in r.toks <==> imm in c.labels)
            && ((exists s :: Str(s) in r.toks) <==>
                  IsAddress(c, imm).1 && GetString(c, imm) != EMPTY_QUOTED)
  {
    AddressHexShown(c, imm);
    AddressNamesShown(c, imm);
    AddressPreviewShown(c, imm);
  }

  lemma AddressHexShown(c: Ctx, imm: int)
    requires IsAddress(c, imm).0.Some?
    ensures var r := AddressImm(c, imm);
            Text(HexString(imm)) in r.toks <==> !r.modified
  {
    var r := AddressImm(c, imm);
    var a, b, d, e := SectionPrefix(c, imm), NameParts(c, imm), RawHex(imm, r.modified), DataPreview(c, imm);
    assert r.toks == a + b + d + e;
    HexIsNotLiteral(imm);
    InPieces(Text(HexString(imm)), a, b, d, e);
  }

  lemma AddressNamesShown(c: Ctx, imm: int)
    requires IsAddress(c, imm).0.Some?
    ensures var r := AddressImm(c, imm);
            && (Symbol(imm) in r.toks <==> imm in c.reverseSymbols)
            && (Label(imm) in r.toks <==> imm in c.labels)
  {
    var r := AddressImm(c, imm);
    var a, b, d, e := SectionPrefix(c, imm), NameParts(c, imm), RawHex(imm, r.modified), DataPreview(c, imm);
    assert r.toks == a + b + d + e;
    assert Symbol(imm) !in a && Symbol(imm) !in d && Symbol(imm) !in e;
    assert Label(imm) !in a && Label(imm) !in d && Label(imm) !in e;
    InPieces(Symbol(imm), a, b, d, e);
    InPieces(Label(imm), a, b, d, e);
  }

  lemma AddressPreviewShown(c: Ctx, imm: int)
    requires IsAddress(c, imm).0.Some?
    ensures var r := AddressImm(c, imm);
            (exists s :: Str(s) in r.toks) <==> IsAddress(c, imm).1 && GetString(c, imm) != EMPTY_QUOTED
  {
    var r := AddressImm(c, imm);
    var a, b, d, e := SectionPrefix(c, imm), NameParts(c, imm), RawHex(imm, r.modified), DataPreview(c, imm);
    assert r.toks == a + b + d + e;
    forall s | Str(s) in r.toks
      ensures Str(s) in e
    {
      InPieces(Str(s), a, b, d, e);
    }
    if IsAddress(c, imm).1 && GetString(c, imm) != EMPTY_QUOTED {
      InPieces(Str(GetString(c, imm)), a, b, d, e);
    }
  }

  /** A token is in four pieces put together exactly when it is in one. */
  lemma InPieces(t: Token, a: seq<Token>, b: seq<Token>, d: seq<Token>, e: seq<Token>)
    ensures t in a + b + d + e <==> t in a || t in b || t in d || t in e
  {
  }

  /** `hex(n)` never coincides with a literal the printer adds around it. */
  lemma HexIsNotLiteral(n: int)
    ensures HexString(n) !in {"(", ") ", " ", ")", "*(", " + ", " 0"}
  {
    var h := HexString(n);
    assert h[0] in {'0', '-'};
  }

  /** Whether every byte of a little-endian packing is printable. */
  predicate AllPrintable(c: Ctx, b: seq<int>)
  {
    forall j :: 0 <= j < |b| ==> b[j] in c.printable
  }

  /** The quoted preview of a packed immediate: `' "` + the bytes as
      characters + `"`. */
  function Preview(b: seq<int>): (s: string)
    requires forall j :: 0 <= j < |b| ==> 0 <= b[j] < 256
    ensures |s| == |b| + 3
    ensures s[..2] == " \"" && s[|s| - 1] == '"'
    ensures forall j :: 0 <= j < |b| ==> s[j + 2] as int == b[j]
  {
    " \"" + BytesAsText(b) + "\""
  }

  /** A plain (decimal) immediate that is not an address. Positive values of
      width 4 or 8 whose bytes are all printable get a string preview and
      count as unchanged; other positive widths count as unchanged with no
      preview; zero, negatives and non-printable packings count as changed
      (the assembler prints immediates in hex). */
  function DecimalImm(c: Ctx, imm: int, size: nat): (r: Rendered)
    ensures |r.toks| >= 1 && r.toks[0] == Text(DecimalString(imm))
    ensures imm > 0 && size in {4, 8} && AllPrintable(c, LeBytes(imm, size)) ==>
              !r.modified && r.toks == [Text(DecimalString(imm)), Str(Preview(LeBytes(imm, size)))]
    ensures imm > 0 && size !in {4, 8} ==> !r.modified && r.toks == [Text(DecimalString(imm))]
    ensures imm <= 0 || (size in {4, 8} && !AllPrintable(c, LeBytes(imm, size))) ==>
              r.modified && r.toks == [Text(DecimalString(imm))]
  {
    var dec := [Text(DecimalString(imm))];
    if imm > 0 then
      if size == 4 || size == 8 then
        var packed := LeBytes(imm, size);
        if AllPrintable(c, packed) then Rendered(dec + [Str(Preview(packed))], false)
        else Rendered(dec, true)
      else Rendered(dec, false)
    else Rendered(dec, true)
  }

  /** An immediate operand: an address, else a character literal for a
      one-byte operand, else hex when asked for, else decimal. */
  function ImmOperand(c: Ctx, imm: int, size: nat, hexa: bool): (r: Rendered)
    ensures IsAddress(c, imm).0.None? && size == 1 ==> r == Rendered([CharLit(imm)], false)
    ensures IsAddress(c, imm).0.None? && size != 1 && hexa ==>
              r == Rendered([Text(HexString(imm))], false)
  {
    if IsAddress(c, imm).0.Some? then AddressImm(c, imm)
    else if size == 1 then Rendered([CharLit(imm)], false)
    else if hexa then Rendered([Text(HexString(imm))], false)
    else DecimalImm(c, imm, size)
  }

  /** The base-only memory operand with a displacement and no index or
      segment, which may print as a stack variable or as a RIP-relative
      absolute address. */
  predicate BaseDispOnly(m: MemOp)
  {
    m.base.Some? && m.disp != 0 && m.segment.None? && m.index.None?
  }

  predicate IsFrameReg(r: Reg) { r == RBP || r == EBP }

  predicate IsIpReg(r: Reg) { r == RIP || r == EIP }

  /** Whether the special forms apply: a frame-pointer operand with a
      registered variable name, or an instruction-pointer operand. */
  predicate SpecialMem(c: Ctx, i: Inst, k: nat, m: MemOp)
  {
    BaseDispOnly(m) &&
    ((IsFrameReg(m.base.value) && (i.address, k) in c.varNames) || IsIpReg(m.base.value))
  }

  /** The special forms: the variable name alone, or `*(target)` where the
      target is the end of the instruction plus the displacement, printed
      as its symbol or in hex. */
  function SpecialMemOperand(c: Ctx, i: Inst, k: nat, m: MemOp): (r: Rendered)
    requires SpecialMem(c, i, k, m)
    ensures r.modified
    ensures IsFrameReg(m.base.value) && (i.address, k) in c.varNames ==>
              r.toks == [Variable(c.varNames[(i.address, k)])]
    ensures IsIpReg(m.base.value) ==>
              var target := i.address + i.size + m.disp;
              |r.toks| == 3 && r.toks[0] == Text("*(") && r.toks[2] == Text(")") &&
              r.toks[1] == (if target in c.reverseSymbols then Symbol(target) else Text(HexString(target)))
  {
    if IsFrameReg(m.base.value) && (i.address, k) in c.varNames then
      Rendered([Variable(c.varNames[(i.address, k)])], true)
    else
      var target := i.address + i.size + m.disp;
      var shown := if target in c.reverseSymbols then Symbol(target) else Text(HexString(target));
      Rendered([Text("*("), shown, Text(")")], true)
  }

  /** The base or, failing that, the segment register. */
  function BasePart(m: MemOp): seq<Token>
  {
    if m.base.Some? then [RegName(m.base.value)]
    else if m.segment.Some? then [RegName(m.segment.value)]
    else []
  }

  /** The index term, `index` for scale 1 and `(index*scale)` otherwise,
      joined to what came before by `" + "`. */
  function IndexPart(m: MemOp, printed: bool): seq<Token>
  {
    if m.index.Some? then
      (if printed then [Text(" + ")] else []) +
      (if m.scale == 1 then [RegName(m.index.value)] else [ScaledIndex(m.index.value, m.scale)])
    else []
  }

  /** The displacement term: an address prints as its symbol or in hex
      (joined by `" + "` when something came before); any other nonzero
      displacement prints as `" + n"` or `" - |n|"` only after something
      was printed. */
  function DispPart(c: Ctx, m: MemOp, printed: bool): seq<Token>
  {
    if m.disp == 0 then []
    else if IsAddress(c, m.disp).0.Some? then
      (if printed then [Text(" + ")] else []) +
      [if m.disp in c.reverseSymbols then Symbol(m.disp) else Text(HexString(m.disp))]
    else if printed then
      [Text(if m.disp < 0 then " - " + DecimalString(-m.disp) else " + " + DecimalString(m.disp))]
    else []
  }

  /** The address expression `base + (index*scale) + disp` without the
      dereference wrapper. */
  function MemBody(c: Ctx, m: MemOp): seq<Token>
  {
    var p1 := BasePart(m);
    var p2 := IndexPart(m, p1 != []);
    p1 + p2 + DispPart(c, m, p1 + p2 != [])
  }

  /** The general memory operand, `*(` body `)` when the dereference is
      shown and the bare body otherwise. */
  function GeneralMemOperand(c: Ctx, m: MemOp, showDeref: bool): (r: Rendered)
    ensures r.modified
  {
    var open := if showDeref then [Text("*(")] else [];
    var close := if showDeref then [Text(")")] else [];
    Rendered(open + MemBody(c, m) + close, true)
  }

  /** `Output._operand(i, k, hexa, show_deref)`. */
  function OperandOut(c: Ctx, i: Inst, k: nat, hexa: bool, showDeref: bool): (r: Rendered)
    requires k < |i.operands|
    ensures i.operands[k].kind.Reg? ==> r == Rendered([RegName(i.operands[k].kind.reg)], false)
    ensures i.operands[k].kind.Fp? ==> r == Rendered([FpText(i.operands[k].kind.fp)], false)
    ensures i.operands[k].kind.Mem? ==> r.modified
  {
    var op := i.operands[k];
    match op.kind
    case Imm(imm) => ImmOperand(c, imm, op.size, hexa)
    case Reg(reg) => Rendered([RegName(reg)], false)
    case Fp(x) => Rendered([FpText(x)], false)
    case Mem(m) => MemOperand(c, i, k, m, showDeref)
  }

  /** A memory operand: one of the special forms when they apply, the
      general address expression otherwise. */
  function MemOperand(c: Ctx, i: Inst, k: nat, m: MemOp, showDeref: bool): (r: Rendered)
    ensures r.modified
  {
    if SpecialMem(c, i, k, m) then SpecialMemOperand(c, i, k, m)
    else GeneralMemOperand(c, m, showDeref)
  }

  /** A term of the address expression is never one of the wrapper's own
      literals `*(` and `)`, nor the literal `" 0"`. */
  lemma MemBodyHasNoWrapper(c: Ctx, m: MemOp)
    ensures forall t :: t in MemBody(c, m) ==> t != Text("*(") && t != Text(")") && t != Text(" 0")
  {
    var p1 := BasePart(m);
    var p2 := IndexPart(m, p1 != []);
    var p3 := DispPart(c, m, p1 + p2 != []);
    assert MemBody(c, m) == p1 + p2 + p3;
    DispPartHasNoWrapper(c, m, p1 + p2 != []);
    forall t | t in MemBody(c, m)
      ensures t != Text("*(") && t != Text(")") && t != Text(" 0")
    {
      assert t in p1 || t in p2 || t in p3;
    }
  }

  lemma DispPartHasNoWrapper(c: Ctx, m: MemOp, printed: bool)
    ensures forall t :: t in DispPart(c, m, printed) ==> t != Text("*(") && t != Text(")") && t != Text(" 0")
  {
    HexIsNotLiteral(m.disp);
    if m.disp != 0 && IsAddress(c, m.disp).0.None? && printed {
      var d := if m.disp < 0 then " - " + DecimalString(-m.disp) else " + " + DecimalString(m.disp);
      assert DispPart(c, m, printed) == [Text(d)];
      assert |d| >= 4;
    }
  }

  /** The general memory operand always counts as changed and prints the
      dereference wrapper `*(` ... `)` exactly when it is asked for: both
      literals or neither. */
  lemma GeneralMemWrapper(c: Ctx, m: MemOp, showDeref: bool)
    ensures var r := GeneralMemOperand(c, m, showDeref);
            && r.modified
            && (Text("*(") in r.toks <==> showDeref)
            && (Text(")") in r.toks <==> showDeref)
            && (showDeref ==> r.toks[0] == Text("*(") && r.toks[|r.toks| - 1] == Text(")"))
  {
    MemBodyHasNoWrapper(c, m);
    var r := GeneralMemOperand(c, m, showDeref);
    if showDeref {
      assert r.toks == [Text("*(")] + MemBody(c, m) + [Text(")")];
    } else {
      assert r.toks == MemBody(c, m);
    }
  }

  /** Within the address expression, `" + "` only ever joins a term to
      one already printed: the expression never starts with it. */
  lemma MemBodyJoinsAfterPrinted(c: Ctx, m: MemOp)
    ensures MemBody(c, m) != [] ==> MemBody(c, m)[0] != Text(" + ")
  {
    var p1 := BasePart(m);
    var p2 := IndexPart(m, p1 != []);
    var p3 := DispPart(c, m, p1 + p2 != []);
    assert MemBody(c, m) == p1 + p2 + p3;
    if p1 == [] && p2 == [] && p3 != [] {
      HexIsNotLiteral(m.disp);
    }
  }

  /** A displacement that is not an address prints as `" - |d|"` when it is
      negative and `" + d"` when it is positive, after a printed base,
      segment or index; with nothing printed before it, it is left out. */
  lemma MemBodyDisplacement(c: Ctx, m: MemOp)
    requires m.disp != 0 && IsAddress(c, m.disp).0.None?
    ensures m.base.None? && m.segment.None? && m.index.None? ==> MemBody(c, m) == []
    ensures m.base.Some? || m.segment.Some? || m.index.Some? ==>
              MemBody(c, m)[|MemBody(c, m)| - 1] ==
                Text(if m.disp < 0 then " - " + DecimalString(-m.disp) else " + " + DecimalString(m.disp))
  {
  }

  /** No operand prints the literal `" 0"` that a condition appends. */
  lemma OperandHasNoZeroSuffix(c: Ctx, i: Inst, k: nat, hexa: bool, showDeref: bool)
    requires k < |i.operands|
    ensures Text(" 0") !in OperandOut(c, i, k, hexa, showDeref).toks
  {
    var op := i.operands[k];
    match op.kind
    case Imm(imm) =>
      ImmHasNoZeroSuffix(c, imm, op.size, hexa);
    case Reg(_) =>
    case Fp(_) =>
    case Mem(m) =>
      MemHasNoZeroSuffix(c, i, k, m, showDeref);
  }

  lemma ImmHasNoZeroSuffix(c: Ctx, imm: int, size: nat, hexa: bool)
    ensures Text(" 0") !in ImmOperand(c, imm, size, hexa).toks
  {
    if IsAddress(c, imm).0.Some? {
      AddressHasNoZeroSuffix(c, imm);
    } else if size == 1 {
    } else if hexa {
      HexIsNotLiteral(imm);
    } else {
      DecimalHasNoZeroSuffix(c, imm, size);
    }
  }

  lemma AddressHasNoZeroSuffix(c: Ctx, imm: int)
    requires IsAddress(c, imm).0.Some?
    ensures Text(" 0") !in AddressImm(c, imm).toks
  {
    HexIsNotLiteral(imm);
    var a, b := SectionPrefix(c, imm), NameParts(c, imm);
    var d, e := RawHex(imm, imm in c.reverseSymbols || imm in c.labels), DataPreview(c, imm);
    assert AddressImm(c, imm).toks == a + b + d + e;
    assert Text(" 0") !in a && Text(" 0") !in b;
    assert Text(" 0") !in d && Text(" 0") !in e;
    InPieces(Text(" 0"), a, b, d, e);
  }

  lemma DecimalHasNoZeroSuffix(c: Ctx, imm: int, size: nat)
    ensures Text(" 0") !in DecimalImm(c, imm, size).toks
  {
    var dec := DecimalString(imm);
    assert dec[0] == '-' || '0' <= dec[0] <= '9';
  }

  lemma MemHasNoZeroSuffix(c: Ctx, i: Inst, k: nat, m: MemOp, showDeref: bool)
    ensures Text(" 0") !in MemOperand(c, i, k, m, showDeref).toks
  {
    if !SpecialMem(c, i, k, m) {
      MemBodyHasNoWrapper(c, m);
      var r := GeneralMemOperand(c, m, showDeref);
      assert r.toks == (if showDeref then [Text("*(")] else []) + MemBody(c, m) +
                       (if showDeref then [Text(")")] else []);
    } else {
      HexIsNotLiteral(i.address + i.size + m.disp);
    }
  }

  /** An operand prints on the current line: it never ends the line. */
  lemma OperandOnOneLine(c: Ctx, i: Inst, k: nat, hexa: bool, showDeref: bool)
    requires k < |i.operands|
    ensures NewLine !in OperandOut(c, i, k, hexa, showDeref).toks
  {
    var op := i.operands[k];
    match op.kind
    case Imm(imm) =>
      if IsAddress(c, imm).0.Some? {
        AddressImmOnOneLine(c, imm);
      }
    case Reg(_) =>
    case Fp(_) =>
    case Mem(m) =>
      if !SpecialMem(c, i, k, m) {
        GeneralMemOnOneLine(c, m, showDeref);
      }
  }

  lemma AddressImmOnOneLine(c: Ctx, imm: int)
    requires IsAddress(c, imm).0.Some?
    ensures NewLine !in AddressImm(c, imm).toks
  {
    var a, b := SectionPrefix(c, imm), NameParts(c, imm);
    var d, e := RawHex(imm, imm in c.reverseSymbols || imm in c.labels), DataPreview(c, imm);
    assert AddressImm(c, imm).toks == a + b + d + e;
    assert NewLine !in a && NewLine !in b && NewLine !in d && NewLine !in e;
  }

  lemma GeneralMemOnOneLine(c: Ctx, m: MemOp, showDeref: bool)
    ensures NewLine !in GeneralMemOperand(c, m, showDeref).toks
  {
    var p1 := BasePart(m);
    var p2 := IndexPart(m, p1 != []);
    var p3 := DispPart(c, m, p1 + p2 != []);
    assert NewLine !in p1 && NewLine !in p2 && NewLine !in p3;
    assert MemBody(c, m) == p1 + p2 + p3;
    var open := if showDeref then [Text("*(")] else [];
    var close := if showDeref then [Text(")")] else [];
    assert GeneralMemOperand(c, m, showDeref).toks == open + MemBody(c, m) + close;
  }

  /** The renderings of every operand: with the dereference shown, without
      it, and in hex mode. */
  datatype Views = Views(shown: seq<Rendered>, bare: seq<Rendered>, hexa: seq<Rendered>)

  predicate Fits(i: Inst, v: Views)
  {
    |v.shown| == |i.operands| && |v.bare| == |i.operands| && |v.hexa| == |i.operands|
  }

  /** The views the operand printer gives for `i`. */
  function OperandViews(c: Ctx, i: Inst): (v: Views)
    ensures Fits(i, v)
    ensures forall k :: 0 <= k < |i.operands| ==>
              v.shown[k] == OperandOut(c, i, k, false, true) &&
              v.bare[k] == OperandOut(c, i, k, false, false) &&
              v.hexa[k] == OperandOut(c, i, k, true, true)
  {
    var n := |i.operands|;
    Views(seq(n, k requires 0 <= k < n => OperandOut(c, i, k, false, true)),
          seq(n, k requires 0 <= k < n => OperandOut(c, i, k, false, false)),
          seq(n, k requires 0 <= k < n => OperandOut(c, i, k, true, true)))
  }

  /** `v` holds what the operand printer gives for `i`. Each fact is
      triggered by the printer's own term only, so a proof that speaks of
      `v` alone never unfolds the printer. */
  predicate Renders(c: Ctx, i: Inst, v: Views)
  {
    Fits(i, v) &&
    (forall k {:trigger OperandOut(c, i, k, false, true)} ::
       0 <= k < |i.operands| ==> v.shown[k] == OperandOut(c, i, k, false, true)) &&
    (forall k {:trigger OperandOut(c, i, k, false, false)} ::
       0 <= k < |i.operands| ==> v.bare[k] == OperandOut(c, i, k, false, false)) &&
    (forall k {:trigger OperandOut(c, i, k, true, true)} ::
       0 <= k < |i.operands| ==> v.hexa[k] == OperandOut(c, i, k, true, true))
  }

  lemma OperandViewsRender(c: Ctx, i: Inst)
    ensures Renders(c, i, OperandViews(c, i))
  {
  }

  /** Operand `k` printed with the default options. */
  function Op(v: Views, k: nat): seq<Token>
    requires k < |v.shown|
  {
    v.shown[k].toks
  }

  /** Operand `k` printed without its dereference (a pointer register of a
      string instruction). */
  function Ptr(v: Views, k: nat): seq<Token>
    requires k < |v.bare|
  {
    v.bare[k].toks
  }

  /** The renderings are determined by the instruction: two views that
      both hold what the operand printer gives are the same. */
  lemma RendersUnique(c: Ctx, i: Inst, v: Views, w: Views)
    requires Renders(c, i, v) && Renders(c, i, w)
    ensures v == w
  {
    forall k | 0 <= k < |i.operands|
      ensures v.shown[k] == w.shown[k] && v.bare[k] == w.bare[k] && v.hexa[k] == w.hexa[k]
    {
      assert v.shown[k] == OperandOut(c, i, k, false, true);
      assert v.bare[k] == OperandOut(c, i, k, false, false);
      assert v.hexa[k] == OperandOut(c, i, k, true, true);
    }
  }
}
