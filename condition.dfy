/** The boolean of a conditional jump, optionally fused with the
    flag-setting instruction before it (`Output._if_cond`). */
module ConditionSpec {
  import opened Capstone
  import opened Sink
  import opened Lookups
  import opened OpSets
  import opened OperandSpec

  /** What the caller hands over as the fused instruction: it has the
      operands the printer reads (a TEST prints only its first one). */
  predicate FusableShape(f: Inst)
  {
    |f.operands| >= 1 && (f.id != TEST ==> |f.operands| >= 2)
  }

  /** Whether the condition ends with the implicit ` 0`: always after a
      TEST, never after a CMP, and otherwise when the jump compares with
      zero or the fused instruction assigns. */
  predicate AddsZero(jumpCond: Opcode, fusedId: Opcode)
  {
    fusedId == TEST ||
    (fusedId != CMP && (JmpAddZero(jumpCond) || AssignmentOp(fusedId)))
  }

  /** The comparison between the opening parentheses and the optional
      ` 0`: `op0 cond` after a TEST, `op0 sym op1) cond` after an
      assignment, `op0 cond op1` otherwise; `v` holds the fused
      instruction's operands as printed. */
  function FusedComparison(jumpCond: Opcode, f: Inst, v: Views): seq<Token>
    requires FusableShape(f) && Fits(f, v)
  {
    Op(v, 0) + [Text(" ")] +
    (if f.id == TEST then [CondSym(jumpCond)]
     else if AssignmentOp(f.id) then
       [InstSym(f.id), Text(" ")] + Op(v, 1) + [Text(") "), CondSym(jumpCond)]
     else
       [CondSym(jumpCond), Text(" ")] + Op(v, 1))
  }

  /** The condition of a jump fused with the flag-setting instruction `f`. */
  function FusedCond(jumpCond: Opcode, f: Inst, v: Views): seq<Token>
    requires FusableShape(f) && Fits(f, v)
  {
    (if AssignmentOp(f.id) then [Text("(")] else []) + [Text("(")] +
    FusedComparison(jumpCond, f, v) +
    (if AddsZero(jumpCond, f.id) then [Text(" 0")] else []) + [Text(")")]
  }

  /** `_if_cond(jump_cond, fused_inst)`. */
  function IfCond(c: Ctx, jumpCond: Opcode, fused: Option<Inst>): (toks: seq<Token>)
    requires fused.Some? ==> FusableShape(fused.value)
  {
    match fused
    case None =>
      [CondSym(jumpCond)] + (if JmpAddZero(jumpCond) then [Text(" 0")] else [])
    case Some(f) =>
      FusedCond(jumpCond, f, OperandViews(c, f))
  }

  /** Without a fused instruction the condition is the jump's comparison
      symbol, followed by ` 0` exactly for the jumps that compare with
      zero. */
  lemma UnfusedZero(c: Ctx, jumpCond: Opcode)
    ensures var toks := IfCond(c, jumpCond, None);
            toks[0] == CondSym(jumpCond) && (Text(" 0") in toks <==> JmpAddZero(jumpCond))
  {
    var toks := IfCond(c, jumpCond, None);
    if JmpAddZero(jumpCond) {
      assert toks[1] == Text(" 0");
    }
  }

  /** A fused condition ends with ` 0` exactly when `AddsZero` says so: a
      fused TEST always compares with zero, a fused CMP never does. */
  lemma FusedZero(c: Ctx, jumpCond: Opcode, f: Inst)
    requires FusableShape(f)
    ensures var toks := IfCond(c, jumpCond, Some(f));
            |toks| >= 3 && (toks[|toks| - 2] == Text(" 0") <==> AddsZero(jumpCond, f.id))
    ensures f.id == TEST ==> AddsZero(jumpCond, f.id)
    ensures f.id == CMP ==> Text(" 0") !in IfCond(c, jumpCond, Some(f))
  {
    OperandViewsHaveNoZero(c, f);
    FusedCondZero(jumpCond, f, OperandViews(c, f));
  }

  /** No shown operand holds the literal ` 0`. */
  predicate NoZero(v: Views)
  {
    forall k :: 0 <= k < |v.shown| ==> Text(" 0") !in v.shown[k].toks
  }

  lemma OperandViewsHaveNoZero(c: Ctx, f: Inst)
    ensures NoZero(OperandViews(c, f))
  {
    var v := OperandViews(c, f);
    forall k | 0 <= k < |v.shown|
      ensures Text(" 0") !in v.shown[k].toks
    {
      OperandHasNoZeroSuffix(c, f, k, false, true);
    }
  }

  lemma FusedCondZero(jumpCond: Opcode, f: Inst, v: Views)
    requires FusableShape(f) && Fits(f, v) && NoZero(v)
    ensures var toks := FusedCond(jumpCond, f, v);
            |toks| >= 3 && (toks[|toks| - 2] == Text(" 0") <==> AddsZero(jumpCond, f.id))
    ensures f.id == TEST ==> AddsZero(jumpCond, f.id)
    ensures f.id == CMP ==> Text(" 0") !in FusedCond(jumpCond, f, v)
  {
    var toks := FusedCond(jumpCond, f, v);
    var opens := if AssignmentOp(f.id) then [Text("(")] else [];
    var mid := FusedComparison(jumpCond, f, v);
    ComparisonHasNoZero(jumpCond, f, v);
    if AddsZero(jumpCond, f.id) {
      assert toks == (opens + [Text("(")] + mid) + [Text(" 0"), Text(")")];
    } else {
      var front := opens + [Text("(")];
      assert toks == front + mid + [Text(")")];
      assert toks[|toks| - 2] == mid[|mid| - 1];
      if f.id == CMP {
        assert front == [Text("(")];
        forall t | t in toks ensures t != Text(" 0") {
          assert t in front || t in mid || t == Text(")");
        }
      }
    }
  }

  lemma ComparisonHasNoZero(jumpCond: Opcode, f: Inst, v: Views)
    requires FusableShape(f) && Fits(f, v) && NoZero(v)
    ensures |FusedComparison(jumpCond, f, v)| >= 2
    ensures Text(" 0") !in FusedComparison(jumpCond, f, v)
  {
    var rest := if f.id == TEST then [CondSym(jumpCond)]
      else if AssignmentOp(f.id) then
        [InstSym(f.id), Text(" ")] + Op(v, 1) + [Text(") "), CondSym(jumpCond)]
      else
        [CondSym(jumpCond), Text(" ")] + Op(v, 1);
    assert FusedComparison(jumpCond, f, v) == Op(v, 0) + [Text(" ")] + rest;
    assert Text(" 0") !in Op(v, 0);
    assert Text(" 0") !in rest;
  }

  /** The fused condition is wrapped in one pair of parentheses, two for an
      assigning instruction; the inner pair closes right before the
      jump's comparison symbol. */
  lemma FusedParentheses(c: Ctx, jumpCond: Opcode, f: Inst)
    requires FusableShape(f)
    ensures var toks := IfCond(c, jumpCond, Some(f));
            var n := if AssignmentOp(f.id) then 2 else 1;
            && |toks| > n
            && (forall j :: 0 <= j < n ==> toks[j] == Text("("))
            && toks[|toks| - 1] == Text(")")
            && (AssignmentOp(f.id) ==>
                  var z := if AddsZero(jumpCond, f.id) then 1 else 0;
                  toks[|toks| - 3 - z] == Text(") ") && toks[|toks| - 2 - z] == CondSym(jumpCond))
  {
    FusedCondParentheses(jumpCond, f, OperandViews(c, f));
  }

  lemma FusedCondParentheses(jumpCond: Opcode, f: Inst, v: Views)
    requires FusableShape(f) && Fits(f, v)
    ensures var toks := FusedCond(jumpCond, f, v);
            var n := if AssignmentOp(f.id) then 2 else 1;
            && |toks| > n
            && (forall j :: 0 <= j < n ==> toks[j] == Text("("))
            && toks[|toks| - 1] == Text(")")
            && (AssignmentOp(f.id) ==>
                  var z := if AddsZero(jumpCond, f.id) then 1 else 0;
                  toks[|toks| - 3 - z] == Text(") ") && toks[|toks| - 2 - z] == CondSym(jumpCond))
  {
    var toks := FusedCond(jumpCond, f, v);
    var opens := if AssignmentOp(f.id) then [Text("(")] else [];
    var mid := FusedComparison(jumpCond, f, v);
    var zero := if AddsZero(jumpCond, f.id) then [Text(" 0")] else [];
    assert toks == opens + [Text("(")] + mid + zero + [Text(")")];
  }
}
