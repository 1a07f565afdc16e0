/** The loop printed around an instruction with a REP or REPNE prefix
    (`Output._rep_begin` and `Output._rep_end`). The indentation depth is
    threaded through: the header raises it by one, the closing brace is
    printed one level lower than the body. */
module RepSpec {
  import opened Capstone
  import opened Sink
  import opened OpSets

  predicate HasRep(i: Inst)
    requires |i.prefix| > 0
  {
    RepPrefix(i.prefix[0])
  }

  /** The loop header, printed literally as `while (!rcx)) {` (the source
      handles only the 64-bit counter). */
  const REP_HEADER: seq<Token> := [Keyword("while"), Text(" (!rcx)) {"), NewLine]

  /** `_rep_begin(i, tab)`: the tokens printed and the new depth. */
  function RepBegin(i: Inst, tab: int): (seq<Token>, int)
    requires |i.prefix| > 0
  {
    if HasRep(i) then ([Tabs(tab)] + REP_HEADER, tab + 1) else ([], tab)
  }

  /** `_rep_end(i, tab)`: the counter decrement on its own line, the early
      exit for REPNE, and the closing brace one level lower. */
  function RepEnd(i: Inst, tab: int): (toks: seq<Token>)
    requires |i.prefix| > 0
  {
    if HasRep(i) then
      [NewLine, LabelOrAddress(i.address, tab, true), Text("rcx--"), NewLine] +
      (if i.prefix[0] == PREFIX_REPNE
       then [Tabs(tab), Keyword("if"), Text(" (!Z) "), Keyword("break"), NewLine]
       else []) +
      [Tabs(tab - 1), Text("}")]
    else []
  }

  /** The end of the loop: nothing without a prefix; otherwise the counter
      decrement first and the brace last, with the early exit in between
      exactly for REPNE. */
  lemma RepEndShape(i: Inst, tab: int)
    requires |i.prefix| > 0
    ensures !HasRep(i) ==> RepEnd(i, tab) == []
    ensures HasRep(i) ==>
              var toks := RepEnd(i, tab);
              && |toks| >= 6
              && toks[..4] == [NewLine, LabelOrAddress(i.address, tab, true), Text("rcx--"), NewLine]
              && toks[|toks| - 1] == Text("}")
              && (Keyword("break") in toks <==> i.prefix[0] == PREFIX_REPNE)
  {
    if HasRep(i) {
      var toks := RepEnd(i, tab);
      if i.prefix[0] == PREFIX_REPNE {
        assert toks[7] == Keyword("break");
      } else {
        assert toks == [NewLine, LabelOrAddress(i.address, tab, true), Text("rcx--"), NewLine, Tabs(tab - 1), Text("}")];
      }
    }
  }

  /** Opening and closing pair up: the brace of `_rep_end`, given the depth
      `_rep_begin` returned, is printed at the depth of the `while` header,
      and without a prefix neither prints anything nor changes the depth. */
  lemma RepBeginEndPair(i: Inst, tab: int)
    requires |i.prefix| > 0
    ensures var (open, inner) := RepBegin(i, tab);
            var close := RepEnd(i, inner);
            && (HasRep(i) ==> inner == tab + 1 && open == [Tabs(tab)] + REP_HEADER &&
                              close[|close| - 2] == Tabs(tab) && close[|close| - 1] == Text("}"))
            && (!HasRep(i) ==> inner == tab && open == [] && close == [])
  {
  }
}
