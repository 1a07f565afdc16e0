/** The output sink the printer writes to. Every call the printer makes on
    the sink appends one token; the renderer that turns tokens into coloured
    text is outside this model. `Text(s)` is a plain `_add(s)`; the other
    kinds stand for the sink calls that carry their own formatting and for
    names looked up outside the printer (register names, condition and
    operator symbols, character literals). */
module Sink {
  import opened Capstone

  datatype Token =
    | Text(s: string)                    // _add(s)
    | RegName(reg: Reg)                  // _add(reg_name(reg))
    | ScaledIndex(reg: Reg, scale: int)  // _add("(%s*%d)" % (reg_name(reg), scale))
    | FpText(value: real)                // _add("%f" % value)
    | CharLit(code: int)                 // _string("'%s'" % get_char(code))
    | Str(s: string)                     // _string(s)
    | Symbol(addr: int)                  // _symbol(addr)
    | Label(addr: int)                   // _label(addr, print_colon=False)
    | SectionName(name: string)          // _section(name)
    | Variable(name: string)             // _variable(name)
    | CondSym(jump: Opcode)              // _add(cond_symbol(jump))
    | InstSym(op: Opcode)                // _add(inst_symbol(i))
    | SpacedInstSym(op: Opcode, stripEq: bool)
                                         // _add(" " + inst_symbol(i) + " "), with
                                         // .rstrip('=') applied when stripEq
    | Keyword(word: string)              // _keyword(word)
    | Comment(s: string)                 // _comment(s)
    | InternalComment(s: string)         // _internal_comment(s)
    | RetCall(s: string)                 // _retcall(s)
    | Tabs(depth: int)                   // _tabs(depth)
    | NewLine                            // _new_line()
    | LabelOrAddress(addr: int, depth: int, defaulted: bool)
                                         // _label_or_address(addr, depth), its third
                                         // argument left at its default when
                                         // defaulted, and passed as False otherwise
    | LabelAndAddress(addr: int, depth: int)  // _label_and_address(addr, depth)
    | Bytes(addr: int)                   // _bytes(i) for the instruction at addr

  /** A rendering: the tokens appended and whether the text differs from
      the assembler syntax (so that the raw instruction is worth repeating
      in a comment). */
  datatype Rendered = Rendered(toks: seq<Token>, modified: bool)
}

/** What the printer reads from the loaded binary and from the analysis
    context. All of it is a read-only snapshot for one translation. */
module Lookups {
  import opened Capstone

  /** A section that contains an address, and whether it holds data. */
  datatype Section = Section(name: string, isData: bool)

  datatype Ctx = Ctx(
    sections: map<int, Section>,     // binary.is_address: the section holding an address
    strings: map<int, string>,       // binary.get_string(addr, max_data_size), already quoted
    reverseSymbols: set<int>,        // addresses that have a symbol name
    labels: set<int>,                // addresses that are branch targets
    varNames: map<(int, nat), string>,
                                     // stack-variable names by (instruction address, operand index)
    printable: set<int>,             // the byte values that count as printable
    sectionsName: bool,              // print the section name before an address
    comments: bool,                  // print comments
    dump: bool,                      // plain dump mode (no control-flow analysis)
    jmptables: set<int>,             // addresses of indirect jumps through a known jump table
    addrColor: set<int>,             // addresses that have a colour (a label) in the listing
    allFusedInst: set<int>,          // addresses of flag-setting instructions fused into a jump
    symbolAddrs: set<int>,           // addresses at which a symbol starts (is_symbol)
    previousComments: map<int, seq<string>>,
                                     // user comments printed on lines before an instruction
    inlineComments: map<int, string>)
                                     // user comments printed after an instruction

  /** `binary.is_address(n)`: the name of the section holding `n`, if any,
      and whether that section is a data section. */
  function IsAddress(c: Ctx, n: int): (Option<string>, bool)
  {
    if n in c.sections then (Some(c.sections[n].name), c.sections[n].isData) else (None, false)
  }

  /** The quoted empty string `""` that `get_string` gives for no data. */
  const EMPTY_QUOTED := "\"\""

  /** `binary.get_string(n, max_data_size)`. */
  function GetString(c: Ctx, n: int): string
  {
    if n in c.strings then c.strings[n] else EMPTY_QUOTED
  }
}
