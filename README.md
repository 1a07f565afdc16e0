# x86 pseudo-C printer of plasma, modelled in Dafny

plasma is an interactive disassembler. Its x86 back end prints each decoded
instruction as a line of pseudo-C: `rax = 0` for `xor rax, rax`, `*(rbp - 8)`
for a frame slot, and a `while (!rcx)) { ... }` loop around a `rep` string
instruction. Every printing routine of the `Output` class appends pieces of
text to the output sink through `_add`, `_symbol`, `_label` and similar
calls. Each routine also reports whether what it printed differs from the
assembler syntax (`modified`). When that flag is set and comments are on,
the line driver repeats the raw instruction as a `#` comment.

The model has the following parts.

- `Capstone` holds the decoded instruction (opcode identity, operands,
  prefix bytes). `Sink` holds the token kinds, one per sink call. `Lookups`
  holds the read-only analysis context `Ctx`: sections, strings, symbols,
  labels, variable names, comments and options.
- `OpSets` holds the opcode sets `ASSIGNMENT_OPS`, `JMP_ADD_ZERO`,
  `INST_CHECK`, `INST_STOS/LODS/MOVS/CMPS/SCAS` and `REP_PREFIX`.
- `PyFormat` holds Python's `str()` and `hex()` of an integer, written out
  with their round trips. It also holds `struct.pack("<L"/"<Q")` as
  little-endian bytes.
- `OperandSpec`, `ConditionSpec`, `RepSpec` and `DispatchSpec` specify what
  `_operand`, `_if_cond`, `_rep_begin`/`_rep_end`, `__sub_asm_inst` and
  `_asm_inst` print, as token sequences. `DispatchFacts` and the lemmas next
  to each function state what the source promises of them.
- `X86Output.Output` is the printer itself: a class whose `buf` field is the
  output sink. Each method appends with `Add`, step by step as the source
  does. Each method is proved to append exactly its specification's
  tokens, `ensures buf == old(buf) + Spec(...)`. The `modified` and
  `printed` flags, the indentation depth and the operand loop of the
  generic form are local variables, as in the source.

The dispatch methods print operands by calling `Operand`, as the source
calls `_operand`. Their specifications name the operand renderings through
a ghost `Views` argument. `Renders` ties that argument to `_operand`, and
`RendersUnique` shows that the instruction determines it.

Three behaviours of the code worth noting, all kept in the model:
- An address immediate that is both a symbol and a label prints both names.
- A positive decimal immediate of a width other than 4 or 8 reports
  `modified = false`.
- The loop header text is `" (!rcx)) {"`, with the extra bracket.

## Model

| member | source | states |
|---|---|---|
| PyFormat.DigitsRoundTrip | lib/arch/x86/output.py:121-123 | the digit string printed for a natural number reads back as that number in its base (the `str`/`hex` text of immediates) |
| PyFormat.DecimalStringRoundTrip | lib/arch/x86/output.py:121-123 | `str(n)` starts with `-` exactly for negative `n` and reads back as `n` |
| PyFormat.HexStringRoundTrip | lib/arch/x86/output.py:106-107 | `hex(n)` is `0x` (or `-0x` for negative `n`) followed by digits that read back as `n` |
| PyFormat.LeBytesRoundTrip | lib/arch/x86/output.py:124-128 | the little-endian packing of a value into `w` bytes reads back as the value modulo 256^w |
| PyFormat.BytesAsText | lib/arch/x86/output.py:131-132 | decoding packed bytes gives one character per byte with that byte's code |
| OperandSpec.AddressImm | lib/arch/x86/output.py:86-115 | an immediate that is an address is reported rewritten exactly when it has a symbol or a label |
| OperandSpec.AddressImmShows | lib/arch/x86/output.py:86-115 | for an address immediate: raw hex appears iff it was not rewritten; the symbol appears iff one exists; the label appears iff one exists (both may appear); a string preview appears iff the section holds data and the string is not `""` |
| OperandSpec.AddressHexShown | lib/arch/x86/output.py:96-107 | the raw hex of an address is printed exactly when no symbol or label replaced it |
| OperandSpec.AddressNamesShown | lib/arch/x86/output.py:96-104 | the symbol name and the label are each printed exactly when the address has one |
| OperandSpec.AddressPreviewShown | lib/arch/x86/output.py:109-113 | a string preview follows exactly when the address is in a data section with a non-empty string |
| OperandSpec.Preview | lib/arch/x86/output.py:131-132 | the preview is the packed bytes as characters between ` "` and `"` |
| OperandSpec.DecimalImm | lib/arch/x86/output.py:121-138 | a non-address immediate printed in decimal starts with its decimal text; positive of width 4 or 8 with all bytes printable: preview appended and not rewritten; positive of another width: not rewritten, no preview; zero, negative or a non-printable byte: rewritten, no preview |
| OperandSpec.ImmOperand | lib/arch/x86/output.py:84-140 | a non-address 1-byte immediate prints as one char literal and a non-address `hexa` immediate as its hex, both not rewritten |
| OperandSpec.OperandOut | lib/arch/x86/output.py:78-209 | a register prints as exactly its name and an FP operand as its value, both not rewritten; every memory operand is reported rewritten |
| OperandSpec.SpecialMemOperand | lib/arch/x86/output.py:153-168 | with a base, a nonzero displacement and no segment or index: an RBP/EBP base with a registered variable prints only that name; an RIP/EIP base prints `*(` symbol-or-hex of `address + size + disp` `)`; both are rewritten |
| OperandSpec.MemOperand | lib/arch/x86/output.py:150-209 | a memory operand is always reported rewritten |
| OperandSpec.GeneralMemOperand | lib/arch/x86/output.py:170-209 | the general memory form is always reported rewritten |
| OperandSpec.GeneralMemWrapper | lib/arch/x86/output.py:170-209 | the general form is rewritten and prints `*(` and `)` both or neither, as `show_deref` says, and when shown they open and close it |
| OperandSpec.MemBodyHasNoWrapper | lib/arch/x86/output.py:174-205 | the terms between the dereference brackets never contain the brackets themselves |
| OperandSpec.MemBodyJoinsAfterPrinted | lib/arch/x86/output.py:174-205 | the terms never start with the `" + "` joiner: it is printed only after something was printed |
| OperandSpec.MemBodyDisplacement | lib/arch/x86/output.py:191-205 | a non-address displacement is omitted when nothing was printed before it, and otherwise ends the terms as `" - "` and the absolute value when negative, or `" + "` and the value when positive |
| OperandSpec.OperandHasNoZeroSuffix | lib/arch/x86/output.py:78-209 | no operand prints the `" 0"` that `_if_cond` appends, so that suffix identifies the added comparison |
| OperandSpec.OperandOnOneLine | lib/arch/x86/output.py:78-209 | no operand prints a new line |
| OperandSpec.RendersUnique | lib/arch/x86/output.py:78-209 | the operand renderings an instruction is printed with are determined by the instruction |
| ConditionSpec.UnfusedZero | lib/arch/x86/output.py:213-217 | without a fused instruction the condition is the jump's symbol, followed by `" 0"` exactly when the jump is in `JMP_ADD_ZERO` |
| ConditionSpec.FusedZero | lib/arch/x86/output.py:219-245 | with a fused instruction `" 0"` comes just before the closing bracket exactly when the source's rule adds it; a fused TEST always adds it; a fused CMP never prints it |
| ConditionSpec.FusedCondZero | lib/arch/x86/output.py:219-245 | the same zero rule stated over given operand renderings that contain no `" 0"` |
| ConditionSpec.ComparisonHasNoZero | lib/arch/x86/output.py:224-238 | the comparison between the brackets contains no `" 0"` |
| ConditionSpec.FusedParentheses | lib/arch/x86/output.py:219-245 | a fused condition opens two brackets for an `ASSIGNMENT_OPS` instruction and one otherwise, and ends with `)`; for an assignment the inner `") "` and the jump symbol come just before the optional zero |
| ConditionSpec.FusedCondParentheses | lib/arch/x86/output.py:219-245 | the same bracket shape stated over given operand renderings |
| RepSpec.RepEndShape | lib/arch/x86/output.py:307-321 | without a REP prefix nothing; with one, first a new line, the address column, `rcx--` and a new line, then `break` exactly for REPNE, and `}` last |
| RepSpec.RepBeginEndPair | lib/arch/x86/output.py:296-321 | with a REP/REPNE first prefix the header is tabs, `while`, `" (!rcx)) {"` and a new line, the body is one level deeper, and the closing brace is printed at the depth the header was opened at; without one neither is printed and the depth is unchanged |
| DispatchSpec.AllSameRegMeans | lib/arch/x86/output.py:372-374 | "every operand is a register and they form a one-element set" means "every operand is the first operand's register" |
| DispatchSpec.JoinedOperands | lib/arch/x86/output.py:508-513 | the comma-joined operand list starts with the first operand's rendering and has at least one token per separator |
| DispatchSpec.JoinedModified | lib/arch/x86/output.py:508-513 | the comma-joined operand list is rewritten exactly when one of its operands is |
| DispatchSpec.Generic | lib/arch/x86/output.py:505-513 | the generic form starts with `mnemonic ` and with no operands is not rewritten |
| DispatchSpec.GenericModified | lib/arch/x86/output.py:505-513 | the generic form is rewritten exactly when one of its operands is |
| DispatchSpec.ImulAgreesWithMul | lib/arch/x86/output.py:404-413 | the one-operand IMUL names the same implicit source and destination registers as MUL for each width (Intel SDM Vol. 2, MUL and IMUL) |
| DispatchSpec.CommentLinesShape | lib/arch/x86/output.py:253-257 | each user comment before an instruction is printed as tabs, `; comment` and a new line, in order |
| DispatchSpec.AsmLineShape | lib/arch/x86/output.py:253-293 | the user comments come first; a fused instruction prints nothing else; otherwise the line ends with a new line, starts with the symbol line when a symbol starts here, and carries the raw instruction as a comment exactly when it was rewritten and comments are on |
| DispatchSpec.InstLineShape | lib/arch/x86/output.py:279-293 | the line of a non-fused instruction: symbol line first when a symbol starts here, new line last, raw-instruction comment exactly when rewritten and comments are on |
| DispatchSpec.DispatchLastIsNotComment | lib/arch/x86/output.py:324-517 | what `__sub_asm_inst` prints never ends with the raw-instruction comment, so that comment on the line is the driver's |
| DispatchSpec.BodyLastNotComment | lib/arch/x86/output.py:359-513 | the rewritten body of a non-transfer instruction never ends with a comment |
| DispatchSpec.JumpBodyLast | lib/arch/x86/output.py:343-356 | a jump ends with its target or operand, or with the `# STOPPED` mark |
| DispatchSpec.RendersEndClean | lib/arch/x86/output.py:78-209 | no operand rendering ends with a comment |
| OpSets.GroupsRelate | lib/arch/x86/output.py:43-72 | every `ASSIGNMENT_OPS` opcode is in `INST_CHECK`; the string groups are disjoint from `INST_CHECK` and from each other; `JMP_ADD_ZERO` holds conditional jumps only |
| DispatchFacts.ModifiedFlag | lib/arch/x86/output.py:333-517 | ret and jumps report not rewritten; a call reports its hex operand's flag; every `INST_CHECK`, CDQE, IDIV, MUL, NOT and string instruction reports rewritten; any other instruction is rewritten exactly when one of its operands is |
| DispatchFacts.BodyModified | lib/arch/x86/output.py:359-513 | the same flag rule for the instruction body |
| DispatchFacts.TransferLeavesLoopOpen | lib/arch/x86/output.py:329-356 | ret, call and jump return before `_rep_end`: with a REP prefix the loop header is printed, and the output never ends with the closing brace; after the header and address column a ret prints `mnemonic op_str`, a call its mnemonic, a space and its target in hex mode, a jump `JumpBody` |
| DispatchFacts.TransferRest | lib/arch/x86/output.py:333-356 | after the address column a ret, call or jump prints exactly its own form and never ends with `}` |
| DispatchFacts.RendersNeverClose | lib/arch/x86/output.py:78-209 | no operand rendering is empty or ends with `}` |
| DispatchFacts.AsmInstLine | lib/arch/x86/output.py:248-293 | the whole of `_asm_inst`: user comments first; a fused instruction prints nothing else; otherwise the line ends with a new line, just after the raw instruction as a comment exactly when `__sub_asm_inst` reported it rewritten and comments are on |
| DispatchFacts.LoopWrapsBody | lib/arch/x86/output.py:329-331 | any other instruction with a REP prefix is printed inside the loop: header first, address one level deeper, closing brace last at the original depth; without the prefix only address column and body |
| DispatchFacts.RepLoopAround | lib/arch/x86/output.py:329-331 | the same loop shape for any body placed between `_rep_begin` and `_rep_end` |
| DispatchFacts.IdiomRewrites | lib/arch/x86/output.py:362-377 | OR with -1 prints `dst = -1`; AND with 0 prints `dst = 0`; XOR of a register with itself prints `reg = 0`; all rewritten |
| DispatchFacts.StringAdvance | lib/arch/x86/output.py:447-503 | SCAS, STOS and LODS print one pointer-advance line and CMPS and MOVS two; each ends with `+= D`, primed for the second CMPS pointer |
| DispatchFacts.StatementCount | lib/arch/x86/output.py:447-503 | the statement of a string instruction stays on its line |
| DispatchFacts.AdvanceCount | lib/arch/x86/output.py:452-503 | each pointer advance takes one new line and ends with its suffix |
| DispatchFacts.JumpTarget | lib/arch/x86/output.py:343-356 | an immediate jump target prints as its label when it has a colour and as hex otherwise; any other target is marked `# STOPPED` exactly for an unconditional jump with comments on, not in dump mode and not through a known jump table |
| X86Output.Output.constructor | lib/arch/x86/output.py:75 | a printer starts with the given context and an empty sink |
| X86Output.Output.Add | lib/arch/x86/output.py:75 | `_add` appends one token to the sink |
| X86Output.Output.Operand | lib/arch/x86/output.py:78-209 | `_operand` appends exactly `OperandOut` and returns its flag |
| X86Output.Output.ImmOperand | lib/arch/x86/output.py:84-140 | the immediate branch appends its rendering and returns its flag |
| X86Output.Output.DecimalOperand | lib/arch/x86/output.py:121-138 | the decimal branch appends its rendering and returns its flag |
| X86Output.Output.AddressOperand | lib/arch/x86/output.py:86-115 | the address branch appends section, names or hex, and preview |
| X86Output.Output.SectionPrefix | lib/arch/x86/output.py:91-94 | appends the section prefix of an address, as `SectionPrefix` says |
| X86Output.Output.DataPreview | lib/arch/x86/output.py:109-113 | appends the string preview of an address in a data section, as `DataPreview` says |
| X86Output.Output.NameParts | lib/arch/x86/output.py:96-104 | appends the symbol and the label that exist and returns whether any did |
| X86Output.Output.MemOperand | lib/arch/x86/output.py:150-209 | the memory branch appends its rendering |
| X86Output.Output.GeneralMem | lib/arch/x86/output.py:170-209 | the general memory form appends its rendering |
| X86Output.Output.MemBody | lib/arch/x86/output.py:174-205 | appends the terms between the dereference brackets |
| X86Output.Output.BaseTerm | lib/arch/x86/output.py:174-180 | appends the base or segment register and sets `printed` when it did |
| X86Output.Output.IndexTerm | lib/arch/x86/output.py:182-189 | appends the joiner and scaled index and keeps `printed` up to date |
| X86Output.Output.DispTerm | lib/arch/x86/output.py:191-205 | appends the displacement term |
| X86Output.Output.IfCond | lib/arch/x86/output.py:212-245 | `_if_cond` appends exactly `IfCond` |
| X86Output.Output.FusedCond | lib/arch/x86/output.py:219-245 | the fused condition appends exactly `FusedCond` |
| X86Output.Output.FusedComparison | lib/arch/x86/output.py:224-238 | appends the first operand, a space, and then for TEST the jump symbol; for an `ASSIGNMENT_OPS` instruction its symbol, the second operand, `") "` and the jump symbol; otherwise the jump symbol and the second operand |
| X86Output.Output.FusedAssignment | lib/arch/x86/output.py:229-234 | appends the instruction symbol, a space, the second operand, `") "` and the jump symbol |
| X86Output.Output.RepBegin | lib/arch/x86/output.py:296-304 | `_rep_begin` appends the header and returns the new depth |
| X86Output.Output.RepEnd | lib/arch/x86/output.py:307-321 | `_rep_end` appends the loop end |
| X86Output.Output.SubAsmInst | lib/arch/x86/output.py:324-517 | `__sub_asm_inst` appends exactly `Dispatch` and returns its flag |
| X86Output.Output.Instruction | lib/arch/x86/output.py:333-513 | appends what follows the address column, as `Instruction` says, and returns its flag |
| X86Output.Output.Jump | lib/arch/x86/output.py:343-356 | the jump branch appends exactly `JumpBody` |
| X86Output.Output.Body | lib/arch/x86/output.py:359-513 | the opcode dispatch appends exactly `Body` and returns its flag |
| X86Output.Output.CheckInst | lib/arch/x86/output.py:361-421 | the `INST_CHECK` branch appends exactly `CheckBody` |
| X86Output.Output.RewriteInst | lib/arch/x86/output.py:362-381 | appends `dst = -1` for OR with -1, `dst = 0` for AND with 0 and XOR of a register with itself, and the operand followed by the increment or decrement symbol for INC and DEC |
| X86Output.Output.OperationInst | lib/arch/x86/output.py:382-421 | appends `dst = &(src)` for LEA, `dst = (zero ext) src` for MOVZX, `ImulBody` for IMUL, and `dst sym src` otherwise |
| X86Output.Output.ImulInst | lib/arch/x86/output.py:393-415 | the IMUL branch appends exactly `ImulBody` |
| X86Output.Output.FixedInst | lib/arch/x86/output.py:423-446 | the CDQE, IDIV, MUL and NOT branches append exactly `FixedBody` |
| X86Output.Output.StringInst | lib/arch/x86/output.py:447-503 | the string branches append exactly `StringBody` |
| X86Output.Output.Statement | lib/arch/x86/output.py:447-503 | appends the first operand, the separator and the second operand of a string instruction |
| X86Output.Output.Advance | lib/arch/x86/output.py:452-503 | appends a new line, the address column, a pointer operand and the `+= D` suffix |
| X86Output.Output.GenericInst | lib/arch/x86/output.py:505-513 | the generic loop appends `mnemonic ` and the comma-joined operands and ORs their flags |
| X86Output.Output.AsmInst | lib/arch/x86/output.py:248-293 | `_asm_inst` appends exactly `AsmInst` |
| X86Output.Output.PreviousComments | lib/arch/x86/output.py:253-257 | appends the user comments printed before the instruction |
| X86Output.Output.Line | lib/arch/x86/output.py:279-293 | appends the symbol line, the instruction and the line end, as `InstLine` says for what `__sub_asm_inst` printed |
| X86Output.Output.LineEnd | lib/arch/x86/output.py:286-293 | appends the inline comment, the raw-instruction comment when rewritten and comments are on, and the new line |

## Left out

- The renderer behind the sink (`lib.output.OutputAbs`: colours, tab width, how `_label_or_address`, `_bytes` and the other calls turn into text) is not part of this model. Each sink call is one token.
- Instruction decoding by the disassembler library is left out. Its results are the `Capstone.Inst` datatype, and only the opcode identities the printer tests are named.
- `is_ret`, `is_call`, `is_jump` and `is_uncond_jump` come from lib/arch/x86/utils, which is not part of this model. `IsRet`, `IsCall`, `IsUncondJump` and `IsCondJump` are assumed closed lists of opcode identities standing in for them; LOOP, LOOPE, LOOPNE, RETF and similar opcodes fall to `OtherInsn` and take the generic form.
- `reg_name`, `cond_symbol`, `inst_symbol` and `get_char` are token kinds, not text, because their tables are not part of this model.
- `BYTES_PRINTABLE_SET` is the `Ctx.printable` parameter, because lib/utils is not part of this model.
- The binary and the analysis context (`is_address`, `get_string`, `reverse_symbols`, `labels`, variable names, jump tables, colours, fused instructions, comments, `is_symbol`) are the read-only `Ctx` value. The `max_data_size` bound is folded into the strings it returns.
- The `"%f"` text of floating-point operands is left out, as is the arithmetic on them. An FP operand is the `FpText` token.
- The `prefix == "# "` path of `_asm_inst` (lines 259-274) is left out. It prints an instruction as a comment in dump listings, and the model covers the default empty prefix only.
- The `KeyError` that the MUL branch raises for an operand width outside {1, 2, 4, 8} is not modelled. `WellFormed` excludes that width.
- `WellFormed` also asks for the operand counts that the source indexes without checking (`i.operands[1]` and so on). The model does not reproduce the `IndexError` that a malformed instruction would raise.
- `struct.pack` errors for values out of range are not modelled. The source packs only positive values (the `imm > 0` guard at lib/arch/x86/output.py:124); a positive value too wide for its width raises `struct.error` there, while `LeBytes` keeps the low bytes.
- The REP loop is printed for the 64-bit counter only, as in the source. No 16- or 32-bit counter form exists.
