# crystalvm toolchain, modelled in Dafny

crystalvm is a small register machine with tooling around it. This project
models its core across the revisions that live side by side in the
repository:

- **The VM thread** of `src/machine/thread`: the 64-word register file, the
  access window into the machine's byte memory, the memory and register
  helpers, the instruction word split and the instruction table with its
  dispatch. `VmThread.Thread` is a class over a register array and a memory
  array. Its methods are proved equal to value-level specification functions
  (`ThreadSpec`, `InstrSpec`), and the effects of the instructions are stated
  as lemmas (`InstrProps`). The opcode and mnemonic table is `Opcodes`.
- **The earlier thread core** of `crystalvm/src/thread/mod.rs`
  (`LegacyThread`). It reports failures through a `Result`, uses an inclusive
  upper bound and has no self check in its ancestry walk. The walk of both
  revisions is `Ancestry`.
- **The machine's memory image loaders** of both revisions (`MachineImage`),
  **the word transfer of the `Device` trait** (`Device`) and **the font atlas
  build script** (`FontAtlas`).
- **The debugger** of `crystalvm/src/debugger.rs` (`Debugger`). It covers:
  - the number parser `string_to_u32`;
  - the line-mapping reader;
  - breakpoint decoding and operand naming;
  - the command-line parser;
  - the stepping loop.
- **The Python disassembler** `assembler/disassembler.py` (`Disassembler`).
- **The first Python assembler**, `assembler/assembler.py` (`PyLayout`):
  the layout pass that places data and instructions and binds labels.
- **The Python assembler** `assembler.py`. Its parts are:
  - the mutable `uint` and the `Here` markers, as classes;
  - sections and their `resolve`;
  - operand evaluation (`eval_var`) with Python's `int(.., base=0)`, in
    `PyNumber`;
  - the literal rewriting of `#` definitions;
  - the stable sort of sections;
  - byte emission (`PyAssembler`).
  Python string helpers are in `PyText`.
- **The Rust assembler** of `src/assembler`:
  - the line reader and tokenizer with string escapes and radix literals
    (`RsLexer`, `Utf8`);
  - values, operators and typed data (`RsExpression`);
  - `collect_expr` (`RsParse`), with its precedence folding (`RsPrecedence`);
  - `instructionize` and `parse_file` with register aliases
    (`RsInstructions`, `RsInstructionsProps`);
  - the two-pass `assemble` (`RsAssembler`).

Machine words are integers constrained to their width (`u8`, `u32`). The
bitwise operators are defined bit by bit (`Bits`). Rust's integer methods
(`overflowing_add`, `checked_div`, `carrying_mul`, ...) are written out in
`IntOps`, with wrap-around, truncating division and the two's-complement
reading made explicit.

Where a revision has a defect, the model gives both forms: a member for the
code as written, with a lemma that exhibits the discrepancy, and the evidently
intended behaviour (see "## Findings"). The rest of the model is built on the
intended form. In particular the whole-program members of the Python
assembler (`Define`, `PushSection`, `ResolveLast`, the emitter and `Run`)
describe the corrected program; "## Left out" names each of them.

## Model

| member | source | states |
|---|---|---|
| Ancestry.WalkDescends | src/machine/thread/mod.rs:88-101 | the parent walk only ever succeeds on an id strictly below the starting thread's id |
| Ancestry.WalkTransitive | src/machine/thread/mod.rs:88-101 | ancestry is transitive: a descendant of a descendant of z is a descendant of z |
| Ancestry.IsChildOfTransitive | src/machine/thread/mod.rs:87-101 | `is_child_of`, with its self check, is transitive |
| Ancestry.KnownChainReachesRoot | src/machine/thread/mod.rs:90-100 | a thread whose chain of parents is known descends from the main thread 0 |
| Ancestry.LegacyNotOwnChild | crystalvm/src/thread/mod.rs:50-62 | the later revision makes every thread its own child; the earlier one answers false for a thread asked about itself |
| Ancestry.DirectParent | src/machine/thread/mod.rs:103-109 | in both revisions a thread's parent `is_parent_of` it |
| Ancestry.RevisionsAgree | crystalvm/src/thread/mod.rs:50-69 | apart from the self check, the two revisions answer alike |
| Ancestry.UnknownHasNoAncestors | src/machine/thread/mod.rs:92-95 | a thread missing from the thread table has no ancestor other than itself |
| ThreadSpec.FlagBitsArePowers | src/machine/thread/mod.rs:28-48 | each flag bit is 1 shifted by its place |
| ThreadSpec.SetFlagRaises | src/machine/thread/mod.rs:28-48 | `F \|= 1 << place` keeps every other register and every other bit of F, and sets that bit |
| ThreadSpec.SetError | src/machine/thread/mod.rs:133-166 | raising E changes only F, and only bit E |
| ThreadSpec.ReadU8 | src/machine/thread/mod.rs:133-140 | inside the window the byte is read and nothing changes; outside it 0 is read and only E is raised |
| ThreadSpec.WriteU8 | src/machine/thread/mod.rs:142-148 | inside the window exactly that byte changes; outside it memory is kept and only E is raised |
| ThreadSpec.ReadU32 | src/machine/thread/mod.rs:150-157 | inside the window (min <= addr and addr+3 < max, computed without wrap-around) the four bytes are the little-endian encoding of the word read; outside it E and 0 |
| ThreadSpec.StoreWord | src/machine/thread/mod.rs:159-166 | the four bytes at addr are the little-endian encoding of the value, and every other byte is kept |
| ThreadSpec.PartlyStoredStep | src/machine/thread/mod.rs:161-163 | copying one more byte extends a byte-wise store by one position |
| ThreadSpec.PartlyStoredAll | src/machine/thread/mod.rs:161-163 | the byte copy of all four bytes is the word store |
| ThreadSpec.WriteU32 | src/machine/thread/mod.rs:159-166 | the intended store: inside the window (addr+3 computed without wrap-around) the word is stored and registers are kept; outside it only E is raised |
| ThreadSpec.WriteU32AsWritten | src/machine/thread/mod.rs:159-166 | the copy as written: the byte memory is never changed; outside the window only E is raised |
| ThreadSpec.AdvanceIp | src/machine/thread/mod.rs:222-224 | I moves on by 4 modulo 2^32 and nothing else changes |
| ThreadSpec.ReadArg | src/machine/thread/mod.rs:186-201 | field 0x7F reads the literal at I and advances I; a register field reads the register; any other field raises E and reads 0 |
| ThreadSpec.WriteReg | src/machine/thread/mod.rs:203-212 | a valid register receives the value; an invalid number only raises E |
| ThreadSpec.SplitInstr | src/machine/thread/mod.rs:226-228 | an 11-bit opcode and three 7-bit fields that pack back into the word |
| ThreadSpec.SplitParts | src/machine/thread/mod.rs:226-228 | the four parts of a word rebuild it |
| ThreadSpec.SplitJoin | src/machine/thread/mod.rs:226-228 | splitting a word packed from an opcode and three fields gives them back |
| VmThread.Thread.constructor | src/machine/thread/mod.rs:68-80 | a new thread has zeroed registers, the given memory and window, and is valid |
| VmThread.Thread.RaiseFlag | src/machine/thread/mod.rs:28-48 | the thread's state becomes `SetFlag` of the old state |
| VmThread.Thread.RaiseError | src/machine/thread/mod.rs:133-166 | the thread's state becomes `SetError` of the old state |
| VmThread.Thread.ReadU8 | src/machine/thread/mod.rs:133-140 | the result and new state are `ThreadSpec.ReadU8` of the old state |
| VmThread.Thread.WriteU8 | src/machine/thread/mod.rs:142-148 | the new state is `ThreadSpec.WriteU8` of the old state |
| VmThread.Thread.ReadU32 | src/machine/thread/mod.rs:150-157 | the result and new state are `ThreadSpec.ReadU32` of the old state |
| VmThread.Thread.WriteU32 | src/machine/thread/mod.rs:159-166 | the intended store: copying the four bytes into the memory array leaves the state `ThreadSpec.WriteU32` describes |
| VmThread.Thread.AdvanceIp | src/machine/thread/mod.rs:222-224 | the new state is `ThreadSpec.AdvanceIp` of the old one |
| VmThread.Thread.ReadArg | src/machine/thread/mod.rs:186-201 | the value and new state are `ThreadSpec.ReadArg` of the old state |
| VmThread.Thread.WriteReg | src/machine/thread/mod.rs:203-212 | the new state is `ThreadSpec.WriteReg` of the old one |
| VmThread.Thread.ReadTwo | src/machine/thread/instructions.rs:104 | operand a is read before operand b, as `InstrSpec.ReadTwo` states |
| VmThread.Thread.OrFlag | src/machine/thread/instructions.rs:67-78 | the state becomes `InstrSpec.OrFlag` of the old one |
| VmThread.Thread.PutFlag | src/machine/thread/instructions.rs:235-248 | the state becomes `InstrSpec.PutFlag` of the old one |
| VmThread.Thread.ExecCarry | src/machine/thread/instructions.rs:147-161 | the carrying instructions leave the state `InstrSpec.ExecCarry` gives |
| VmThread.Thread.ExecOverflow | src/machine/thread/instructions.rs:162-175 | the overflow-flag instructions leave the state `InstrSpec.ExecOverflow` gives |
| VmThread.Thread.ExecChecked | src/machine/thread/instructions.rs:150-165 | the checked instructions leave the state `InstrSpec.ExecChecked` gives |
| VmThread.Thread.ExecPlain | src/machine/thread/instructions.rs:153-180 | min/max/wrapping shifts/and/or/xor leave the state `InstrSpec.ExecPlain` gives |
| VmThread.Thread.ExecUnary | src/machine/thread/instructions.rs:166-184 | iabs/neg/conversions/mov leave the state `InstrSpec.ExecUnary` gives |
| VmThread.Thread.ExecCompare | src/machine/thread/instructions.rs:235-248 | cmp/icmp leave the state `InstrSpec.ExecCompare` gives |
| VmThread.Thread.ExecJump | src/machine/thread/instructions.rs:111-131 | jumps and flag clears leave the state `InstrSpec.ExecJump` gives |
| VmThread.Thread.ExecLd | src/machine/thread/instructions.rs:280 | ld leaves the state `InstrSpec.ExecLd` gives |
| VmThread.Thread.ExecSt | src/machine/thread/instructions.rs:281 | st leaves the state `InstrSpec.ExecSt` gives |
| VmThread.Thread.ExecLd8 | src/machine/thread/instructions.rs:284 | ld8 leaves the state `InstrSpec.ExecLd8` gives; a destination of 64 or more is the out-of-bounds panic |
| VmThread.Thread.ExecSt8 | src/machine/thread/instructions.rs:285 | st8 leaves the state `InstrSpec.ExecSt8` gives |
| VmThread.Thread.IsChildOf | src/machine/thread/mod.rs:87-101 | the loop answers `Ancestry.IsChildOf` over the machine's thread table |
| VmThread.Thread.IsParentOf | src/machine/thread/mod.rs:103-109 | the answer is `Ancestry.IsParentOf` over the thread table |
| VmThread.Thread.ExecInstr | src/machine/thread/instructions_impl.rs:8-15 | one fetch-split-advance-dispatch leaves the state `InstrSpec.Step` gives, or reports the ld8 panic |
| VmThread.Thread.DispatchArith | src/machine/thread/instructions.rs:146-248 | each arithmetic or compare opcode runs the action `InstrSpec.Decode` selects for it |
| VmThread.Thread.DispatchMemory | src/machine/thread/instructions.rs:257-285 | each jump or memory opcode runs the action `InstrSpec.Decode` selects for it |
| Opcodes.OpcodeOfName | src/machine/thread/instructions.rs:12-20 | looking up the mnemonic of any declared opcode gives that opcode back (opcodes count down from the table's length) |
| Opcodes.NameInjective | src/machine/thread/instructions.rs:143-285 | no two opcodes share a mnemonic |
| Opcodes.NameIdMap | src/machine/thread/instructions.rs:39-43 | the map holds exactly the (mnemonic, opcode) pairs of the table |
| Opcodes.IdNameMap | src/machine/thread/instructions.rs:45-49 | the map holds exactly the (opcode, mnemonic) pairs of the table |
| InstrSpec.Decode | src/machine/thread/instructions.rs:31-33 | exactly the opcodes outside the 108-entry table decode as unknown |
| InstrSpec.ExecLd8 | src/machine/thread/instructions.rs:284 | ld8 panics exactly when the destination field is 64 or more, and otherwise keeps memory |
| InstrProps.OrFlagEffect | src/machine/thread/instructions.rs:67-72 | or-ing a flag keeps every register but F and every other bit of F |
| InstrProps.PutFlagEffect | src/machine/thread/instructions.rs:237-247 | putting a flag changes just that bit of F |
| InstrProps.CarryEffect | src/machine/thread/instructions.rs:73-78 | the carrying instructions write c, then REG_C the carry word, then raise C exactly when REG_C is nonzero |
| InstrProps.AddEffect | src/machine/thread/instructions.rs:147 | add: c plus 2^32 times REG_C is the true sum |
| InstrProps.SubEffect | src/machine/thread/instructions.rs:148 | sub: c is the wrapped difference and REG_C is 1 exactly when a < b |
| InstrProps.MulEffect | src/machine/thread/instructions.rs:149 | mul: c and REG_C are the low and high words of the 64-bit product |
| InstrProps.CMulEffect | src/machine/thread/instructions.rs:158 | cmul: the old REG_C is added into the 64-bit product |
| InstrProps.IAddEffect | src/machine/thread/instructions.rs:160 | iadd: REG_C is 1 exactly on signed overflow, else c is the signed sum |
| InstrProps.OverflowEffect | src/machine/thread/instructions.rs:162-175 | imul/ipow/shl/shr write the wrapped result and or C in on overflow, leaving REG_C alone |
| InstrProps.ShlEffect | src/machine/thread/instructions.rs:174 | shl by 32 or more raises C and shifts by b mod 32 |
| InstrProps.CheckedEffect | src/machine/thread/instructions.rs:80-85 | a checked instruction writes c on success; on failure c is untouched and only the error flag is raised |
| InstrProps.DivideByZeroSetsL | src/machine/thread/instructions.rs:150-165 | every division by zero leaves c untouched and raises L |
| InstrProps.SignedDivOverflowSetsL | src/machine/thread/instructions.rs:163 | idiv of i32::MIN by -1 raises L like a zero divisor |
| InstrProps.CompareEffect | src/machine/thread/instructions.rs:235-248 | Z reports equality and S "less than"; every other bit and register is kept |
| InstrProps.JumpEffect | src/machine/thread/instructions.rs:257-273 | for a register target, I becomes a exactly when the jump's flag condition holds, and no other register changes |
| InstrProps.ClearEffect | src/machine/thread/instructions.rs:261-273 | each clear instruction clears exactly its flag |
| InstrProps.LiteralJumpEffect | src/machine/thread/instructions.rs:257-273 | with a literal target, I becomes the little-endian word at I exactly when the jump's flag condition holds (always, F bit set, F bit clear), else I moves past that word; no other register and no memory changes |
| InstrProps.MovEffect | src/machine/thread/instructions.rs:282 | mov copies a into b and nothing else changes |
| InstrProps.LdEffect | src/machine/thread/instructions.rs:280 | ld loads the little-endian word at a into b |
| InstrProps.StEffect | src/machine/thread/instructions.rs:281 | st stores b at address a, address first |
| InstrProps.StLdRoundTrip | src/machine/thread/instructions.rs:280-281 | with the intended store, st then ld at the same address gives back the stored word |
| InstrSpec.ExecStAsWritten | src/machine/thread/instructions.rs:281 | st through the copy as written leaves the byte memory unchanged |
| InstrProps.StLdAsWritten | src/machine/thread/mod.rs:159-166 | as written, st then ld at the same address gives the word that was there before the store |
| InstrProps.StoreLostAsWritten | src/machine/thread/mod.rs:162 | on four zero bytes, st of 1 at address 0 then ld gives 0 as written, and 1 with the intended store |
| InstrProps.Ld8Effect | src/machine/thread/instructions.rs:284 | ld8 replaces only the low byte of b |
| InstrProps.LowByteReplaced | src/machine/thread/instructions.rs:284 | `x & !0xFF \| byte` keeps the upper 24 bits of x with byte below |
| InstrProps.UnknownOpcodeRaisesE | src/machine/thread/instructions.rs:33 | an opcode outside the table only raises E after the fetch |
| InstrProps.FetchOutsideWindowIsNoop | src/machine/thread/instructions_impl.rs:9-13 | a fetch outside the window reads 0, so noop runs and only E and I change |
| InstrProps.FetchDecodes | src/machine/thread/instructions_impl.rs:9-12 | the fetched fields are the opcode and operands of the word at I |
| InstrProps.DecodeCoverage | src/machine/thread/instructions.rs:143-285 | the float instructions are exactly opcodes 34..80 and 83, the console ones 100..102, and ld8 is the only one that can panic |
| LegacyThread.ReadU8 | crystalvm/src/thread/mod.rs:92-99 | Ok with the byte exactly when min <= addr <= max |
| LegacyThread.ReadU32 | crystalvm/src/thread/mod.rs:111-118 | Overflow (the debug build's panic) exactly when min <= addr and addr+3 passes 2^32; otherwise Err exactly when the word is not allowed, and Ok with the little-endian word exactly when it is allowed and lies in memory |
| LegacyThread.LegacyThread.constructor | crystalvm/src/thread/mod.rs:33-48 | the thread holds the given memory, window and ids |
| LegacyThread.LegacyThread.WriteU8 | crystalvm/src/thread/mod.rs:101-109 | Err exactly when the byte is not allowed; Ok, with exactly that byte stored, exactly when it is allowed and lies in memory; otherwise memory is unchanged |
| LegacyThread.LegacyThread.WriteU32 | crystalvm/src/thread/mod.rs:120-128 | the intended store: Overflow exactly when min <= addr and addr+3 passes 2^32; Err exactly when the word is not allowed otherwise; Ok, with the little-endian word stored, exactly when it is allowed and lies in memory; memory is unchanged unless Ok |
| LegacyThread.LegacyThread.IsChildOf | crystalvm/src/thread/mod.rs:50-62 | answers `Ancestry.LegacyIsChildOf`, the walk without a self check |
| LegacyThread.LegacyThread.IsParentOf | crystalvm/src/thread/mod.rs:64-69 | answers `Ancestry.LegacyIsParentOf`: false for an unknown thread, else that thread's `is_child_of(self)` |
| LegacyThread.InclusiveUpperBound | crystalvm/src/thread/mod.rs:92-99 | the byte at max is readable here and outside the window of src/machine/thread/mod.rs |
| LegacyThread.ReadsAgreeInsideWindow | crystalvm/src/thread/mod.rs:92-118 | inside the later revision's window both revisions read the same byte and word |
| LegacyThread.WriteReadRoundTrip | crystalvm/src/thread/mod.rs:111-128 | with the intended store, a word written is the word read back |
| LegacyThread.WriteU32AsWritten | crystalvm/src/thread/mod.rs:120-128 | the copy as written: Overflow, Err and Ok each exactly as the window check decides, with no bound on the memory, and the byte memory never changed |
| LegacyThread.StoreLostAsWritten | crystalvm/src/thread/mod.rs:122 | on four zero bytes, the word 1 written at 0 reads back as 0 as written, and as 1 with the intended store |
| Device.FifoDevice.constructor | src/machine/device.rs:19-24 | a device with nothing pending or written and no flushes |
| Device.FifoDevice.Read8 | src/machine/device.rs:20 | takes the oldest pending byte |
| Device.FifoDevice.Write8 | src/machine/device.rs:22 | appends the byte to what is written |
| Device.FifoDevice.FlushRead | src/machine/device.rs:23 | counts one read flush and changes no data |
| Device.FifoDevice.FlushWrite | src/machine/device.rs:24 | counts one write flush and changes no data |
| Device.FifoDevice.Write | src/machine/device.rs:13-18 | the four big-endian bytes of the word are written, with no flush |
| Device.FifoDevice.Read | src/machine/device.rs:9-11 | the word is the big-endian reading of the four oldest pending bytes |
| Device.FifoDevice.Echo | src/machine/device.rs:9-18 | `read` after `write(d)` gives back d |
| Device.ReadFramesBytes | src/machine/device.rs:10 | the word read from four bytes has exactly them as its big-endian bytes |
| MachineImage.ImageMemoryLayout | src/machine/mod.rs:43-51 | an image that passes the size check becomes memory of exactly `size` bytes: the image, then zeros |
| MachineImage.Machine.constructor | src/machine/mod.rs:52-59 | a fresh context: no threads, running, both counters 0 |
| MachineImage.FromImage | src/machine/mod.rs:40-63 | panics exactly when the size is below the image length cut to 32 bits, else memory is the image followed by zeros |
| MachineImage.LegacyFromImage | crystalvm/src/machine.rs:29-57 | the same size check and the same memory, zeroed first with the image copied over the front; an image too long for the truncated check overruns the copy |
| FontAtlas.Source | crystalvm/build.rs:11-15 | the cell column, cell row and position within the cell each atlas byte is taken from, all in range |
| FontAtlas.SourceOfIndex | crystalvm/build.rs:9-15 | every pixel of every cell lands inside the atlas, at the byte `Source` maps back to it |
| FontAtlas.IndexOfSource | crystalvm/build.rs:8-15 | every atlas byte is written, from exactly one pixel |
| FontAtlas.AtlasIndexInjective | crystalvm/build.rs:15 | no atlas byte is written from two pixels |
| FontAtlas.BuildAtlas | crystalvm/build.rs:8-19 | each of the 16384 bytes is channel 0 of the pixel the remap names |
| Numerals.RemoveAll | crystalvm/src/debugger.rs:224 | no occurrence of the character is left |
| Numerals.RemoveAllCounts | crystalvm/src/debugger.rs:224 | exactly the occurrences of the character are dropped: the length falls by their number and every other character occurs as often as before |
| Numerals.RemoveAllAppend | crystalvm/src/debugger.rs:224 | removal distributes over concatenation, so the kept characters stay in their order |
| Numerals.Digits | crystalvm/src/debugger.rs:243 | a non-empty string of digit characters of the radix |
| Numerals.DigitsRoundTrip | crystalvm/src/debugger.rs:243 | reading a value's digits back gives the value |
| Numerals.DigitsValueDefined | crystalvm/src/debugger.rs:243 | characters that are all digits of the radix have a value |
| Numerals.SmallRadixDigits | crystalvm/src/debugger.rs:243 | in a radix of ten or less every digit is a decimal digit |
| Debugger.UnderscoresIgnored | crystalvm/src/debugger.rs:224 | removing underscores first changes nothing |
| Debugger.PrefixedRoundTrip | crystalvm/src/debugger.rs:223-244 | every 32-bit value written with a radix prefix, or in decimal, parses back to itself |
| Debugger.DecimalRoundTrip | crystalvm/src/debugger.rs:223-244 | every 32-bit value written in decimal parses back to itself |
| Debugger.LeadingDigit | crystalvm/src/debugger.rs:233-239 | only zero is written with a leading `0`, so decimal text never looks prefixed |
| Debugger.DigitsRejected | crystalvm/src/debugger.rs:243 | one character that is no digit of the radix makes the parse fail |
| Debugger.StartsWithNonDigit | crystalvm/src/debugger.rs:243 | a value starting with `m` never parses, whatever radix is chosen |
| Debugger.ReadLineMappings | crystalvm/src/debugger.rs:41-51 | the map after reading holds, for each address, the line of the last complete 8-byte record naming it |
| Debugger.MappedAddresses | crystalvm/src/debugger.rs:47-50 | an address is mapped exactly when some complete record names it |
| Debugger.LastRecordWins | crystalvm/src/debugger.rs:50 | a later record for the same address overrides an earlier one |
| Debugger.DescribeMatchesSplit | crystalvm/src/debugger.rs:80-87 | the debugger's breakpoint test and operand fields agree with the machine's `split_instr` |
| Debugger.BreakpointTagRoundTrip | crystalvm/src/debugger.rs:83 | a breakpoint word built from two tag bytes decodes to that tag |
| Debugger.AsciiTagAgrees | crystalvm/src/debugger.rs:192-196 | for ASCII tags the stepping loop compares exactly the tag the listing shows |
| Debugger.ArgNameAgreesWithListing | crystalvm/src/debugger.rs:215-218 | the debugger names every field as the disassembler does, except 0x7F and 53 |
| Debugger.ArgNameBeyondListing | crystalvm/src/debugger.rs:216-218 | 0x7F is `literal` and 53 is `%Q`, which the disassembler cannot name |
| Debugger.Session.constructor | crystalvm/src/debugger.rs:41-68 | the session holds the given registers and memory |
| Debugger.Session.ResolveArg | crystalvm/src/debugger.rs:211-220 | the field's name as `ArgName` gives it and the value fetched for it, with registers and memory as they were |
| Debugger.Session.Step | crystalvm/src/debugger.rs:174-203 | runs the rounds `Rounds` describes: without breaking, one instruction per round; with it, up to a (matching) breakpoint |
| Debugger.RoundsWithoutBreakpoint | crystalvm/src/debugger.rs:188-190 | without breaking, n rounds execute exactly n instructions |
| Debugger.RoundStopsAtBreakpoint | crystalvm/src/debugger.rs:192-200 | a finished round with breaking on stops at a breakpoint, with the requested tag when one is given |
| Debugger.RoundsStopAtBreakpoint | crystalvm/src/debugger.rs:174-203 | after one or more rounds with breaking on, the machine stands at a (matching) breakpoint |
| Debugger.RoundFuelMonotone | crystalvm/src/debugger.rs:175-202 | a larger step allowance does not change a round that already finished |
| Debugger.RoundsSplit | crystalvm/src/debugger.rs:174 | n + m rounds are n rounds followed by m more |
| Debugger.ReadItem | crystalvm/src/debugger.rs:121-150 | one comma-separated item updates the settings as `ApplyArg` says, or ends the parse with its error |
| Debugger.SetKey | crystalvm/src/debugger.rs:129-147 | each key sets its setting as `ApplyKey` says, and an unknown key is an error |
| Debugger.ParseCommand | crystalvm/src/debugger.rs:112-152 | the settings after all items are `ParseCommandLine` of the line, the first bad item ending the parse |
| Debugger.MemPrintRejected | crystalvm/src/debugger.rs:133-137 | `print=mem:start+len` never succeeds, because both numbers are parsed from the whole value |
| Debugger.MemKeyRejected | crystalvm/src/debugger.rs:131-140 | `p=mem:...` fails the same way |
| Debugger.KeyValueItem | crystalvm/src/debugger.rs:123-128 | a well-formed `key=value` reaches the key dispatch with both sides trimmed |
| Debugger.HelpItem | crystalvm/src/debugger.rs:130 | `help=true` and `help=false` set the help flag |
| Debugger.PrintItem | crystalvm/src/debugger.rs:131-132 | `print=` sets register printing exactly for `regs` |
| Debugger.CountItem | crystalvm/src/debugger.rs:143 | `n=` sets the round count to the parsed number |
| Debugger.BreakpointItem | crystalvm/src/debugger.rs:144 | `bp=` sets the breakpoint switch |
| Debugger.TagItem | crystalvm/src/debugger.rs:145 | `bpt=` sets the breakpoint tag |
| Debugger.ApplyRendered | crystalvm/src/debugger.rs:119-151 | applying rendered items to the defaults gives back the settings they came from |
| Debugger.CommandRoundTrip | crystalvm/src/debugger.rs:112-152 | any settings without a memory range, written as a command line, parse back to exactly those settings |
| Disassembler.Binary | assembler/disassembler.py:21 | exactly `w` characters, each `0` or `1` |
| Disassembler.BytesBits | assembler/disassembler.py:21 | eight binary digits per byte |
| Disassembler.Skip | assembler/disassembler.py:19 | for a non-negative offset, the bytes after it, or none when it lies past the end |
| Disassembler.NameOperands | assembler/disassembler.py:27-36 | the loop yields `Operands` of the fields |
| Disassembler.DecodeWord | assembler/disassembler.py:21-36 | the loop body decodes the chunk as `DecodeChunk` does: its fields, mnemonic and operand texts |
| Disassembler.CountDown | assembler/disassembler.py:46-49 | the budget falls by 4 and the loop stops once it is not positive |
| Disassembler.ReadChunk | assembler/disassembler.py:20-49 | one pass of the loop is `ChunkStep` |
| Disassembler.WriteLine | assembler/disassembler.py:38-49 | the written line and countdown are `LineStep` |
| Disassembler.Disassemble | assembler/disassembler.py:17-49 | the listing is `Disassembly` of the input after the offset |
| Disassembler.BinaryValue | assembler/disassembler.py:21 | the digits `Binary` writes read back as the value |
| Disassembler.BinaryOfValue | assembler/disassembler.py:32 | reading binary digits and writing them back gives the same string |
| Disassembler.WordBits | assembler/disassembler.py:21 | the bits of a 4-byte chunk are the chunk read as a big-endian word |
| Disassembler.FieldsPack | assembler/disassembler.py:22 | a 32-digit string is the word its four fields pack into |
| Disassembler.FieldsMatchSplitInstr | assembler/disassembler.py:22 | the script's field split agrees with the machine's `split_instr` of the big-endian word |
| Disassembler.LiteralIsLittleEndian | assembler/disassembler.py:39 | `int.from_bytes(b, "little")` is the little-endian word |
| Disassembler.OperandNaming | assembler/disassembler.py:29-36 | 64 is `!`, 48..52 are `S I L C F`, values below 48 are `%` and two hex digits, 53 and up raise |
| Disassembler.OperandRoundTrip | assembler/disassembler.py:29-36 | every operand text the script prints names exactly one field value |
| Disassembler.OperandsRaise | assembler/disassembler.py:27-36 | one operand that raises makes the whole line raise |
| Disassembler.PartialChunkRaises | assembler/disassembler.py:20-32 | a trailing chunk of one to three bytes always raises |
| Disassembler.BudgetBound | assembler/disassembler.py:40-49 | with a budget of k bytes, the lines after the first number fewer than k/4 |
| Disassembler.OneLinePerWord | assembler/disassembler.py:20-45 | without a budget, complete non-`ldl` words give one line each |
| PyText.Strip | assembler.py:126 | `str.strip()`: no longer than the text, with no whitespace left at either end |
| PyText.StripTrims | assembler.py:126 | the stripped text is the slice of the text that begins after its leading whitespace, with nothing but whitespace before and after it |
| PyText.StripIdempotent | assembler.py:97 | stripping twice strips nothing more |
| PyText.Replace | assembler/assembler.py:15 | no occurrence of the character survives unless the replacement holds it, and every character comes from the text or the replacement |
| PyText.ReplaceAbsent | assembler/assembler.py:15 | replacing a character that does not occur changes nothing |
| PyText.ReplaceAppend | assembler/assembler.py:15 | replacing distributes over concatenation: each character is replaced on its own, in order |
| PyText.Words | assembler.py:150 | `str.split()`: every piece is a non-empty run of non-space characters |
| PyText.WordsOfSpaceJoin | assembler.py:150 | splitting words written with single spaces gives the words back |
| PyText.WordsSkipSpaces | assembler.py:150 | whitespace of any length before the text does not change its words |
| PyText.WordsSplitOff | assembler.py:150 | a word after any run of whitespace and before whitespace or the end is the next word, and the words of the rest follow it |
| PyText.WordsKeepText | assembler.py:150 | the words, written one after another, are exactly the non-space characters of the text, in order |
| PyText.Utf8Char | assembler/assembler.py:29 | one to four bytes, one exactly for ASCII, continuation bytes in 0x80..0xBF |
| PyText.Utf8CharValue | assembler/assembler.py:29 | each character's bytes decode to its code point |
| PyText.Utf8 | assembler/assembler.py:29 | at least one byte per character |
| PyText.Utf8Ascii | assembler/assembler.py:29-30 | ASCII text takes one byte per character |
| PyLayout.NameSplit | assembler/assembler.py:64-70 | the leading run of name characters (`isalnum()`, a parameter, or `_`) and the rest, which rejoin to the line, the rest not starting with a name character |
| PyLayout.NameSplitUnique | assembler/assembler.py:64-70 | the name and the rest are the only split with those properties |
| PyLayout.ParseVarName | assembler/assembler.py:64-70 | the loop yields `NameSplit` of the stripped line |
| PyLayout.TypeNamedInverse | assembler/assembler.py:23-25 | exactly the six type names are accepted, each for its own type |
| PyLayout.Substitute | assembler/assembler.py:15 | no `@` is left, and text without `@` is unchanged |
| PyLayout.SubstituteAt | assembler/assembler.py:15 | the first `@` becomes `label_`, the text before it is kept and the rest is substituted in turn |
| PyLayout.ParseLine | assembler/assembler.py:11-60 | one line updates position, labels and entries as `LineStep` says, or fails |
| PyLayout.ParseCode | assembler/assembler.py:6-62 | the result is `Parse` of the code, the first error ending it |
| PyLayout.AppendEntryPacked | assembler/assembler.py:47 | an entry placed at the current position keeps the layout packed |
| PyLayout.ParsePacked | assembler/assembler.py:6-60 | every accepted program lays its entries out in address order without overlap, with labels inside the layout |
| PyLayout.PositionLine | assembler/assembler.py:14-18 | a `$` line moves the position forward to its value, and fails when that value lies behind |
| PyLayout.BadStartRejected | assembler/assembler.py:48-51 | a line starting with none of `$`, `.` or a name character is rejected |
| PyLayout.LabelLine | assembler/assembler.py:54-58 | `name:` binds `label_name` to the position unless that name is taken |
| PyLayout.InstructionLine | assembler/assembler.py:59-60 | an instruction line records the position and leaves it unchanged |
| PyLayout.FixedDataLine | assembler/assembler.py:35-46 | `u32`/`i32` take 4 bytes and `u8`/`i8` take 1 |
| PyLayout.TypedLine | assembler/assembler.py:19-26 | after the dot a type name and its expression reach the data step with that type |
| PyLayout.FixedDataStep | assembler/assembler.py:35-47 | a fixed-width entry is recorded at the old position, deferred, and the position moves by its width |
| PyNumber.PrefixedLiteral | assembler.py:107-109 | `int(.., base=0)` reads any natural number written with a base prefix |
| PyNumber.DecimalLiteral | assembler.py:110 | `int(.., base=0)` reads any integer written in decimal, with `-` when negative |
| PyNumber.LeadingZeroRefused | assembler.py:110 | a decimal literal with a superfluous leading zero is refused |
| PyNumber.PyIntOfPlain | assembler.py:110 | an optional `-`, then the magnitude, negated after the `-` |
| PyNumber.DigitRun | assembler.py:132 | how many pattern digits follow a position, all of them digits |
| PyNumber.LiteralAt | assembler.py:132 | either no match or a match of at least three characters inside the text |
| PyNumber.LiteralReads | assembler.py:132-133 | every match reads back through `int(.., base=0)` as its value |
| PyNumber.NoLiteralUnchanged | assembler.py:132-133 | text with no literal is left alone by both rewritings |
| PyNumber.RewriteOneLiteral | assembler.py:132-133 | a lone literal becomes its `uint` text |
| PyNumber.TwiceFound | assembler.py:132 | in `m+m` the pattern finds both literals |
| PyNumber.TwiceAsWritten | assembler.py:132-133 | as written, a literal used twice whose `uint` text contains it is wrapped twice at each use |
| PyNumber.TwiceIntended | assembler.py:132-133 | rewriting each match once turns `m+m` into each use's `uint` text |
| PyAssembler.FloorDivBounds | assembler.py:67-71 | Python's `//` is the floor quotient |
| PyAssembler.Uint.constructor | assembler.py:45-47 | a `uint` holds the given value |
| PyAssembler.Uint.Add | assembler.py:49-53 | the value grows in place, and a negative result raises after the change |
| PyAssembler.Uint.Sub | assembler.py:55-59 | the value falls in place, and a negative result raises after the change |
| PyAssembler.Uint.Mul | assembler.py:61-65 | the value is multiplied in place, and a negative result raises after the change |
| PyAssembler.Uint.FloorDivide | assembler.py:67-71 | floor division in place; a zero divisor raises before any change |
| PyAssembler.Here.constructor | assembler.py:19-25 | a new marker has offset 0 and is unresolved |
| PyAssembler.Here.Add | assembler.py:27-29 | the offset grows in place and the marker itself is returned |
| PyAssembler.Here.Sub | assembler.py:31-33 | the offset falls in place and the marker itself is returned |
| PyAssembler.Section.constructor | assembler.py:79-82 | a section at the given address with no entries |
| PyAssembler.ClassifyStripped | assembler.py:97 | surrounding whitespace does not change what an operand is |
| PyAssembler.PrefixedIsUint | assembler.py:108-109 | a prefixed literal is a `uint` of its value |
| PyAssembler.DecimalIsInt | assembler.py:110 | decimal digits are a plain int |
| PyAssembler.DecimalUIsUint | assembler.py:106-107 | decimal digits followed by `u` are a `uint` |
| PyAssembler.MarkerAddressMonotone | assembler.py:118-123 | a later marker never stands for a lower address |
| PyAssembler.ResolveAsWritten | assembler.py:118-123 | as written, every marker ends up holding the section's own `uint`, shifted by the sum of the markers' counts |
| PyAssembler.Resolve | assembler.py:118-123 | as intended, each marker gets a `uint` of its own with its address, and the section is kept |
| PyAssembler.AliasedMarkers | assembler.py:118-123 | marker, instruction, marker: as written both read 0x22001; as intended 0x22000 and 0x22001 |
| PyAssembler.OperandFault | assembler.py:96-110 | the only faults an operand can have are an empty operand, a bad literal or an unknown variable |
| PyAssembler.FirstSomeFound | assembler.py:153-158 | the first fault among several operands is found exactly when some operand faults |
| PyAssembler.DefinitionParts | assembler.py:130 | `#name expr` raises exactly when there is no space after the `#`; otherwise the name has no space and name, space and expression make up the rest |
| PyAssembler.LayoutKeepsOperands | assembler.py:153-158 | string operands join the command and every other operand becomes an entry, so none is lost |
| PyAssembler.DenotesUint | assembler.py:96-110 | an operand evaluates to a `uint` exactly when it is one, with its value |
| PyAssembler.DistinctAppend | assembler.py:152-158 | entries without markers keep a section's markers distinct |
| PyAssembler.Assembler.constructor | assembler.py:112-115 | variables hold `Here` and `uint`, and there are no sections |
| PyAssembler.Assembler.NewHere | assembler.py:19-25 | a new marker recorded at the end of the current section; outside a section it raises |
| PyAssembler.Assembler.EvalForm | assembler.py:96-110 | the object an operand of that shape stands for, or its fault |
| PyAssembler.Assembler.EvalVar | assembler.py:96-110 | `eval_var`: the operand's fault, or the object it denotes |
| PyAssembler.Assembler.NewHeres | assembler.py:131 | n `Here()` calls record n new markers, in order |
| PyAssembler.Assembler.Bind | assembler.py:135 | the name is bound to what the expression yielded |
| PyAssembler.Assembler.Define | assembler.py:129-137 | a `#` line binds the name, or stops with the evaluation's exception |
| PyAssembler.Assembler.SectionStart | assembler.py:139-143 | the operand must be a `uint` at or above 0x22000 |
| PyAssembler.Assembler.PushSection | assembler.py:144-148 | the new section is appended and becomes current, after the old one is resolved |
| PyAssembler.Assembler.OpenSection | assembler.py:138-148 | a `~` line opens a section or fails as `SectionStart` does |
| PyAssembler.Assembler.EvalOperands | assembler.py:153-154 | fails exactly when some operand faults, with the first fault |
| PyAssembler.Section.LayOut | assembler.py:150-158 | in place, the section's entries gain exactly `Layout` of the command and operands, its address unchanged |
| PyAssembler.Assembler.LayOut | assembler.py:150-158 | the command first, texts joining it, other operands following as entries |
| PyAssembler.Assembler.Instruction | assembler.py:149-158 | an instruction line laid out in the current section; outside one it raises |
| PyAssembler.Assembler.ResolveLast | assembler.py:160-161 | the section still open is resolved |
| PyAssembler.Assembler.Arrangement | assembler.py:163 | the sections in stable order by address, and what the emitter sees of their entries |
| PyAssembler.Assembler.RawLine | assembler.py:125-128 | a line is stripped and skipped when blank; it opens one section exactly when it strips to a `~` line and is accepted |
| PyAssembler.Assembler.ParseLines | assembler.py:125-158 | the sections are only added to, one for every line that strips to a `~` line when all lines are accepted |
| PyAssembler.Assembler.Output | assembler.py:163-199 | the keys are the sections' addresses, the order a stable ascending permutation by them, the snapshot the entries of the sections in that order, and the bytes those of the snapshot's entries, or the first fault |
| PyAssembler.Assembler.Run | assembler.py:125-199 | the whole program: a rejected line is a fault; otherwise one new section per `~` line, sorted stably by address, and the bytes are those of every section's entries in that order, or the first fault |
| PyAssembler.RegisterField | assembler.py:180-184 | `%n` packs as n up to 48 and raises above |
| PyAssembler.LetterFieldAsWritten | assembler.py:185-187 | as written, `%S` .. `%F` pack as 0 .. 4, which the disassembler reads as `%00` .. `%04` |
| PyAssembler.LetterFieldRoundTrip | assembler.py:185-187 | as intended, `%S` .. `%F` pack as 48 .. 52, which the disassembler reads as the same letters |
| PyAssembler.ArgFields | assembler.py:177-189 | all operand fields, or the fault of the first operand without one |
| PyAssembler.ArgFieldsStop | assembler.py:177-189 | the first operand without a field decides the fault |
| PyAssembler.CommandWord | assembler.py:175-191 | a command is four bytes, and only with at most three operands |
| PyAssembler.CommandWordDecodes | assembler.py:175-191 | read back, a command word splits into opcode 0x7F8 and its operand fields, missing ones zero |
| PyAssembler.PackedJoin | assembler.py:190 | up to three fields, zero-filled, give the word `JoinInstr` makes |
| PyAssembler.PackedLarge | assembler.py:191 | four or more fields no longer fit in 32 bits |
| PyAssembler.CommandBits | assembler.py:175-189 | the bit string is the prefix followed by the operands' fields, or the first operand's fault |
| PyAssembler.EmitCommand | assembler.py:175-191 | the bytes are `CommandWord` of the operands |
| PyAssembler.LittleWord | assembler.py:193-197 | `to_bytes(4, 'little')` succeeds exactly for 0 .. 2^32-1 and reads back as the value |
| PyAssembler.ItemBytes | assembler.py:171-199 | a marker position writes nothing; every other entry writes one word when it does not raise |
| PyAssembler.ItemsBytes | assembler.py:169-199 | four bytes for every entry written |
| PyAssembler.ItemsBytesAppend | assembler.py:169-199 | writing two runs is writing the first then the second, the first fault winning |
| PyAssembler.MarkerAddressCountsWords | assembler.py:118-123 | a marker's address lies as many words past the section start as are written before it |
| PyAssembler.EmitItems | assembler.py:170-199 | the loop yields `ItemsBytes` of the entries |
| PyAssembler.Emit | assembler.py:167-199 | the loops yield the entries of all sections in turn |
| PyAssembler.EmitMarkerAsWritten | assembler.py:196-197 | as written, writing a marker operand moves the `uint` it resolved to by its offset |
| PyAssembler.WritesDrift | assembler.py:196-197 | as written, the k-th write of the same marker is off by k offsets |
| PyAssembler.MarkerWrittenTwiceAsWritten | assembler.py:196-197 | a marker with a nonzero offset written twice puts out two different values |
| PyAssembler.MarkerWrittenTwice | assembler.py:196-197 | as intended, the same marker written twice puts out the same word twice |
| PyAssembler.InsertPermutes | assembler.py:163 | inserting adds the index and keeps every other |
| PyAssembler.SortOrderPermutes | assembler.py:163 | the sorted order is a permutation of the sections |
| PyAssembler.InsertAscending | assembler.py:163 | inserting the next index keeps the order sorted and stable |
| PyAssembler.SortOrderAscending | assembler.py:163 | sections come out by address, equal addresses in their original order |
| PyAssembler.Keys | assembler.py:163 | the sort key of each section is its address's value |
| PyAssembler.Arrange | assembler.py:163 | the sections in the given order |
| Utf8.EncodeDecode | src/assembler/mod.rs:44 | a character takes `Width` bytes, the lead byte announces the width, and decoding gives it back |
| Utf8.LenAppend | src/assembler/mod.rs:44 | the byte length of two strings joined is the sum of theirs |
| Utf8.AsciiBytes | src/assembler/mod.rs:95 | ASCII text is one byte per character |
| RsLexer.At | src/assembler/mod.rs:449-456 | a position given replaces the error's own; none leaves it as it is |
| RsLexer.WordLength | src/assembler/mod.rs:365-373 | the longest prefix that the check does not stop, ending where it stops |
| RsLexer.CollectWord | src/assembler/mod.rs:365-373 | the loop collects `WordLength` characters and stops at the first the check rejects |
| RsLexer.Unescaped | src/assembler/mod.rs:375-397 | an unknown escape is an error at the line's position |
| RsLexer.UnescapeStr | src/assembler/mod.rs:375-397 | the token is `Ascii` of the unescaped body, or its error |
| RsLexer.UnescapeEscaped | src/assembler/mod.rs:375-397 | unescaping undoes escaping |
| RsLexer.StringLength | src/assembler/mod.rs:349-356 | the end found is a `"` inside the text |
| RsLexer.StringLengthEscaped | src/assembler/mod.rs:349-356 | an escaped body is read up to its end whatever follows |
| RsLexer.FromStrRadix | src/assembler/mod.rs:436-442 | a value read lies in the `i32` or `u32` range as asked |
| RsLexer.RadixPrefix | src/assembler/mod.rs:407-426 | the radix is one of 2, 4, 8, 10, 12, 16, and the digits are the literal or what follows its two-character prefix |
| RsLexer.NumLit | src/assembler/mod.rs:399-445 | a literal is an integer or a float token, and an error carries the line's position |
| RsLexer.NumLitRoundTrip | src/assembler/mod.rs:399-445 | any value in range written in any radix, signed or not, reads back with that radix and signedness |
| RsLexer.NumLitInteger | src/assembler/mod.rs:427-442 | a literal whose digits parse in its radix is that integer |
| RsLexer.DigitsRead | src/assembler/mod.rs:436-442 | the digits of a value in range read back as it |
| RsLexer.Scanned | src/assembler/mod.rs:339-360 | one step skips exactly ASCII whitespace, consumes at least one character it has, and reports errors at the line's position |
| RsLexer.Tokenize | src/assembler/mod.rs:336-363 | the loop yields `Lex` of the line |
| RsLexer.NextToken | src/assembler/mod.rs:340-360 | the loop body takes the step `Lex` takes |
| RsLexer.NumberToken | src/assembler/mod.rs:343 | a number word is collected and read as a literal |
| RsLexer.StringToken | src/assembler/mod.rs:345-358 | a string literal runs to its closing quote, unescaped; no closing quote is an error |
| RsLexer.StringBody | src/assembler/mod.rs:349-355 | the inner loop stops at `StringLength` with the body before it |
| RsLexer.ScannedShaped | src/assembler/mod.rs:339-360 | every token a step emits has the shape of its kind |
| RsLexer.LexShaped | src/assembler/mod.rs:336-363 | every token the tokenizer produces has the shape of its kind |
| RsLexer.StringLiteralToken | src/assembler/mod.rs:345-358 | a quoted escaped string is one token holding the string |
| RsLexer.LiteralToken | src/assembler/mod.rs:343 | a literal's text alone on a line is the one token of its value |
| RsLexer.CutComment | src/assembler/mod.rs:255 | the part before the first `//`, which holds none |
| RsLexer.TrimKeepsNoComment | src/assembler/mod.rs:255 | trimming does not make a comment |
| RsLexer.SplitPieces | src/assembler/mod.rs:254 | the pieces between separators hold no separator |
| RsLexer.ReadLines | src/assembler/mod.rs:250-258 | one line per `\n` piece, numbered from 0, cut at `//` and trimmed |
| RsLexer.TokenizeLines | src/assembler/mod.rs:240-248 | the loop yields `LexLines` |
| RsLexer.LexLinesShape | src/assembler/mod.rs:240-248 | every tokenized line is non-empty and is the tokens of the input line with the same number |
| RsExpression.ValueKindNames | src/assembler/expression.rs:123-129 | `Value::ty` tells the three variants apart |
| RsExpression.OpOfSymbol | src/assembler/expression.rs:176-188 | `Op::from_char` reads exactly the eight symbols, each as its operator |
| RsExpression.UnaryOfSymbol | src/assembler/expression.rs:198-204 | `UnaryOp::from_char` reads `-` and `~` and nothing else |
| RsExpression.KindNames | src/assembler/mod.rs:296-307 | `Data::ty` names each kind so that the name reads back as it, and `ascii` is no scalar kind |
| RsExpression.CopyInto | src/assembler/expression.rs:133-158 | a value fills a target of its own family when it fits; ascii, another family, or out of range is an error |
| RsExpression.CopyIntoWide | src/assembler/expression.rs:141-153 | a value always fits the 32-bit kind of its family |
| RsExpression.LeNRoundTrip | src/assembler/mod.rs:96-102 | the n little-endian bytes the data lines are read as writing (see `RsAssembler.ScalarStep` under "## Left out") read back as the value |
| RsExpression.ScalarBytesRoundTrip | src/assembler/mod.rs:96-102 | a scalar's bytes in its kind's width, read with its kind's sign, give the value (the `copy_into` reading of these lines) |
| RsPrecedence.LinksRoundTrip | src/assembler/expression.rs:50-64 | operator-operand pairs and their flat form convert both ways |
| RsPrecedence.ChainRoundTrip | src/assembler/expression.rs:50-69 | reading a complete group as a chain loses nothing, and every chain is a group |
| RsPrecedence.CombineTier | src/assembler/expression.rs:70-88 | one `combine!` expansion is `Pass` of its tier over the group |
| RsPrecedence.CombineGroup | src/assembler/expression.rs:89-93 | the three passes leave one element, the tree `Reference` builds for the group |
| RsPrecedence.PassCount | src/assembler/expression.rs:70-88 | a pass removes every operator of its tier and keeps the others |
| RsPrecedence.CombinedSingle | src/assembler/expression.rs:89-92 | after the three passes no operator is left |
| RsPrecedence.CombinedIsReference | src/assembler/expression.rs:89-93 | the passes build the usual tree: `& \| ^` bind tighter than `* / %`, which bind tighter than `+ -`, each left-associative |
| RsParse.Parse | src/assembler/expression.rs:5-98 | an error carries the line's position, and a result points past its start and at most past the tokens (two further as written) |
| RsParse.CollectExpr | src/assembler/expression.rs:5-98 | `collect_expr` yields `Parse` |
| RsParse.CollectCall | src/assembler/expression.rs:19-34 | the call arm reads arguments separated by `,` up to `)` |
| RsParse.CollectGroup | src/assembler/expression.rs:44-94 | the group arm reads alternating operands and operators up to `)`, then folds them |
| RsParse.GroupStep | src/assembler/expression.rs:52-63 | one element of a group: an operand where one is due, else an operator |
| RsParse.Render | src/assembler/expression.rs:101-107 | the tokens an expression is written as: never empty, never starting with `)` |
| RsParse.ParseRender | src/assembler/expression.rs:5-98 | a written expression reads back as itself, with the index right after it |
| RsParse.ParseRendered | src/assembler/expression.rs:5-98 | every well-formed expression, written out, reads back and uses all its tokens |
| RsInstructions.Ended | src/assembler/mod.rs:149-155 | complete exactly when the index is the end of the line; past the end is the panic |
| RsInstructions.RegisterOf | src/assembler/mod.rs:208-222 | a decimal 0..=47 or one of I B S F C names a register; anything else is an error |
| RsInstructions.Instructionize | src/assembler/mod.rs:148-238 | yields `Instr` of the line |
| RsInstructions.AssertEnded | src/assembler/mod.rs:149-155 | yields `Ended` |
| RsInstructions.DataDirective | src/assembler/mod.rs:184-200 | the `.` arm yields `DataLine` |
| RsInstructions.CollectArgs | src/assembler/mod.rs:205-233 | the operand loop yields `CommandArgs` |
| RsInstructions.ParseFile | src/assembler/mod.rs:113-146 | yields `Lines` from the first line with no aliases |
| RsInstructionsProps.LineRoundTrip | src/assembler/mod.rs:148-238 | every readable instruction, written as a line, reads back as itself |
| RsInstructionsProps.CommandRoundTrip | src/assembler/mod.rs:201-235 | a command line reads back as the command with its operands |
| RsInstructionsProps.ScalarRoundTrip | src/assembler/mod.rs:191-197 | a numeric data line reads back as the directive |
| RsInstructionsProps.CallValuePanics | src/assembler/expression.rs:33-34 | as written, `$ n f(u)` ends past the line and panics, where the intended reading binds the call |
| RsInstructionsProps.AliasNamesRegister | src/assembler/mod.rs:134-137 | after `!%a = %r`, `%a` in a later command names register r, and the alias line yields no instruction |
| RsInstructionsProps.AliasArity | src/assembler/mod.rs:135 | an alias line of other than six tokens is an error |
| RsAssembler.Advance | src/assembler/mod.rs:35-51 | the address moves by n, and passing 2^32 is the overflow panic |
| RsAssembler.Run1Stays | src/assembler/mod.rs:19-54 | a failed first pass stays failed |
| RsAssembler.CountCommand | src/assembler/mod.rs:34-42 | a command takes 4 bytes plus 4 per expression operand |
| RsAssembler.FirstPass | src/assembler/mod.rs:19-54 | yields `Run1` over all instructions |
| RsAssembler.ShiftIsShl | src/assembler/mod.rs:82-84 | `command << 7 \| f` is the wrapping shift with the field added in |
| RsAssembler.ShiftedFields | src/assembler/mod.rs:80-86 | for an opcode below 2^11 nothing is lost: the fields follow the opcode |
| RsAssembler.LeadingJoins | src/assembler/mod.rs:78-88 | the instruction word is the opcode on top with the fields below, first operand first |
| RsAssembler.LeadingSplits | src/assembler/mod.rs:78-89 | the VM's `split_instr` gives back the opcode and fields |
| RsAssembler.ValueBytesRead | src/assembler/mod.rs:90-92 | the literal word read back is the value modulo 2^32 |
| RsAssembler.LitsStay | src/assembler/mod.rs:82 | once an operand fails to evaluate, the command fails with its error |
| RsAssembler.LitsCount | src/assembler/mod.rs:79-86 | one literal value per expression operand |
| RsAssembler.Run2Stays | src/assembler/mod.rs:60-105 | a failed second pass stays failed |
| RsAssembler.EncodeCommand | src/assembler/mod.rs:76-93 | yields `CommandStep`: the instruction word then the literal words |
| RsAssembler.SecondPass | src/assembler/mod.rs:60-105 | yields `Run2` over all instructions |
| RsAssembler.Assemble | src/assembler/mod.rs:9-111 | yields `Assembled`: the first pass, then the second with the variables the first left |
| RsAssembler.Run1Prefix | src/assembler/mod.rs:19-54 | a prefix of a successful first pass succeeds at an address no higher |
| RsAssembler.Run2Prefix | src/assembler/mod.rs:60-105 | a prefix of a successful second pass succeeds with a prefix of the code |
| RsAssembler.StepSizes | src/assembler/mod.rs:24-103 | each instruction moves the first pass's address by as many bytes as the second emits for it |
| RsAssembler.LayoutMatchesCode | src/assembler/mod.rs:19-105 | with fixed locations, the first pass's address is the length of the code the second emitted |
| RsAssembler.NameKept | src/assembler/mod.rs:21-33 | a name nothing later redefines keeps its value to the end of the first pass |
| RsAssembler.LabelMarksCode | src/assembler/mod.rs:33 | a label ends the first pass holding the offset where the bytes after it start |
| RsAssembler.CommandDecodes | src/assembler/mod.rs:76-89 | a command's first four bytes split back into its opcode and operand fields |

## Left out

- File and console I/O are parameters or left out: reading images and source files, writing output, the debugger's terminal, `print`/`println!`, the `getch` and stdout instructions (`write_stdout`, `flush_stdout`, `read_stdin`).
- Floating point is left out: the f32 instructions, float conversions and `fcmp` have no modelled effect. Float literals keep their 32-bit pattern through `parseF32`, a parameter.
- Concurrency is left out: thread start and run loops, atomics, `atomic_op`, the thread table's locking, and the Ctrl-C handler of the debugger.
- The screen (`crystalvm/src/screen.rs`) and the `Console` device are not part of this model.
- `Display`/`Debug` formatting of errors and values is left out. Errors are compared by their kind and position.
- Python's `eval` of `#` expressions and of the first assembler's `$` and data lines is a parameter. The first assembler's `parse_instr` does nothing and is not modelled. Its deferred lambdas are kept as the text of their line.
- `bits_to_instr` (the disassembler's mnemonic table) and `asm_funcs` are parameters.
- `Expression::eval` is `todo!()` in `src/assembler/expression.rs`, so the Rust assembler takes evaluation as a parameter.
- `instr_name_id_map` enters the Rust assembler as a parameter. `REG_B` is not defined by the machine and is a parameter of the register reader.
- The debugger's `fetch_data`, `read_word` and `execute_next` are parameters.
- Debugger.Session.Step: each round is bounded by a step allowance, because the source's inner loop need not end. A round that runs out reports it.
- Device.FifoDevice.Read8: requires a pending byte, where the source blocks until one arrives.
- MachineImage.FromImage: a panic is a null result, and the stream length is taken as the image's length.
- Panics in the Rust code (`unwrap`, `expect`, index out of range) are modelled as error results, or as a flag on the result. `u32` overflow follows one build per member, as the lines below say.
- RsAssembler.LayoutMatchesCode: holds under `FixedLocations` (every `@` expression evaluates the same in both passes) and `ShortStrings`. Without them the source's own assertion at line 70 can fail.
- RsAssembler.Advance: `s.len() as u32` truncation is modelled. Its interaction with overflow is only covered by `ShortStrings` in the layout lemmas.
- Quirks kept as written without a separate finding: `xor` computes `wrapping_shl` (src/machine/thread/instructions.rs:180); `imin`/`imax` compare unsigned (168-169); `fsub`/`fmul`/`fdiv`/`frem` add (191-194, float, left out).
- PyAssembler.Assembler.Line and PyAssembler.Assembler.ParseLines: beyond the number of sections opened, what each kind of line does is stated by `Define`, `OpenSection` and `Instruction`, and the whole run by `Run`.
- ThreadSpec.ReadU32: `addr + 3` is computed on `u32` at src/machine/thread/mod.rs:151. For addr >= 2^32 - 3 a debug build panics; a release build wraps, passes the window check and then panics on the memory slice. The model reads such an address as outside the window (E raised, 0 read), which neither build does.
- ThreadSpec.WriteU32: the same `addr + 3` at src/machine/thread/mod.rs:160; a debug build panics, a release build wraps and copies past the memory. The model raises E instead.
- VmThread.Thread.ReadU32: follows ThreadSpec.ReadU32, with the same gap at addresses within 3 of 2^32.
- VmThread.Thread.WriteU32: follows ThreadSpec.WriteU32, with the same gap at addresses within 3 of 2^32.
- ThreadSpec.WriteU32, ThreadSpec.StoreWord, ThreadSpec.PartlyStoredStep and ThreadSpec.PartlyStoredAll: model the intended store into the byte memory. The copy at src/machine/thread/mod.rs:162 targets the `Vec` header's address plus addr and never writes memory (see "## Findings"; `ThreadSpec.WriteU32AsWritten`).
- VmThread.Thread.WriteU32 and VmThread.Thread.ExecSt: model the intended store, as ThreadSpec.WriteU32 does; the source's st leaves memory as `InstrSpec.ExecStAsWritten` says.
- InstrProps.StEffect and InstrProps.StLdRoundTrip: hold for the intended store; as written, ld after st reads the old word (`InstrProps.StLdAsWritten`).
- LegacyThread.LegacyThread.WriteU32 and LegacyThread.WriteReadRoundTrip: model the intended store; the copy at crystalvm/src/thread/mod.rs:122 has the same defect and checks no memory bound (`LegacyThread.WriteU32AsWritten`).
- What the copy of `write_u32` overwrites in either revision (the `Vec` header or what lies past it) is undefined behaviour and is not modelled. `write_f32` (src/machine/thread/mod.rs:178-185) has the same copy and is left out with the float instructions.
- ThreadSpec.AdvanceIp and IntOps.SignedAbs follow the release build (wrap-around); RsAssembler.Advance and the `Overflow` result of LegacyThread.ReadU32 and LegacyThread.LegacyThread.WriteU32 follow the debug build (the overflow panic).
- RsAssembler.ScalarStep: `Value` has no `to_le_bytes` (src/assembler/expression.rs:116-130), so src/assembler/mod.rs:96-102 do not compile as written. The model reads each numeric data line as `copy_into` the directive's type followed by that type's little-endian bytes, which is what the first pass counts; under the four-byte reading of the literal words at line 91, `.u8 5` would write 4 bytes where the first pass counts 1.
- RsAssembler.SecondPass, RsAssembler.Assemble, RsAssembler.StepSizes, RsAssembler.LayoutMatchesCode and RsAssembler.LabelMarksCode: hold for the `ScalarStep` reading above, not for code that does not compile.
- PyAssembler.Assembler.Define: binds the value of the literal rewriting as intended (`RewriteLiteralsIntended`), not the nested rewriting of assembler.py:132-133 (`RewriteAsWritten`, shown by PyNumber.TwiceAsWritten).
- PyAssembler.Assembler.PushSection: resolves the previous section with the corrected `Resolve`, not `ResolveAsWritten` (assembler.py:118-123).
- PyAssembler.Assembler.ResolveLast: uses the corrected `Resolve`, as PushSection does.
- PyAssembler.Assembler.Run: is the corrected program: the three rows above, letter registers packed as 48..52, and markers written without moving their `uint`.
- PyAssembler.Assembler.Output: writes with the corrected `ItemBytes`, as Run does.
- PyAssembler.ArgFields: uses the corrected `ArgField` (letters at 48..52), not `ArgFieldAsWritten` (0..4, assembler.py:185-187).
- PyAssembler.CommandWord, PyAssembler.CommandBits and PyAssembler.EmitCommand: built on the corrected `ArgField`, as ArgFields is.
- PyAssembler.ItemBytes: reads a marker's `uint` plus offset without moving it; assembler.py:196-197 moves it (`EmitMarkerAsWritten`).
- PyAssembler.EmitItems and PyAssembler.Emit: built on the corrected `ItemBytes`.
- PyAssembler.Assembler.EvalForm and PyAssembler.Assembler.EvalVar: `isnumeric()` at assembler.py:108 is read on the ASCII digits only; other Unicode numerals (`'²'`, `'٣'`) are not modelled.
- PyAssembler.RegisterField: `arg[1:].isnumeric()` and `int(arg[1:])` at assembler.py:180-181 are read on ASCII digits only.
- PyNumber.PyInt: `int(.., base=0)` is modelled on ASCII digits; Python also accepts other Unicode decimal digits and `_` separators.
- PyLayout.NameSplit: `isalnum()` is the parameter `alnum`; the layout lemmas ask of it only what `AlnumLike` states (ASCII letters and digits are in, whitespace, `:`, `$` and `.` are out).
- PyLayout.ParseVarName and PyLayout.BadStartRejected: name characters are those of PyLayout.NameSplit, with `isalnum()` as the parameter `alnum`.
- Numerals.RemoveAll: its own contract states only that the character is gone; the exact result is stated by Numerals.RemoveAllCounts and Numerals.RemoveAllAppend.
- PyText.Strip: its own contract states the bounds and ends; the exact result is stated by PyText.StripTrims.
- PyText.Replace: its own contract states which characters can occur; the exact result is stated by PyText.ReplaceAppend and PyText.ReplaceAbsent.
- PyText.Words: its own contract states that every piece is a word; where the pieces break is stated by PyText.WordsSplitOff (any run of whitespace, then a word, then whitespace or the end) and PyText.WordsSkipSpaces, and that they are the text's non-space characters in order by PyText.WordsKeepText.
- PyLayout.Substitute: the exact result is stated by PyLayout.SubstituteAt.
- PyLayout.PositionLine: a `$` line whose value is not an int (`$ 1.5`) is an error here; Python would go on with a float position.
- PyLayout.ParseLine and PyLayout.ParseCode: objects other than ints, strings, bytes and sized objects are an error for `$` and `.bytes` lines; Python would fail later or carry them on.
- Opcodes: the 108-entry table is declared once. Its per-chunk lookup lemmas are proof steps of `OpcodeOfName`.

## Findings

| source | as written | input that shows it | evidently intended | confidence | as-written member | corrected member |
|---|---|---|---|---|---|---|
| assembler.py:185-187 | `%S`, `%I`, `%L`, `%C`, `%F` pack as their index 0..4 | `mov %S %I` packs fields 0 and 1; the disassembler and debugger read them back as `%00` and `%01` | the letters pack as 48..52, the field values assembler/disassembler.py:33-34 and the debugger print as `S I L C F` (the machine's own named registers are I=0x30, W=0x31, S=0x32, F=0x33, D=0x34, C=0x35) | not executed | PyAssembler.LetterFieldAsWritten | PyAssembler.LetterFieldRoundTrip |
| assembler.py:118-123 | `section.addr + c - d` mutates the section's own `uint` and hands that one object to every marker | a section at 0x22000 holding a marker, an instruction and a second marker: both markers read 0x22001 and the section moves | each marker gets its own address (0x22000 and 0x22001) and the section keeps its start; as corrected, the address is still the section start plus the number of entries before the marker, not their byte length (`MarkerAddressCountsWords`) | not executed | PyAssembler.ResolveAsWritten | PyAssembler.Resolve |
| assembler.py:196-197 | `instr.resolved + instr.offset` runs `uint.__add__`, which moves the resolved `uint` | a marker with offset 1 written twice puts out v+1, then v+2 | writing reads the marker; the same marker puts out the same word each time | not executed | PyAssembler.MarkerWrittenTwiceAsWritten | PyAssembler.MarkerWrittenTwice |
| assembler.py:132-133 | each match is replaced everywhere in the text, including inside earlier replacements | `#a 0x1+0x1` becomes `uint(uint(0x1))+uint(uint(0x1))` | each literal is replaced once by its `uint` text | not executed | PyNumber.TwiceAsWritten | PyNumber.TwiceIntended |
| src/machine/thread/mod.rs:162 | `mem_mut()` is a `&mut Vec<u8>`, so `as *mut _ as usize + addr` is the address of the `Vec` header plus addr; the four bytes never reach `memory[addr..addr + 4]` | four zero bytes, window 0..4, register 0 = 0 and register 1 = 1: `st %0 %1` then `ld %0 %2` leaves 0 in register 2 | the four bytes are stored at `memory[addr..addr + 4]` (the buffer's pointer plus addr), so ld gives 1 back | not executed | InstrProps.StoreLostAsWritten | InstrProps.StLdRoundTrip |
| crystalvm/src/thread/mod.rs:122 | the same copy to the `Vec` header's address plus addr, with no bound on the memory | four zero bytes, window 0..=3: `write_u32(0, 1)` then `read_u32(0)` gives `Ok(0)` | the word is stored at `memory[addr..addr + 4]` and reads back | not executed | LegacyThread.StoreLostAsWritten | LegacyThread.WriteReadRoundTrip |
| src/assembler/expression.rs:33-34 | the index after a call is bumped twice past the `)` | `$ n f(1)` leaves the index past the line, and `assert_ended!` panics | the index right after the `)` | not executed | RsInstructionsProps.CallValuePanics | RsParse.ParseRendered |
