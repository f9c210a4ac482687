# bigassm, modelled and proved

bigassm is an assembler for 128-bit RISC-V. It makes one pass over its tokens: bytes are appended to sections at once,
labels wait in queues until something is emitted behind them, and whatever depends on an address is emitted as a
placeholder and rewritten in place by a scheduled lambda when `finish` runs. This project models the whole way from
source text to the ELF file, and what a processor does when it fetches the bytes, and proves that the result is right:

- The one-pass assembler is a two-pass assembler. `TwoPass` is a specification without queues, placeholders or fixups:
  lay everything out, look every label up ahead, encode every item once. `Equivalence.OnePassIsTwoPass` says that the
  one-pass assembler accepts a program in which no size wraps around exactly when the two passes do, and ends with the
  same bytes, base addresses and labels. `Driver.Build` carries this over to the object with mutable state.
- What is emitted does what it is for. `Machine` interprets the generated instructions at 128 bits. `EndToEnd` fetches
  them from the finished section, and says for `set`, `li`, `la`, `laq`, branches, jumps and `farcall` exactly when they
  load or reach what they name.
- Every statement means what is written. `Syntax` goes from tokens, at any place of a program, to items, registers,
  immediates and bytes, by the numbers of the ISA manual; `Operators`, `Sizes`, `Flags` and `Acceptance` say what
  constant chains, symbols, sections and whole programs come to, without the functions that compute it.
- Text, constants and files round-trip: hex numbers, string literals, data, includes, symbol and string tables.

Where a proof showed that the code does not do what its documentation or comments promise, "Findings" says so, with an
input that shows it and the exact condition under which the code does keep the promise.

The form follows the source. The assembler, its sections, the ELF sections and the in-place fixups are classes and
methods that change state (`Sections`, `Assembler.dfy`, `Patching`, `Elf`); each method is proved against a function on
values (`State`, `References`, `Layout`), and the theorems are about those functions. Instruction formats, which are
expressions over bit fields, are functions. Sizes are 64-bit and addresses 128-bit, and both wrap around explicitly.
An exception is a value (`Results`).

| file | about |
|---|---|
| `Words`, `Results` | machine integers, bit operations, little-endian bytes; results |
| `Instructions`, `Machine`, `Manual` | instruction formats; the interpreter; both against the numbers of the ISA manual |
| `Immediates`, `WideConstants`, `Shapes` | `li` and `set`: 32-bit and 128-bit constants; which instructions they are made of |
| `References`, `Reach` | code that names a label: placeholder, fixup, final form, and where it leads |
| `Tokens`, `Constants`, `Operators`, `Grammar`, `Items`, `Syntax`, `Encodings` | what statements read and mean |
| `Hex`, `Tokenizer`, `Numbers`, `Scanner`, `Splitting` | printing numbers, reading words, splitting text |
| `Layout` | base addresses |
| `State`, `Fixups`, `TwoPass` | the one-pass assembler on values, its schedule, and the specification |
| `Planning`, `Labels`, `Refinement`, `Pending`, `Equivalence`, `Remarks`, `LabelBinding` | the proof that they agree |
| `Includes` | `.include` |
| `Acceptance`, `Sizes`, `Flags` | which programs are accepted, and what their symbols and sections are |
| `Sections`, `Assembler`, `Patching`, `Driver` | the objects |
| `EndToEnd` | accepted programs, executed from memory |
| `Elf`, `ElfRead`, `ElfProgram` | writing the ELF file, reading it back, and doing both to an accepted program |

## Model

| member | source | states |
|---|---|---|
| `Equivalence.OnePassIsTwoPass` | src/assemble.cpp:14-73 | For every program and every order of the scheduled symbols: accepted without any size wrapping around if and only if the two-pass assembler accepts, and then every section has the same bytes, base address and flags, and every label the same location. |
| `Equivalence.SaneOnePassIsTwoPass` | src/section.cpp:32-36 | With alignments from 1 to 2^63 and reservations up to 2^63 bytes, nothing can wrap around, so the two assemblers accept the same programs. |
| `Equivalence.WrapOverwritesData` | src/directive.cpp:8-9 | Without that condition the equivalence fails: four bytes of data behind `.align 0` are overwritten by the fixup of the `.size` before it, in an accepted program. |
| `Acceptance.AcceptedExactly` | src/assemble.cpp:25-73 | The two passes accept a program, and so does the one pass without wrap-around, exactly if every item fits its section, every name that is referred to or described is a label of the program, and the distance of every jump to a label, mod 2^64, is below 0x800 or at least 2^64 - 0x800 at the final addresses. |
| `Acceptance.NearJumpsAccepted` | src/opcodes.cpp:10-19 | So a program whose items fit, whose names exist and whose jumps go from -2048 to 2047 bytes is accepted, by the two passes and by the one. |
| `Acceptance.PlanExactly` | src/section.cpp:21-36 | The first pass succeeds exactly if no item shrinks its section, outgrows 2^63 - 1 bytes, or sets a base address behind bytes. |
| `Acceptance.ReferenceStart` | src/assemble.cpp:35-37 | Code for a label, and the number of `.size`, start at the least multiple of 4 at or above the end of the section. |
| `Acceptance.BlockStart` | src/section.cpp:32-44 | Data and code start at the least multiple of their alignment at or above the end of the section. |
| `Planning.StepEffect` | src/assemble.cpp:25-55 | One item that does not wrap around: it succeeds exactly when it fits its section, and changes only the current section, the schedule, the labels it flushes and the globals, all at once. |
| `Planning.RunPlanned` | src/assemble.cpp:25-55 | A run ends without exception or wrap-around exactly when the first pass does, with the layout that the first pass found. |
| `Planning.SaneRuns` | src/section.cpp:28-36 | A program of sane items never wraps around, from any bounded state. |
| `Refinement.LogWithin` | src/assembler.hpp:99-104 | Every fixup of a run lies within its section's final size, at or after where the run began. |
| `Refinement.LogApart` | src/opcodes.cpp:125-156 | The fixups of a run own pairwise disjoint bytes. |
| `Refinement.RunRewritten` | src/assemble.cpp:179-191 | Placeholders rewritten by all their fixups are the bytes that the second pass writes with final addresses. |
| `Pending.FixupsWait` | src/assembler.hpp:99-104 | In every state between two items of a run without wrap-around, each scheduled fixup finds the untouched placeholder of its item, aligned to 4, and from there to the end no buffer loses a byte. |
| `Pending.AlignZeroLoses` | src/section.cpp:32-36 | `.align 0` behind a reference leaves a scheduled fixup without its bytes. |
| `Labels.LabelsAgree` | src/assemble.cpp:61-66 | The queues of all sections bind each label to where looking ahead in the program finds it, and bind exactly the labels that occur. |
| `Labels.FlushAllEffect` | src/assemble.cpp:61-66 | `finish` binds every queued label that is not bound yet to the end of the section that is current then, whichever section queued it, and empties all queues. |
| `LabelBinding.LabelBound` | src/section.cpp:37-44 | A label gets the aligned offset of the first item that flushes a section in which it occurs before that item; the first binding wins; a label no item binds gets the end of the last current section. |
| `Fixups.RunEntriesEffect` | src/assemble.cpp:179-191 | A schedule of disjoint fixups succeeds exactly when each of them can on the state before, and then each owned range is rewritten once, nothing else in any buffer changes, and no address moves. |
| `Fixups.OrderIrrelevant` | src/assemble.cpp:179-191 | Any permutation of a schedule with disjoint fixups succeeds or fails with it, with the same bytes in every section. |
| `Remarks.AnyOrder` | src/assemble.cpp:179-191 | For every run, every permutation of its scheduled fixups, even one that mixes symbols, has the outcome of `finish`. |
| `Remarks.SymbolsRemarked` | src/directive.cpp:10-18 | In an accepted program each symbol ends with the type and size that its own `.type`, `.endfunc` and `.size` give it, in program order and at final addresses, whatever the order of the symbols; `Sizes` says which numbers these are. |
| `Sizes.SizeWritten` | src/directive.cpp:56-75 | `.size` in an accepted program, with the label at offset a of the same section, b bytes before the item and the number at s: the four bytes there read as b - a mod 2^32 if a is below b, and as a - 4 - s mod 2^32 otherwise. |
| `Sizes.SymbolSized` | src/directive.cpp:65-71 | The last item to set the size of a symbol, if it is a `.size`, leaves that number in the symbol. |
| `Sizes.FunctionEnded` | src/directive.cpp:10-18 | If it is an `.endfunc`, it leaves the number of bytes from the label up to it; and an `.endfunc` that is the last to set the type leaves 2, a function. |
| `Sizes.SymbolTyped` | src/assemble.cpp:193-199 | A `.type` that is the last to set the type leaves its type. |
| `Sizes.SymbolPlain` | src/directive.cpp:10-75 | A symbol that no item sets has type 0 and size 0. |
| `Flags.SectionFlags` | src/section.cpp:21-31 | In an accepted program, a section is code, data, reserved, execute-only or read-only exactly if some item in it makes it so. |
| `Flags.OrgCounts` | src/directive.cpp:35-41 | A section ends up where the last `.org` in it says; `.text` without one, at the configured base. |
| `Flags.CurrentSection` | src/assemble.cpp:118-131 | Behind `.section` the current section has that name; behind anything else it is the one before. |
| `Flags.SectionsNamed` | src/assemble.cpp:118-131 | An accepted program has one section for each name, the first of them `.text`. |
| `References.PatchIsFinal` | src/opcodes.cpp:21-28 | For every kind of reference, assigning to the fields of its placeholder in place gives exactly the bytes encoded afresh from its registers and the final addresses; `Syntax`, `Reach` and `Sizes` say what those say and do. |
| `References.RejectsExactly` | src/opcodes.cpp:10-19 | The only references ever turned down are jumps whose distance, mod 2^64, is from 0x800 to 2^64 - 0x801. |
| `Includes.IncludeIsSplicing` | src/directive.cpp:24-29 | A program with includes, nested to any finite depth, is accepted exactly if each of its files is by itself a list of complete statements and the tokens with the files spliced in are accepted without includes; and then both have the same items. |
| `Includes.ItemsByStatements` | src/assemble.cpp:25-55 | What tokens with includes come to is what their statements come to, one by one; `Syntax` says which item each is, at any place of a program. |
| `Includes.CutOffStatement` | src/directive.cpp:24-29 | The other direction needs the condition: a file that ends in `.align`, and a constant behind its `.include`, are rejected, and spliced together accepted. |
| `Grammar.StatementLocal` | src/assembler.hpp:26-42 | Wherever the tokens of a statement are copied, it parses to the same statement, as long as the next token there can start one: no handler's lookahead takes such a token. |
| `Constants.ResolveMeaning` | src/assemble.cpp:205-305 | A chain is accepted with a value if and only if it starts with a constant, has at most one binary operator, before all later constants, and the left fold of it over those, each complemented by the parity of the `~` before it, has that value mod 2^128; it consumes the maximal run. `Operators` says what each operator computes. |
| `Operators.SumMeans` | src/assemble.cpp:236-238 | `a + b` is the sum up to a multiple of 2^128. |
| `Operators.DifferenceMeans` | src/assemble.cpp:239-241 | `a - b` is what, added to b mod 2^128, gives a. |
| `Operators.ProductMeans` | src/assemble.cpp:242-244 | `a * b` is the product up to a multiple of 2^128. |
| `Operators.QuotientMeans` | src/assemble.cpp:245-247 | `a / b` is the v with v b <= a < v b + b; there is none exactly if b is 0. |
| `Operators.RemainderMeans` | src/assemble.cpp:254-256 | `a % b` is below b, and a multiple of b away from a. |
| `Operators.ShiftRightMeans` | src/assemble.cpp:248-250 | `a >> b` is a divided by 2^b, rounded down, for b below 128. |
| `Operators.ShiftRightSteps` | src/assemble.cpp:248-250 | By 0 it is a, and by one more place it is half. |
| `Operators.ShiftLeftMeans` | src/assemble.cpp:251-253 | `a << b` is a times 2^b up to a multiple of 2^128, for b below 128. |
| `Operators.ShiftLeftSteps` | src/assemble.cpp:251-253 | By 0 it is a, and by one more place it is twice that. |
| `Operators.BitsMean` | src/assemble.cpp:257-265 | Every bit of what the three bitwise operators give, from the same bit of both operands. |
| `Operators.NotMeans` | src/assemble.cpp:230-233 | `~` in front of an operand is the operand with each of its 128 bits turned over. |
| `Operators.OtherFails` | src/assemble.cpp:298-299 | No other operator is accepted. |
| `Syntax.MakesFirst` | src/assemble.cpp:25-55 | The items of tokens are the item of the first statement and those of the rest, so the rows below hold for every statement of a program. |
| `Syntax.BranchWritten` | src/opcodes.cpp:283-302 | `op a, b, label` is a branch whose final word, by the numbers of the ISA manual, compares a with b in the order as written, with the condition of the opcode. |
| `Syntax.LaWritten` | src/opcodes.cpp:114-142 | `la`: AUIPC within 2 GiB and LUI beyond, then ADDI, both on the register as written. |
| `Syntax.LaqWritten` | src/opcodes.cpp:143-180 | `laq`: the first register is the destination, and the second the temporary. |
| `Syntax.FarCallWritten` | src/opcodes.cpp:334-354 | `farcall`: LUI and JALR through the register as written, linking register 1. |
| `Syntax.CallWritten` | src/opcodes.cpp:355-386 | `call` and `jal` of a label link the register behind it, or register 1. |
| `Syntax.JmpWritten` | src/opcodes.cpp:412-428 | `jmp` links register 0. |
| `Syntax.FixedWritten` | src/opcodes.cpp:52-627 | The words of `nop`, `ret`, `ecall`, `ebreak` and `wfi` as numbers. |
| `Syntax.MovWritten` | src/opcodes.cpp:483-493 | `mov a, b` is ADDI from b to a. |
| `Syntax.IncWritten` | src/opcodes.cpp:495-505 | `inc a` is ADDI of 1 from a to a. |
| `Syntax.SetWritten` | src/opcodes.cpp:68-112 | `set`: destination, temporary and a chain of constants. |
| `Syntax.LiWritten` | src/opcodes.cpp:58-67 | `li`: destination and a chain of constants. |
| `Syntax.LoadWritten` | src/opcodes.cpp:182-195 | A load: destination, offset if there is one, base, each in its field. |
| `Syntax.StoreWritten` | src/opcodes.cpp:242-256 | A store: base, source, offset if there is one, each in its field. |
| `Syntax.JalrOperands` | src/opcodes.cpp:387-404 | `jalr`: source, offset and link in this order, each of which may be missing. |
| `Syntax.JalrWritten` | src/opcodes.cpp:387-404 | They are RS1, the immediate and RD. |
| `Syntax.CallByWritten` | src/opcodes.cpp:371-384 | `call` and `jal` by a constant, with the link behind it or register 1. |
| `Syntax.ImmediateWritten` | src/opcodes.cpp:430-442 | Arithmetic with a constant within 2048 of 0 at 64 bits: the register is source and destination. |
| `Syntax.ImmediateRejected` | src/opcodes.cpp:436-437 | Any other constant is an error. |
| `Syntax.TwoWritten` | src/opcodes.cpp:430-481 | Arithmetic on two registers: the first is destination and first source. |
| `Syntax.ThreeWritten` | src/opcodes.cpp:430-481 | On three: destination, first and second source as written, with the opcode for registers by its number. |
| `Syntax.SyscallWritten` | src/opcodes.cpp:592-605 | `syscall` is ADDI into register 17, and 0x73. |
| `Syntax.SystemFails` | src/opcodes.cpp:628-637 | `system` is never accepted: its first chain takes every constant, and its second one finds none. |
| `Syntax.LduFails` | src/opcodes.cpp:231-235 | `ldu` is never accepted. |
| `Syntax.DataWritten` | src/pseudo_ops.cpp:7-44 | Data is aligned to its size behind the labels that wait, but for bytes; its bytes read back as the constant mod 2^64 and mod the size. |
| `Syntax.ReserveWritten` | src/pseudo_ops.cpp:46-79 | Reserved space is aligned in the same way; its length is the product at 64 bits. |
| `Syntax.IncbinWritten` | src/pseudo_ops.cpp:81-88 | The bytes of the file, behind the labels that wait; an error if there is none. |
| `Syntax.TextDirective` | src/directive.cpp:77-90 | `.string` writes the characters and a NUL, `.ascii` the characters, `.strlen` their number in four bytes, aligned to 4. |
| `Syntax.ConstantDirective` | src/directive.cpp:8-41 | `.align` takes 64 bits of its constant, `.org` all 128. |
| `Syntax.SymbolDirective` | src/directive.cpp:10-75 | `.endfunc`, `.global` and `.size` are about the symbol behind them. |
| `Syntax.TypeDirectiveWritten` | src/directive.cpp:46-55 | `.type`: 1 for an object, 2 for a function, and nothing else is accepted. |
| `Syntax.BareDirective` | src/directive.cpp:19-45 | `.execonly`, `.readonly` and `.finish_labels`, which flushes labels without aligning. |
| `Syntax.LabelWritten` | src/assemble.cpp:32-34 | A label token queues its name. |
| `Syntax.SectionWritten` | src/directive.cpp:30-34 | `.section` takes the directive behind it as a name. |
| `Syntax.IncludeWritten` | src/directive.cpp:24-29 | `.include` takes the string behind it as a file. |
| `Syntax.OtherDirective` | src/directive.cpp:91-93 | A directive of another name is skipped. |
| `Immediates.RoundingTrick` | src/opcodes.cpp:26-27 | Adding the low 12 bits, unsigned, before the shift is rounding to the nearest multiple of 4096. |
| `Immediates.BuildUint32` | src/opcodes.cpp:30-50 | Appends the one or two instructions that `LoadImmRuns` and `LoadImmExact` are about. |
| `Immediates.LoadImmRuns` | src/opcodes.cpp:30-50 | Executed, they change the register and the program counter only, and leave the sum of the two sign-extended immediates; register 0 stays 0. |
| `Immediates.LoadImmExact` | src/opcodes.cpp:30-50 | That is the value mod 2^32 always, and the sign-extended value at 128 bits exactly up to 0x7FFFF7FF. |
| `Shapes.LoadShape` | src/opcodes.cpp:30-50 | `li` is ADDI alone if 12 bits are enough, LUI alone if the low 12 bits are zero, and otherwise the rounded LUI and ADDI, by the numbers of the ISA manual. |
| `WideConstants.BuildSet` | src/opcodes.cpp:68-112 | The loop of `set`, with `value_so_far` and all its conversions, emits the instructions that `SetLoadsConstant` is about. |
| `WideConstants.BuildLaqPlaceholder` | src/opcodes.cpp:158-178 | The loop of `laq` emits four two-instruction loads joined by shifts and additions: 14 instructions of the same shape for every address. |
| `WideConstants.SetLoadsConstant` | src/opcodes.cpp:68-112 | For every two registers, when `set` leaves its constant. With two different nonzero ones: exactly when no lane but the top one is 0x7FFFF800 or more (of a constant below 2^32, its only lane counts too); with a register twice or register 0, only in the cases of `SetExact`. Other registers stay. |
| `WideConstants.SetWrongExample` | src/opcodes.cpp:75-78 | `set` of 0xFFFFFFFF leaves 2^128 - 1. |
| `WideConstants.LaqLoadsAddress` | src/opcodes.cpp:143-180 | For every two registers, when the fixed-up `laq` leaves the 128-bit address. With two different nonzero ones: exactly when its three low lanes are below 0x7FFFF800, and its whole final state. With the same one twice, or none to hold it, only 0; with no temporary, only the top lane. |
| `WideConstants.LaqWrongExample` | src/opcodes.cpp:150-156 | `laq` of 0x7FFFF800 leaves 2^128 - 2^31 - 2048. |
| `Shapes.SetShape` | src/opcodes.cpp:79-110 | `set` above 32 bits: the four 32-bit words of the constant from the top, each but the first with the shift by 32, if there is anything above it, and the addition. |
| `Shapes.SetShort` | src/opcodes.cpp:75-78 | `set` up to 32 bits is `li`. |
| `Shapes.LaqPattern` | src/opcodes.cpp:150-178 | `laq`: fourteen instructions, LUI and ADDI for each of the four words of the address, with three shifts and additions. |
| `Reach.LaLoadsLabel` | src/opcodes.cpp:114-142 | `la` leaves the label's address exactly when the true distance is in [-2^31, 2^31 - 2049], or, beyond the guard of the relative form, the address itself is in the absolute range; in register 0, only the address 0. |
| `Reach.BranchLands` | src/opcodes.cpp:283-302 | A taken branch goes to its label exactly for even true distances in [-4096, 4094]; otherwise it falls through; registers stay. |
| `Reach.JumpLands` | src/opcodes.cpp:355-386 | A jump goes to its label exactly for even true distances in [-2^19, 2^19), the range its `>> 19` encoding keeps, and links its register. |
| `Reach.AcceptedJumpLands` | src/opcodes.cpp:10-19 | A jump that passes the bounds check goes to its label exactly when the true distance is even and in [-2048, 2047]. |
| `Reach.NearLooksNear` | src/opcodes.cpp:10-19 | Every jump with a true distance from -2048 to 2047 passes the bounds check. |
| `Reach.CallReturns` | src/opcodes.cpp:405-411 | A return through the register that a call linked goes on behind the call exactly when the call is at an even address. |
| `Reach.FarCallLands` | src/opcodes.cpp:334-354 | `farcall` goes to its label exactly when the address is even, has bit 11 clear, and is a sign-extended 32-bit value (with register 0 as its temporary: a sign-extended even 12-bit one); it links register 1. |
| `Reach.FarJumpMisses` | src/opcodes.cpp:364-365 | A jump to a label 2^64 bytes away passes the bounds check, and jumps to itself. |
| `Reach.LaMisses` | src/opcodes.cpp:129-133 | `la` of a label 2^31 - 2048 bytes ahead takes the relative form and leaves another address. |
| `Reach.BranchMisses` | src/opcodes.cpp:295-299 | A taken branch to a label 4096 bytes ahead is accepted and misses. |
| `Reach.FarCallMisses` | src/opcodes.cpp:349-350 | `farcall` of a label at 0x800 goes elsewhere. |
| `EndToEnd.LaReaches` | src/opcodes.cpp:114-142 | In an accepted program, `la` fetched from its section at its final address leaves its label's final address exactly when in reach, for every register, and changes no other. |
| `EndToEnd.LaqReaches` | src/opcodes.cpp:143-180 | The same for the 14 instructions of `laq`, for every two registers, with the conditions of `LaqLoadsAddress`. |
| `EndToEnd.BranchReaches` | src/opcodes.cpp:283-302 | The same for branches, taken and not taken. |
| `EndToEnd.JumpReaches` | src/opcodes.cpp:355-428 | The same for `call`, `jal` and `jmp`, whose label passed the bounds check, with the link. |
| `EndToEnd.FarCallReaches` | src/opcodes.cpp:334-354 | The same for `farcall`. |
| `EndToEnd.SetReaches` | src/opcodes.cpp:68-112 | The block of a `set` in an accepted program, fetched from memory, leaves its constant exactly under the conditions of `SetLoadsConstant`, for every two registers. |
| `EndToEnd.LiReaches` | src/opcodes.cpp:58-67 | The block of an `li`, fetched from memory: it leaves the low 32 bits of its constant; their signed value exactly up to 0x7FFFF7FF; and the constant itself, read as a signed 64-bit or as a 128-bit number, exactly from -2^31 - 2048 to 0x7FFFF7FF. |
| `EndToEnd.LiDropsHighBits` | src/opcodes.cpp:64 | `li` of 2^32 is accepted and leaves 0. |
| `EndToEnd.LabelOnInstruction` | src/assemble.cpp:35-41 | A label bound by an instruction lies at a multiple of 4 in the section of that instruction. |
| `EndToEnd.JumpWithinSection` | src/opcodes.cpp:355-428 | An accepted jump to an instruction of its own section always lands there. |
| `EndToEnd.BranchWithinSection` | src/opcodes.cpp:283-302 | A taken branch to an instruction of its own section lands there exactly within 4 KiB. |
| `Encodings.OperandsDecode` | src/opcodes.cpp:182-637 | Whatever operands an opcode accepts, the words it emits decode to them, field by field. A constant is said as it was written, read as 64 or as 128 bits, exactly when the field has the bits for it: for loads, stores, `jalr`, `jal`, and `syscall`, which are not checked (nor would `system` be, see `Syntax.SystemFails`); and for arithmetic, whose check sees 64 bits, exactly below 2^64 or from 2^128 - 2048 on. |
| `Encodings.AdditionRuns` | src/opcodes.cpp:430-511 | `mov`, `inc` and every form of the 128-bit `add` leave their sum; a constant is added at 64 signed bits, which is the constant at 128 bits exactly within 2048 of 0. |
| `Encodings.AddDropsHighHalf` | src/opcodes.cpp:436-437 | `add` of 2^64 + 5 passes the bounds check, and adds 5. |
| `Encodings.JalrRuns` | src/opcodes.cpp:387-404 | `jalr` goes to register plus displacement, made even, and links its destination. |
| `Encodings.LoadWraps` | src/opcodes.cpp:188-191 | A load with displacement 2048 is accepted and encodes -2048. |
| `Encodings.LoadDropsHighHalf` | src/opcodes.cpp:188-191 | A load with displacement 2^64 is accepted and encodes 0. |
| `Encodings.SyscallWraps` | src/opcodes.cpp:596-599 | `syscall 2048` is accepted and loads -2048. |
| `Encodings.JalWraps` | src/opcodes.cpp:371-376 | `jal` by 2^19 is accepted and jumps back by 2^19. |
| `Encodings.RegisterFormExact` | src/opcodes.cpp:446-448 | The register form of an arithmetic opcode has the opcode for registers exactly if it is not one of the 64-bit forms. |
| `Encodings.WideRegisterForm` | src/opcodes.cpp:446-448 | `addd r, r2` encodes an instruction whose immediate is the number of `r2`. |
| `Encodings.DataExact` | src/pseudo_ops.cpp:7-44 | `db`, `dh`, `dw`, `dd` and `dq` emit as many bytes as their size, which read back as the constant exactly when it is below 2^8, 2^16, 2^32, 2^64 and again 2^64. |
| `Encodings.DqDropsHighHalf` | src/pseudo_ops.cpp:8-15 | `dq` of 2^64 writes sixteen zeros. |
| `Encodings.ReserveExact` | src/pseudo_ops.cpp:46-79 | The buffer grows by count times size exactly when it may then be that large, and then keeps its bytes and adds zeros. |
| `Encodings.ResqReservesNothing` | src/pseudo_ops.cpp:73-79 | `resq` of 2^60 leaves the buffer as it is. |
| `Encodings.ResbEmpties` | src/pseudo_ops.cpp:46-51 | `resb` of 2^64 - 1 behind one byte empties the buffer. |
| `Instructions.RTypeFields` | src/rv32i_instr.hpp:9-16 | The six fields of a register-register word read back. |
| `Instructions.ITypeFields` | src/rv32i_instr.hpp:29-42 | The fields of an immediate word read back, the immediate sign-extended from its low 12 bits. |
| `Instructions.STypeFields` | src/rv32i_instr.hpp:57-71 | The fields of a store read back, the split immediate joined. |
| `Instructions.BranchOffsetPatched` | src/rv32i_instr.hpp:91-107 | The displacement of a branch word after its four immediate fields are assigned from the shifted distance. |
| `Instructions.JumpOffsetPatched` | src/rv32i_instr.hpp:110-125 | The displacement of a jump word after its four immediate fields are assigned, the last from `>> 19`. |
| `Manual.OpcodeNumbers` | src/instruction_list.hpp:3-16 | The opcodes by their numbers. |
| `Manual.KnownWords` | src/rv32i_instr.hpp:9-89 | Six instructions as whole words, one for each format without a jump. |
| `Manual.KnownJumps` | src/rv32i_instr.hpp:91-125 | Branches and jumps forward and backward as whole words. |
| `Manual.ManualIType` | src/rv32i_instr.hpp:29-42 | The places of opcode, registers, function and immediate in the number. |
| `Manual.ManualRType` | src/rv32i_instr.hpp:9-16 | The places of the six fields in the number. |
| `Manual.ManualSType` | src/rv32i_instr.hpp:57-71 | The places of the fields of a store in the number. |
| `Manual.ManualUType` | src/rv32i_instr.hpp:74-89 | The places of the fields of LUI and AUIPC in the number. |
| `Manual.BytesOfWord` | src/assemble.cpp:38-40 | An instruction is emitted with its least significant byte first. |
| `Layout.PlaceExtent` | src/assemble.cpp:90-110 | One round of the placement loop, page realignment included, is `Advance`, which the lemmas below are about. |
| `Layout.RoundUpIsLeast` | src/assemble.cpp:77-78 | The mask idiom gives the least multiple of the power of two at or above an address. |
| `Layout.KeepsBase` | src/assemble.cpp:88-107 | A section with a base address of its own keeps it. |
| `Layout.PlacedLeast` | src/assemble.cpp:88-111 | A section placed automatically starts at the least suitably aligned address, 16 or 4096, at or after the end of the section before it. |
| `Layout.RunOrdered` | src/assemble.cpp:88-111 | Sections of a run, a based one and the automatic ones after it, lie in index order and never overlap, as long as addresses do not wrap around. |
| `Layout.RealignsExactly` | src/assemble.cpp:92-102 | An automatic section moves to a new page exactly when it is the first of its run that is not code and the based one is code; the read-only rule never applies. |
| `Layout.PageSeparated` | src/assemble.cpp:92-102 | That section and every later one of the run share no page with the code before it. |
| `Layout.SecondDataNotSeparated` | src/assemble.cpp:93-97 | Code, data, code, data: the last data section follows code at the next multiple of 16. |
| `State.AlignGrows` | src/section.cpp:32-36 | Aligning grows a buffer exactly when size plus alignment minus one does not wrap around 2^64. |
| `State.AlignDirectiveExact` | src/directive.cpp:8-9 | `.align` of a power of two below 2^128 rounds up to a multiple of it exactly if it is below 2^64 or the buffer is empty. |
| `State.AlignPow2` | src/section.cpp:32-36 | For a power of two below 2^64, the new size is the least multiple at or above the old one. |
| `State.AlignZero` | src/section.cpp:32-36 | `.align 0` empties any buffer. |
| `Sections.Section.AddOutput` | src/section.cpp:21-27 | Appends the bytes and sets the flag of the kind; nothing else changes; throws beyond the largest vector. |
| `Sections.Section.Allocate` | src/section.cpp:28-31 | Resizes to the 64-bit sum, which may wrap around. |
| `Sections.Section.Align` | src/section.cpp:32-36 | Resizes to the 64-bit rounded size. |
| `Sections.Section.ResizeTo` | src/section.cpp:28-36 | Keeps what fits and pads with zeros, byte by byte. |
| `Assembling.Assembler.constructor` | src/assemble.cpp:7-12 | A `.text` section at the configured base, and nothing else. |
| `Assembling.Assembler.SetSection` | src/assemble.cpp:118-131 | Continues the section of that name, or appends an empty one; no other section changes. |
| `Assembling.Assembler.AddSymbolHere` | src/assemble.cpp:147-152 | Binds a name to the current location unless it is bound. |
| `Assembling.Assembler.AlignWithLabels` | src/section.cpp:37-44 | Aligns, then binds the queued labels to the current location and empties the queue. |
| `Assembling.Assembler.ResolveConstants` | src/assemble.cpp:205-305 | The loop over the operator and negation state reads what `ResolveMeaning` describes, or fails. |
| `Assembling.Assembler.Handle` | src/opcodes.cpp:52-637 | Every opcode's handler: accepts exactly the operands of the grammar, returns the words `OperandsDecode` is about or a placeholder and its fixup, and changes nothing else. |
| `Assembling.Assembler.AddCode` | src/assemble.cpp:38-40 | The instructions appended one by one are the block appended at once, and throw together. |
| `Assembling.Assembler.OpcodeToken` | src/assemble.cpp:35-41 | Align, handler and output are one step of the model; it fails exactly when that does. |
| `Assembling.Assembler.Directive` | src/directive.cpp:6-94 | Every directive but `.include` is one step of the model. |
| `Assembling.Assembler.PseudoToken` | src/pseudo_ops.cpp:7-88 | Every pseudo-op is one step of the model. |
| `Assembling.Assembler.Include` | src/directive.cpp:24-29 | A nested run, after which the cursor is where it was. |
| `Assembling.Assembler.Assemble` | src/assemble.cpp:14-60 | The loop over the tokens is the run of their items; it fails exactly when that does; tokens and cursor are restored. |
| `Assembling.Assembler.FlushLabels` | src/assemble.cpp:63-66 | Flushes the queues of all sections. |
| `Assembling.Assembler.ResolveBaseAddresses` | src/assemble.cpp:75-112 | The loop gives every section the base address that `Layout` is about. |
| `Assembling.Assembler.RunFixup` | src/assemble.cpp:179-191 | One scheduled lambda, on sections and symbols in place. |
| `Assembling.Assembler.FinishScheduledWork` | src/assemble.cpp:179-191 | All lambdas, symbol by symbol in some order that it reports; fails exactly when one does. |
| `Assembling.Assembler.Finish` | src/assemble.cpp:61-73 | Labels, base addresses and fixups, for some order of the symbols. |
| `Patching.SetUint32` | src/opcodes.cpp:21-28 | Rewrites a pair of words in place through the immediate that reads back; no other byte of the buffer changes. |
| `Patching.PatchLa` | src/opcodes.cpp:126-139 | The fixup of `la`, both branches, in place. |
| `Patching.PatchLaq` | src/opcodes.cpp:150-156 | The fixup of `laq`: words 0, 2, 6 and 10 and their successors, and nothing else. |
| `Patching.ApplyFixup` | src/opcodes.cpp:125-425 | Every kind of fixup in place: fails exactly for a jump whose distance, mod 2^64, is neither below 0x800 nor at least 2^64 - 0x800, and else rewrites only its own bytes. |
| `Driver.AssembleSources` | src/main.cpp:29-42 | The loop over the sources, which reads the first one every time, runs its items once for each source. |
| `Driver.Build` | src/main.cpp:18-44 | The object, built, given its sources and finished: it accepts them without wrap-around exactly when the two passes accept as many copies of the first source, and holds what they link. |
| `Driver.FirstAgain` | src/main.cpp:29-31 | Sources of the same length come to the items of all of them exactly if all are the same. |
| `Driver.FirstOfTwo` | src/main.cpp:29-31 | One source comes to its items; two come to the items of both exactly if they have the same. |
| `Hex.HexLength` | src/hex128.cpp:3-14 | The length is the least even number of at least 8 digits that loses none. |
| `Hex.ToHex` | src/hex128.cpp:3-20 | Writes the digits of that length in place, most significant first, and keeps the rest of the buffer. |
| `Hex.ToHexString` | src/hex128.cpp:22-28 | Always 32 characters: the digits, then NULs. |
| `Tokenizer.HexRoundTrip` | src/tokenizer.cpp:41-54 | For every value below 2^128, `0x` and the digits that `to_hex` reports read as the value, across the split at 16 digits. |
| `Tokenizer.DecimalExact` | src/tokenizer.cpp:57-58 | A decimal number becomes a 64-bit constant, equal to it mod 2^128 exactly when it is not negative. |
| `Tokenizer.MinusOne` | src/tokenizer.cpp:57-58 | `-1` is 2^64 - 1. |
| `Numbers.LabelWord` | src/tokenizer.cpp:26-28 | A name with a colon behind it is a label of that name. |
| `Numbers.DirectiveWord` | src/tokenizer.cpp:23-25 | A word with a dot in front is a directive, whole. |
| `Numbers.OperatorWord` | src/tokenizer.cpp:8-13 | The eleven operators. |
| `Numbers.NameWord` | src/tokenizer.cpp:62-71 | Any other word that does not look like a number or a literal is what the tables say, or a symbol. |
| `Numbers.BinaryWord` | src/tokenizer.cpp:55-56 | `0b` and the digits of a number below 2^64, with any leading zeros, read as the number. |
| `Numbers.DecimalWord` | src/tokenizer.cpp:57-58 | The decimal digits of a number below 2^31, with any leading zeros, read as the number. |
| `Numbers.SignedWord` | src/tokenizer.cpp:57-58 | With a minus in front, as 2^64 minus the number. |
| `Numbers.CharacterWord` | src/tokenizer.cpp:32-37 | A character in quotes is its number, sign-extended to 64 bits if it is not ASCII. |
| `Scanner.Split` | src/raw_split.cpp:27-97 | The loop over `word`, `line` and the three flags gives the parsed words that the lemmas below and `Splitting` are about. |
| `Scanner.NoBackslash` | src/raw_split.cpp:39-56 | No word of any text contains a backslash. |
| `Scanner.StringRoundTrip` | src/raw_split.cpp:10-56 | Quoting a string without a backslash and scanning it gives one string token with that value. |
| `Scanner.StringsWritable` | src/raw_split.cpp:10-56 | Some text scans to exactly the string if and only if it contains no backslash. |
| `Scanner.UnclosedExact` | src/raw_split.cpp:93-94 | A literal that is never closed reads as its value if and only if it is empty. |
| `Scanner.UnclosedLosesLast` | src/raw_split.cpp:93-94 | Otherwise it loses its last character, and if that is a colon it becomes a label. |
| `Scanner.CommentIsNewline` | src/raw_split.cpp:57-67 | A comment up to the end of its line is a bare newline exactly when no word is pending where it begins. |
| `Scanner.CommentRemoved` | src/raw_split.cpp:57-67 | Then the whole text has the same words on the same lines. |
| `Splitting.TwoWords` | src/raw_split.cpp:64-92 | Behind any text that ends between words: two plain words around `+`, `-` or `*` are the first, and the sign with the second; around a comma, space, tab, carriage return or newline, the two, the second one line further exactly for a newline. |
| `Splitting.TwoWordsOnly` | src/raw_split.cpp:64-97 | The same for a text of two words. |
| `Splitting.BetweenWords` | src/raw_split.cpp:64-83 | Between words, separators only count lines, a sign starts a word, and `;` a comment. |
| `Splitting.WordThenSeparator` | src/raw_split.cpp:78-85 | Behind a plain word and a separator the scanner is between words again, so texts can be read word by word. |
| `Splitting.LiteralWord` | src/raw_split.cpp:44-56 | And so it is behind a literal, which is one word. |
| `Splitting.EscapesMean` | src/raw_split.cpp:10-25 | What an escape stands for in a literal, by the numbers of ASCII. |
| `Splitting.EscapesOutside` | src/raw_split.cpp:39-43 | Outside of literals an escape is read as if the character itself stood there. |
| `Elf.ElfStringSection.Add` | src/elfwriter.cpp:25-32 | Appends the characters and a NUL, and remembers the offset. |
| `Elf.ElfSymSection.Add` | src/elfwriter.cpp:63-76 | Appends the entry of a symbol whose name was added; fails exactly otherwise. |
| `Elf.ElfWriter` | src/elfwriter.cpp:94-201 | The loops over symbols and sections, appending in place, give the image that the read-back lemmas are about: all bytes behind the headers, and the places, sizes and addresses that the headers say; it fails exactly when the entry symbol does not exist. |
| `ElfRead.SymRoundTrip` | src/elfwriter.cpp:63-76 | A symbol entry reads back, each field to its width. |
| `ElfRead.SymbolWritten` | src/elfwriter.cpp:144-168 | Symbol k of the assembler is described by entry k + 1 of the file. |
| `ElfRead.NumberWritten` | src/elfwriter.cpp:144-168 | That entry keeps 32 bits of the place of its name, however large the string table is. |
| `ElfRead.SymbolsReadBack` | src/elfwriter.cpp:144-168 | Reading by chapter 4 of the System V gABI: as many entries as `sh_info` says, each describing a symbol and each symbol described; address and size to the width of the file; with a string table of up to 4 GiB the name reads back exactly when it has no NUL, and with a larger one as what stands at 32 bits of its place. |
| `ElfRead.FileTiled` | src/elfwriter.cpp:110-201 | Header, string tables, symbol table and segments lie one after the other and fill the file; each section has a segment with its output and base address, and the access that its flags ask for. |
| `ElfRead.TablesStart` | src/elfwriter.cpp:110-168 | The first symbol is empty, and the string table starts with the empty name. |
| `ElfProgram.AcceptedWritable` | src/elfwriter.cpp:144-168 | After any accepted program, even one whose sizes wrapped around, every symbol lies in a section. |
| `ElfProgram.ProgramInFile` | src/main.cpp:44-47 | From source to file: the file of an accepted program has one entry for each label, with the address that two passes give it and (with names of up to 4 GiB) its name, one segment for each section with the bytes and base that two passes give it, and the entry point's address. |

## Findings

What the documentation or the comments promise and the code does not do: the place, what the code does, with the lemma
that says exactly when the promise holds, an input for which it does not, with the lemma that shows it, and the promise.

| where | as written | input | intended | confidence |
|---|---|---|---|---|
| src/opcodes.cpp:68-112 | `set` is exact only if no lane but the top one is 0x7FFFF800 or more; a constant below 2^32 is sign-extended (`WideConstants.SetLoadsConstant`) | `set t0, t1, 0xFFFFFFFF` leaves 2^128 - 1 (`WideConstants.SetWrongExample`) | loads up to 128-bit constants (README.md:81-82) | high |
| src/opcodes.cpp:143-180 | `laq` is exact only if the three low lanes of the address are below 0x7FFFF800 (`WideConstants.LaqLoadsAddress`) | a label at 0x7FFFF800 (`WideConstants.LaqWrongExample`) | loads up to 128-bit labels (README.md:85-86) | high |
| src/opcodes.cpp:58-67 | `li` loads 32 bits; it leaves the constant exactly from -2^31 - 2048 to 0x7FFFF7FF (`EndToEnd.LiReaches`) | `li t0, 0x100000000` leaves 0 (`EndToEnd.LiDropsHighBits`) | loads an integer constant (README.md:79-80) | high |
| src/opcodes.cpp:129-137 | the relative form reaches from -2^31 to 2^31 - 2049, but is chosen up to 2^31 - 1 (`Reach.LaLoadsLabel`) | a label 2^31 - 2048 bytes ahead (`Reach.LaMisses`) | labels within 2 GB (README.md:83-84) | high |
| src/opcodes.cpp:10-19, 364-365 | the bounds check sees the distance mod 2^64; an accepted jump lands only if the true distance is even and in [-2048, 2047] (`Reach.AcceptedJumpLands`) | a label 2^64 bytes away (`Reach.FarJumpMisses`) | a jump out of bounds is rejected (src/opcodes.cpp:17) | high |
| src/opcodes.cpp:283-302 | no bounds check: a taken branch lands only for even distances in [-4096, 4094] (`Reach.BranchLands`) | a label 4096 bytes ahead (`Reach.BranchMisses`) | jumps to the label when the condition holds (README.md:113-124) | high |
| src/opcodes.cpp:349-350 | the upper part is not rounded: `farcall` lands only if the address is even, a sign-extended 32-bit value, and has bit 11 clear (`Reach.FarCallLands`) | a label at 0x800 (`Reach.FarCallMisses`) | calls a far away label (README.md:96-97) | high |
| src/opcodes.cpp:188-191, 250-254 | the offset of a load or store is cut to 12 bits without a check; exact only if it is, at 64 or at 128 bits, a number in [-2048, 2047] (`Encodings.OperandsDecode`) | a load with offset 2048 (`Encodings.LoadWraps`), or 2^64 (`Encodings.LoadDropsHighHalf`) | accesses register plus offset (README.md:87-93) | high |
| src/opcodes.cpp:436-437 | the bounds check of arithmetic sees 64 bits of the constant; what it accepts is in bounds only below 2^64 or from 2^128 - 2048 on (`Encodings.OperandsDecode`) | `add` of 2^64 + 5 adds 5 (`Encodings.AddDropsHighHalf`) | an immediate out of bounds is rejected (src/opcodes.cpp:437) | high |
| src/opcodes.cpp:446-448 | the register form of the 64-bit opcodes gets the opcode for immediates; right only for the other two widths (`Encodings.RegisterFormExact`) | `addd r, r2` (`Encodings.WideRegisterForm`) | operation on registers, with `d` at 64 bits (README.md:128-131) | high |
| src/opcodes.cpp:371-376 | a constant displacement of `jal` is cut without a check; exact only for even ones of 20 bits (`Encodings.OperandsDecode`) | `jal` by 2^19 (`Encodings.JalWraps`) | the bounds check that labels get (src/opcodes.cpp:10-19) | medium |
| src/opcodes.cpp:596-599 | the number of `syscall` is cut to 12 bits without a check (`Encodings.OperandsDecode`) | `syscall 2048` (`Encodings.SyscallWraps`) | puts the constant into A7 (README.md:102-103) | high |
| src/opcodes.cpp:628-637 | `system` reads two chains of constants, and the first takes all constants there are: it is never accepted (`Syntax.SystemFails`) | `system 0, 1` | an instruction with that function and that immediate (src/opcodes.cpp:630-634) | high |
| src/opcodes.cpp:231-235 | `ldu` always throws (`Syntax.LduFails`) | any `ldu` | loads 64 bits, unsigned (README.md:90) | high |
| src/pseudo_ops.cpp:8-15 | `dq` writes 16 bytes of a 64-bit value (`Encodings.DataExact`) | `dq` of 2^64 writes zeros (`Encodings.DqDropsHighHalf`) | inserts a 128-bit constant (README.md:145-146) | high |
| src/pseudo_ops.cpp:46-79, src/section.cpp:28-31 | the product, and the sum with the size of the buffer, are taken mod 2^64; the buffer grows as asked only if it may be that large (`Encodings.ReserveExact`) | `resq` of 2^60 reserves nothing (`Encodings.ResqReservesNothing`); `resb` of 2^64 - 1 behind one byte takes it away (`Encodings.ResbEmpties`) | reserves the size multiplied by the constant (README.md:147-148) | high |
| src/section.cpp:32-36, src/directive.cpp:8-9 | when size plus alignment minus one wraps around 2^64, the buffer shrinks (`State.AlignGrows`), and the result is that of two passes only without wrap-around (`Equivalence.OnePassIsTwoPass`); a power of two is taken mod 2^64, and right only below 2^64 or for an empty buffer (`State.AlignDirectiveExact`) | `.align` of 2^64, which is `.align 0` (`Equivalence.WrapOverwritesData`, `Pending.AlignZeroLoses`) | aligns memory to the given power of two (README.md:158-159) | high |
| src/assemble.cpp:92-102 | only the first section of a run that is not code starts a page, and only behind a based section of code (`Layout.RealignsExactly`) | code, data, code, data (`Layout.SecondDataNotSeparated`) | a page for every step from executable to non-executable and from read-only to writable (src/assemble.cpp:93-94) | high |
| src/raw_split.cpp:39-48 | an escaped backslash starts another escape: exactly the strings without a backslash can be written (`Scanner.StringsWritable`) | any string with a backslash (`Scanner.NoBackslash`) | two backslashes stand for one (src/raw_split.cpp:17) | high |
| src/raw_split.cpp:93-94 | the last character of the last word is taken for the closing quote (`Scanner.UnclosedLosesLast`); a literal that is never closed is right only if it is empty (`Scanner.UnclosedExact`) | `"ab` at the end of a file reads as `a` (`Scanner.UnclosedLosesLast`) | an error, or the string `ab` | medium |
| src/main.cpp:29-31 | every source on the command line is read from the first argument; one source is right, two are only if they have the same items (`Driver.FirstOfTwo`, `Driver.FirstAgain`) | two different sources: the first is assembled twice (`Driver.Build`) | assembles its sources (src/main.cpp:21) | high |
| src/tokenizer.cpp:57-58 | a negative decimal is extended with zeros above bit 63; exact mod 2^128 only if it is not negative (`Tokenizer.DecimalExact`) | `-1` (`Tokenizer.MinusOne`) | a 128-bit constant like the others (src/tokenizer.cpp:43-49) | medium |

The README's load and store syntax puts the offset behind the register; the handlers take it in front of the register
for loads and behind both registers for stores (src/opcodes.cpp:182-195, 242-256). The model follows the handlers.

## Left out

- Files and the command line: reading and writing files, real paths, the messages on standard output and error, and the
  usage message for no source. Files are finite maps from names to tokens and to bytes.
- Unbounded includes: a file that includes itself makes the program recurse without end; the model rejects nesting
  deeper than a depth that is a parameter, and every theorem holds for every depth.
- Undefined behaviour: division by zero, a shift by 128 or more, `atoi` outside the range of `int`, and a fixup that
  begins inside a buffer and ends outside count as failures.
- The assertion that the configured base is a multiple of 16 (src/assemble.cpp:23): nothing here needs it.
- Opcode, register and pseudo-op names: the lookup tables are one map, a parameter of the tokenizer.
- Error texts and the width of the line counter: an exception is the value `Thrown`, without its message.
- Execution beyond the `Machine` fragment: loads, stores, system calls, shifts by registers, multiplication, and the 32-
  and 64-bit forms are encoded and decoded but not executed.
- Memory limits short of the largest vector, 2^63 - 1 bytes.
- Elf.ElfWriter: the sizes of the headers and the places, sizes and addresses in them are modelled; their constant
  fields, type codes and padding are not, and the header region of the image is zero. Nor is the second write of the
  file, nor what the header pointer refers to once the buffer outgrows its reserved 262144 bytes
  (src/elfwriter.cpp:112-114).
- ELF symbol binding: `.global` is collected, but the writer computes the binding and does not store it
  (src/elfwriter.cpp:158-164); the model stores the type alone, as the code does.
- The raw `.text` image that `main` also writes (src/main.cpp:60-62).
