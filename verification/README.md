# A verified model of the UX compiler and its kernel neighbours

The project models, in Dafny, the parts of the kernel that compute rather than drive hardware, and
proves what they promise.

- **The UX compiler.** `Tokenizer`, `Names`, `Emitter`, `ExprCompiler` and `Compiler` hold the
  program as it runs: loops over the text, an output buffer for every block, bytes appended by one
  encoder per instruction, a frame size patched in at the end. Each method is proved against a
  function of the token list (`ExprCompiler.Expr`, `CompilerSpec.Compile`). `X86` is an encoder and a
  decoder for the instructions that are emitted; `Machine` is a processor for them (eight registers,
  carry and zero flags that may be undefined, byte memory that may be unmapped, signed division that
  may fault). `Source` gives the language its syntax, its spelling as tokens and its meaning.
  `ExprLayout` and `BlockLayout` prove where every byte of a program goes; `ExprRun`, `Frames`,
  `Simulation`, `CallRun` and `CompilerCorrect` prove that running those bytes does what the source
  says, through nested loops, nested conditions and chains of calls; `OperandRun` does so for the
  operands and targets that reach for registers and pointers (`eax`, `@r`, `*x`); `Divergence` proves that a source
  run without end keeps the machine running; `Outcome` takes the bound on rounds out of the meaning and
  joins the two. `CallSpelling` is about calls in the spelling that the
  language's own programs use.
- **The kernel heap.** `HeapBlocks` is first fit, splitting and coalescing on a list of blocks; `Heap`
  is the same with 16-byte headers linked through the memory that is handed out; `HeapRun` proves
  what holds over every run of allocations, frees and client writes. `MemLib`, `Lists` and
  `StringPool` build copying, growable lists and the compiler's string constants on top of it.
- **Lines, BosZ, ROMFS, terminals.** `Lines` draws a line in any octant; `Bosz` compresses and
  decompresses; `Romfs` writes an image and reads it; `Pipes` holds ring buffers, pseudo terminals and
  the terminal's history.

`Sequences`, `Words`, `Ram` and `Wrappers` are shared: sequence algebra, 32-bit arithmetic,
little-endian memory and optional values.

## What the code does that its authors may not expect

- **Division.** `/` and `%` clear EDX and use the signed IDIV. `ExprRun.DivisionCondition` says exactly
  when the quotient is the unsigned one, and exactly when the remainder is; above 2^31 the two conditions
  differ. `ExprRun.DivisionWitnesses` has an input for each failure: 0x80000000 / 1 faults,
  5 / 0xFFFFFFFF is 0xFFFFFFFB, 5 % 0xFFFFFFFE is 1.
- **Call arguments.** After the comma that ends an argument the compiler reads one more token to look
  for `)` and drops it (`BlockLayout.LaterArgumentLosesToken`). In the language's own spelling, where every
  argument just ends in a comma (`Itoa(512, &buf,);`, userdir/test.ux:3), a call is compiled as written if and
  only if it has one argument (`CallSpelling.NaturalCall`). With two numbers the list swallows its own
  parenthesis and text behind the call (`CallSpelling.TwoNumbers`); without the last comma it does so too
  (`CallSpelling.MissingComma`), and so does `f();` (`CallSpelling.EmptyCall`); and `&x` as a second argument passes x instead of its address
  (`CallSpelling.AddressArgument`). A second argument survives only behind an extra token, and the
  programs whose runs are proved here spell calls of several arguments that way.
- **Braces in strings.** The loops that skip the body of a `while` or of a function definition compare the
  text of a token and not its kind, so a string that is a lone brace counts as a brace, in a comment or as an
  operand: the loop `esi "}" ;` ends at its string. The skip ends right, whatever follows, if and only if the
  brace tokens of any kind are balanced (`BlockLayout.SkipExactly`); `BlockLayout.SkipBraced` says where it
  ends otherwise.
- **Locals of growing size overlap.** A local declared after a smaller one shares bytes with it
  (`Frames.NeighboursApart`, both directions; `Frames.GrowingLocalsOverlap` for U8 and then U32).
- **Local arrays grow up through the frame.** The slot of a local is counted from the size of the one before
  it, so an array starts right below the last local. It stays clear of the other variables, of the saved EBP and
  of the return address if and only if it has no more bytes than that local, or four as the first
  (`Frames.ArrayFits`); `U8 buf<12>` (userdir/test.ux:2) ends eight bytes above EBP (`Frames.ArrayCoversFrame`).
- **Nine variables or nine functions.** Their lists ask for eight elements and believe they hold 40 and 48,
  because the length starts at the element size. The block that HeapAlloc gives has between once and twice
  the rounded request (`Lists.GrantedBounds`); an element is written inside it as long as it fits
  (`Lists.GrowableList.InsideExactly`). Lists are safe on every heap if and only if their elements have at most
  8 bytes (`Lists.SafeEverywhere`). On the fresh heap the ninth variable overwrites the header behind the list,
  and the heap is no longer in order (`Lists.NinthVariable`); in a block taken whole there may be room for more
  (`Lists.WholeBlocks`).
- **Splitting wastes the request.** A split takes the rounded request twice from the free block
  (`HeapBlocks.AllocatedSums`, `HeapRun.RunAccounts`; `HeapBlocks.SplitLoses` for 16 bytes); the bytes come back neither by freeing nor by
  coalescing.
- **A pointer at the very end of the heap cannot be freed** (`HeapRun.ConsideredExactly`). Only requests
  that round to nothing can lead there (`HeapRun.RunConsidered`): size 0, or sizes above 2^32 - 16, whose
  rounding wraps (`HeapBlocks.RoundedCovers`). They do lead there: a request of no size takes 16 bytes off
  the free block (`HeapRun.RunShrinks`), and the pointer that follows SIZE / 16 of them is ignored by
  HeapFreePtr (`HeapRun.RunLosesPointer`; the allocator makes that run in `HeapRun.LosePointer`).
- **Far lines come back.** The pixel routine cuts coordinates to 16 bits. A line is painted exactly if and only
  if none of its points is cut onto a pixel that is not its own (`Lines.ExactIf`). That is so for every line
  between points with -64896 <= x <= 65535 and -65056 <= y <= 65535 (`Lines.BoxedLine`), and fails for lines
  of one point just outside each of these four bounds (`Lines.BoxIsLargest`).
- **BosZ loses bytes.** A chunk of 253 bytes whose last byte stands alone behind a run, or alone
  altogether, comes back one byte shorter (`Bosz.LosslessExactly`, both directions; `Bosz.LossWitnesses` for
  a file of one byte).
- **The minus of a literal is lost.** The tokenizer reads `-5` as one number, and its value is 5
  (`Names.MinusIsSkipped`); the value is the negative one only for 0 and 2^31 (`Names.MinusMatters`). A literal
  means the value of its text here as well.
- **A string that names a register is that register.** The operand `"eax"` is compiled like `eax`
  (`ExprLayout.RegisterString`), because the kind of the token is looked at second; behind an operator the
  strings "@", "&" and "*" are taken for marks. A string is read as its address if and only if it is none of
  these (`ExprLayout.StringOperand`), and such strings alone are operands of `Source`.
- **A load through EBP without displacement** is emitted with two bytes and read by the processor as an
  absolute load of six (`X86.LoadIndEbpIsMisread`).

## Model

| member | source | states |
|---|---|---|
| Tokenizer.TokenNext | kernel/lang/Tokenizer.c:4-73 | the scanning loop returns exactly the first token and its length, for every text |
| Tokenizer.First | kernel/lang/Tokenizer.c:4-73 | a token never reaches past the end of the text, and takes no characters exactly at the end |
| Tokenizer.NextTok | kernel/include/lang/Compiler.h:6 | the do-while skips empty tokens and stops with length 0 only at the end |
| Tokenizer.LexSpellAll | kernel/lang/Tokenizer.c:4-73 | printing any list of words, numbers, specials and escaped strings with spaces between them and reading it back gives the same list |
| Tokenizer.LexSpellWith | kernel/lang/Tokenizer.c:4-73 | the same with any blanks, or none, between the tokens, wherever words, numbers and special characters may touch |
| Tokenizer.LexKeeps | kernel/lang/Tokenizer.c:4-73 | for every text without strings: the texts of its tokens, one behind the other, are the text without ' ', '\n', '\r' and '\t' |
| Tokenizer.Pairs | kernel/lang/Tokenizer.c:41-48 | two characters are one token exactly when an `=` follows them and the second is one of `!`, `=`, `<` and `>` |
| Tokenizer.LongString | kernel/lang/Tokenizer.c:14-40 | a string is cut behind 31 characters |
| Names.StrCmp | kernel/lib/strings/String.c:112-124 | zero exactly for equal strings |
| Names.AtoiLoop | kernel/lib/strings/String.c:79-110 | the loop computes the accumulated value, in 32 bits, of decimal and hexadecimal literals |
| Names.Digits | kernel/lib/strings/String.c:79-110 | the sixteen digits, in both cases |
| Names.AtoiNumeral | kernel/lib/strings/String.c:79-110 | that value is the numeral's positional value modulo 2^32 |
| Names.MinusIsSkipped | kernel/lib/strings/String.c:86-92 | a minus in front of decimal digits does not change the value |
| Names.MinusMatters | kernel/lib/strings/String.c:86-92 | that is the negated value exactly for 0 and 2^31; -5 is 5 |
| Names.FindVarLoop | kernel/lang/CompilerA.c:88-97 | the first variable of the name, or none |
| Names.FindVarFirst | kernel/lang/CompilerA.c:88-97 | no variable before the one found has the name |
| Names.TypeNames | kernel/lang/CompilerA.c:98-114 | U0, U8, U16 and U32 are types and U64 and I32 are not; the number is cut to eight bits first, so U264 is U8 |
| X86.DecodeEncode | kernel/lang/CompilerC.c:145-261 | an emitted instruction followed by anything decodes to itself and its own length |
| X86.DecodeEncodeAll | kernel/lang/CompilerC.c:145-261 | decoding the concatenation of any emitted instructions gives back that sequence: prefixes, SIB bytes, displacements and immediates included |
| X86.LoadIndEbpIsMisread | kernel/lang/CompilerC.c:192-201 | the exception: the two bytes of a load through EBP without displacement are read, with the four bytes behind them, as an absolute load |
| X86.ImmediateOpcodes | kernel/lang/CompilerC.c:145-261 | the bytes of the instructions with an immediate operand, low byte first |
| X86.JumpOpcodes | kernel/lang/CompilerC.c:145-261 | the bytes of the jumps |
| X86.StoreOpcodes | kernel/lang/CompilerC.c:154-171 | the bytes of the sized stores, for every register and base |
| X86.LoadOpcodes | kernel/lang/CompilerC.c:172-201 | the bytes of the sized loads, for every register and base |
| Emitter.CodeBuffer.Make32 | kernel/lang/CompilerC.c:4-27 | appends prefix, opcode and exactly the parts that the use bits name |
| Emitter.CodeBuffer.MovReg2Disp32 | kernel/lang/CompilerC.c:154-171 | appends the encoded sized store, and nothing for a size that does not exist |
| Emitter.CodeBuffer.MovDisp2Reg32 | kernel/lang/CompilerC.c:172-191 | appends the encoded sized load, behind a clearing XOR when it is narrow |
| Emitter.CodeBuffer.JeImm32 | kernel/lang/CompilerC.c:231-238 | appends the encoded conditional jump with the wrapped offset |
| Emitter.CodeBuffer.JmpImm32 | kernel/lang/CompilerC.c:239-245 | appends the encoded jump with the wrapped offset |
| ExprCompiler.CompilerExpr | kernel/lang/CompilerB.c:5-177 | the three-state loop appends what the token-level specification says for every text, and returns exactly the characters up to and including the terminator, or 0 after a bad register |
| ExprLayout.ExprEmits | kernel/lang/CompilerB.c:14-176 | for an operand and operator list of any length: exactly its tokens and the terminator are read, and exactly its instructions are emitted |
| ExprLayout.StringOperand | kernel/lang/CompilerB.c:17-108 | in first place and behind operators: exactly which strings are read as the address of their copy |
| ExprLayout.RegisterString | kernel/lang/CompilerB.c:17-108 | "eax" is read as a register |
| ExprRun.ExprComputes | kernel/lang/CompilerB.c:110-163 | running them leaves the left fold of the 32-bit operations in EBX and changes no memory and no register but EAX, EBX, ECX, EDX and flags |
| ExprRun.DivisionCondition | kernel/lang/CompilerB.c:120-133 | for all operands: exactly when the division code gives the unsigned quotient, and exactly when it gives the unsigned remainder |
| ExprRun.PositiveDivisor | kernel/lang/CompilerB.c:120-133 | for a divisor below 2^31: the unsigned quotient and remainder, or a fault when the quotient reaches 2^31 |
| ExprRun.NegativeDivisor | kernel/lang/CompilerB.c:120-133 | for a divisor from 2^31 on: the negated quotient and the remainder by its two's complement, or a fault |
| ExprRun.DivisionWitnesses | kernel/lang/CompilerB.c:120-133 | inputs that fault, that get a wrong quotient, that get a wrong remainder, and that get only the quotient wrong |
| OperandRun.ByteOperand | kernel/lang/CompilerB.c:39-44 | `*x` in first place: wherever its code stands, EBX becomes the byte that x points to, and memory and all registers from ESP on stay |
| OperandRun.WordOperand | kernel/lang/CompilerB.c:23-31 | `@r` in first place: EBX becomes the word that r points to, for every register but EBP |
| OperandRun.RegisterOperand | kernel/lang/CompilerB.c:54-56 | each of the eight registers in first place: EBX becomes its value |
| OperandRun.TermComputes | kernel/lang/CompilerB.c:69-163 | an operator and a register, `@r`, `*x`, `*r` or `&x` of no variable behind it: EBX becomes EBX op operand, and the rest is compiled behind it |
| OperandRun.BadOperands | kernel/lang/CompilerB.c:23-44 | `@` in front of anything but a register gives the expression up; a first `*` in front of anything but a variable follows a null pointer |
| OperandRun.StrayTarget | kernel/lang/CompilerB.c:88-96 | a later `*n` of neither a variable nor a register emits 8B FF |
| Compiler.UxCompiler.Compiler | kernel/lang/CompilerA.c:145-473 | for every text, variables and functions: bytes, function table and error are what the specification says, the caller's buffer is back in place and unchanged |
| Compiler.UxCompiler.Statement | kernel/lang/CompilerA.c:168-454 | one round of the loop does one step of the specification: bytes, position in the text, brace depth, variables, functions |
| CompilerSpec.OtherWords | kernel/lang/CompilerA.c:174-452 | a token that is no keyword: a variable of that name comes first, then registers, `;` and `*`, then functions; anything else is an error |
| CompilerSpec.BadDeclarations | kernel/lang/CompilerA.c:208-256 | a second variable of the name, a ninth one, and any other mark behind the name are errors |
| Compiler.OddParameters | kernel/lang/CompilerA.c:258-281 | a parameter of type U0 is an error; one whose type is no type has 255 bits |
| Compiler.UxCompiler.StorePart | kernel/lang/CompilerA.c:401-409 | `*x e`: x is looked up, e evaluated, and its low byte stored through x; without a variable x a null pointer is followed |
| OperandRun.RegisterAssigned | kernel/lang/CompilerA.c:391-398 | `r e ;` for every register r and every kind of first operand: the emitted bytes leave the value of e in r and change no memory and no other register from ESP on |
| OperandRun.ServedAssigned | kernel/lang/CompilerA.c:391-398 | the same for every expression that has a value in the source language |
| OperandRun.ByteAssigned | kernel/lang/CompilerA.c:401-409 | `*x e ;` for every kind of first operand: exactly one byte of memory changes, the one x points to, to the value of e modulo 256 |
| OperandRun.ServedByte | kernel/lang/CompilerA.c:401-409 | the same for every expression that has a value in the source language |
| Compiler.UxCompiler.ArrayPart | kernel/lang/CompilerA.c:233-245 | a local array adds its variable and emits nothing |
| Compiler.ArrayDeclared | kernel/lang/CompilerA.c:233-245 | `name < n >`: the variable has n elements' bits, in 32 bits, and takes the next place in the frame |
| Compiler.UxCompiler.IfPart | kernel/lang/CompilerA.c:301-313 | the condition, and a jump over as many bytes as the throwaway compilation has without its frame |
| Compiler.UxCompiler.WhilePart | kernel/lang/CompilerA.c:336-375 | the condition, the test, the block copied from its own buffer without frame, and the jump back; the text is read to the matching brace |
| Compiler.UxCompiler.CallPart | kernel/lang/CompilerA.c:410-441 | arguments, call and stack correction; a token that is no parenthesis is given back |
| Compiler.UxCompiler.ArgumentLoop | kernel/lang/CompilerA.c:414-431 | the argument loop, with its end at `)`, at the end of the text and after a bad register |
| Compiler.UxCompiler.ParameterLoop | kernel/lang/CompilerA.c:258-281 | the parameter loop, with its errors |
| Compiler.UxCompiler.DefinePart | kernel/lang/CompilerA.c:246-299 | a function is compiled from its body's first token, entered into the table and skipped |
| Compiler.SkipLoop | kernel/lang/CompilerA.c:355-368 | stops behind the matching brace, or at the end of the text |
| Compiler.Unread | kernel/lang/CompilerA.c:433-436 | going back by the length of the last piece makes the text read the same again |
| Compiler.PatchedFrame | kernel/lang/CompilerA.c:461-470 | overwriting the placeholder yields the prologue of the right size and leaves every other byte |
| BlockLayout.BlockEmits | kernel/lang/CompilerA.c:168-454 | for every block, at every brace depth its conditions allow: the compiler emits exactly the block's code, which depends neither on its position nor on what follows, and comes out with the declared variables |
| BlockLayout.MeasureAgrees | kernel/lang/CompilerA.c:301-313 | the measuring compilation and the inline one emit the same bytes: the skip covers the block exactly, nested blocks and declarations included |
| BlockLayout.IfEmits | kernel/lang/CompilerA.c:301-313 | layout of `if` |
| BlockLayout.WhileEmits | kernel/lang/CompilerA.c:336-375 | layout of `while`: the copied block and both jump offsets |
| BlockLayout.SkipExactly | kernel/lang/CompilerA.c:285-297 | for every token list: the skip behind a braced block ends right, whatever follows, if and only if the brace tokens of any kind are balanced |
| BlockLayout.SkipBraced | kernel/lang/CompilerA.c:355-368 | for every token list: where the skip ends, right, too early or too late |
| BlockLayout.BraceWitnesses | kernel/lang/CompilerA.c:355-368 | a lone brace as an operand or a comment breaks the balance; two that match restore it |
| BlockLayout.ToksBalanced | kernel/lang/CompilerA.c:355-368 | the tokens of every block without brace strings are balanced |
| BlockLayout.CommentInLoop | kernel/lang/CompilerA.c:355-368 | a block that is one comment: where the skip ends for each comment text |
| BlockLayout.LaterArgumentLosesToken | kernel/lang/CompilerA.c:414-431 | the token behind an argument's terminator is dropped, whatever it is |
| CallSpelling.NaturalCall | kernel/lang/CompilerA.c:414-431 | for every list of served arguments in natural spelling, the empty one included: the call passes exactly them and the text goes on behind it if and only if there is one argument |
| CallSpelling.ArgumentsPrice | kernel/lang/CompilerA.c:414-431 | for every token list: an argument list that ends at its own parenthesis has a token for every operand and operator it emits, and one more for every further argument |
| CallSpelling.ArgumentsConsume | kernel/lang/CompilerA.c:414-431 | every argument takes at least one token behind its terminator |
| CallSpelling.TwoNumbers | kernel/lang/CompilerA.c:414-431 | `f(1, 2,);` never ends at its parenthesis: whenever the list ends, text behind the call is gone |
| CallSpelling.MissingComma | kernel/lang/CompilerA.c:414-431 | `f(1);` without the comma: the same |
| CallSpelling.EmptyCall | kernel/lang/CompilerA.c:414-431 | `f();` with empty parentheses, before any text: the same |
| CallSpelling.AddressArgument | kernel/lang/CompilerA.c:414-431 | `f(e, &x,);` passes the value of x |
| BlockLayout.DefEmits | kernel/lang/CompilerA.c:246-299 | a definition, introduced by any of the type words, emits nothing and adds its name, address and code to the table |
| BlockLayout.UnitEmits | kernel/lang/CompilerA.c:145-473 | a text of definitions and a main block compiles to the frame around the main block's code, and to the full table |
| Frames.SlotsApart | kernel/lang/CompilerA.c:224-231 | all locals and parameters of a frame are pairwise disjoint |
| Frames.LocalInside | kernel/lang/CompilerA.c:470 | every local lies strictly between the patched ESP and EBP |
| Frames.NeighboursApart | kernel/lang/CompilerA.c:224 | two neighbouring locals are disjoint if and only if the later one is not larger |
| Frames.GrowingLocalsOverlap | kernel/lang/CompilerA.c:224 | U8 and then U32: the second covers the first |
| Frames.ArrayFits | kernel/lang/CompilerA.c:239 | a local array lies below EBP and apart from every other variable if and only if it has no more bytes than the local before it, or than four when it is the first |
| Frames.PutMirrors | kernel/lang/CompilerA.c:385-390 | storing to a variable sets it, cut to its size, and no other, nor the saved words |
| Simulation.TestLands | kernel/lang/CompilerA.c:346-347 | the test falls into the block or lands exactly behind the skipped bytes |
| Simulation.BackLands | kernel/lang/CompilerA.c:370 | the closing jump lands exactly on the first byte of the condition |
| Simulation.ArgsReach | kernel/lang/CompilerA.c:414-431 | arguments are evaluated from left to right onto the stack, the last one lowest, with all variables intact |
| CallRun.ParamsMirror | kernel/lang/CompilerA.c:258-281 | parameter i of the callee reads argument k + 1 - i, cut to its size |
| CallRun.EnterReaches | kernel/lang/CompilerA.c:163-167 | the prologue sets up the frame and saves EBP |
| CallRun.LeaveReaches | kernel/lang/CompilerA.c:456-458 | the epilogue restores ESP and EBP and returns |
| CompilerCorrect.SimBlock | kernel/lang/CompilerA.c:168-454 | for every block, placed anywhere: when its source run ends, the machine reaches the end of its code with every variable, ESI and EDI as the source says, ESP and EBP in place and everything above the frame untouched |
| CompilerCorrect.SimWhile | kernel/lang/CompilerA.c:336-375 | the same for loops of any number of rounds |
| CompilerCorrect.SimFn | kernel/lang/CompilerA.c:410-441 | a called function comes back with ESP and EBP restored and nothing above the arguments changed, over every chain of calls |
| CompilerCorrect.CompiledRuns | kernel/lang/CompilerA.c:145-473 | from the text to the run: whatever is compiled and put in memory returns to its caller with ESI and EDI as the source says and ESP, EBP and memory as they were |
| CompilerCorrect.SpelledText | kernel/lang/Tokenizer.c:4-73 | every program whose tokens can be printed has a text that reads back as it |
| Divergence.LastsBlock | kernel/lang/CompilerA.c:168-454 | a block whose source run has not ended after n rounds keeps the machine running, without a fault, for at least n steps |
| Divergence.CompiledRunsOn | kernel/lang/CompilerA.c:145-473 | from the text to the run: a program that never ends never stops the machine |
| Outcome.OneOutcome | kernel/lang/CompilerA.c:145-473 | a text has exactly one outcome: it ends in one state, or has no meaning, or runs for ever |
| Outcome.CompiledText | kernel/lang/CompilerA.c:145-473 | the compiled text in memory returns to its caller with the state in which the source ends, and never stops if the source runs for ever |
| HeapBlocks.RoundedCovers | kernel/kernel/IO/KMem.c:33 | the rounded size covers the request if and only if it is at most 2^32 - 16 |
| HeapBlocks.AllocatedShape | kernel/kernel/IO/KMem.c:35-55 | allocation keeps the list sorted, aligned, disjoint, inside the heap and without free neighbours |
| HeapBlocks.AllocatedSums | kernel/kernel/IO/KMem.c:35-55 | exactly one block more is in use; HeapUsed grows by its size; the total drops by the rounded request exactly on a split |
| HeapBlocks.SplitLoses | kernel/kernel/IO/KMem.c:35-55 | 16 bytes from the fresh heap lose another 16 |
| HeapBlocks.AllocatedIs | kernel/kernel/IO/KMem.c:31-62 | the list after an allocation in numbers: the first free block of n = (size + 15) / 16 * 16 bytes, split when it has 2 n + 16 |
| HeapBlocks.CoalescedShape | kernel/kernel/IO/KMem.c:82-90 | coalescing removes all free neighbours, keeps the blocks in use and the total |
| HeapBlocks.FreedShape | kernel/kernel/IO/KMem.c:71-90 | freeing takes exactly one block out of use and keeps shape and total |
| HeapBlocks.FreedIs | kernel/kernel/IO/KMem.c:71-90 | the list after a free, exactly: the block and its free neighbours are one, 16 bytes larger for each, and every other block is as before |
| HeapBlocks.WeightBound | kernel/kernel/IO/KMem.c:50 | headers and payloads fit the heap, so no 32-bit sum wraps |
| Heap.KernelHeap.constructor | kernel/kernel/IO/KMem.c:12-18 | one free block of the whole heap size, linked in memory |
| Heap.KernelHeap.HeapSanityCheck | kernel/kernel/IO/KMem.c:20-29 | the list walk ends and never panics |
| Heap.KernelHeap.HeapAlloc | kernel/kernel/IO/KMem.c:31-62 | the walk takes the first block that fits; memory outside headers is unchanged; nothing changes when none fits |
| Heap.KernelHeap.Take | kernel/kernel/IO/KMem.c:36-50 | the header writes of a split leave exactly the new list in memory |
| Heap.KernelHeap.Coalesce | kernel/kernel/IO/KMem.c:78-90 | the loop leaves exactly the coalesced list in memory |
| Heap.KernelHeap.HeapFreePtr | kernel/kernel/IO/KMem.c:64-97 | frees a block in use; otherwise nothing changes |
| HeapRun.AllocGives | kernel/kernel/IO/KMem.c:31-62 | 0 if and only if no free block is big enough; otherwise an aligned block, large enough, inside the heap and apart from every block in use |
| HeapRun.StepPayload | kernel/kernel/IO/KMem.c:31-97 | neither allocation nor freeing changes a byte of a block in use |
| HeapRun.RunInv | kernel/kernel/IO/KMem.c:12-97 | over every run of allocations, frees and client writes the heap stays in order |
| HeapRun.RunPayload | kernel/kernel/IO/KMem.c:31-97 | over every run, until it is freed or written to, every byte of a block stays |
| HeapRun.RunDisjoint | kernel/kernel/IO/KMem.c:31-62 | over every run, any two blocks in use are disjoint |
| HeapRun.RunAccounts | kernel/kernel/IO/KMem.c:50-90 | over every run, HeapUsed is the sum of the blocks in use, and the total plus the splits' losses is the heap |
| HeapRun.RunConsidered | kernel/kernel/IO/KMem.c:64-66 | every pointer handed out can be freed, as long as no request rounds to nothing |
| HeapRun.ConsideredExactly | kernel/kernel/IO/KMem.c:66 | of all blocks that fit the heap only one at its very end is ignored by HeapFreePtr |
| HeapRun.RunShrinks | kernel/kernel/IO/KMem.c:31-62 | k requests of no size, for every k up to SIZE / 16, leave k empty blocks and one free block of 16 k bytes less |
| HeapRun.RunLosesPointer | kernel/kernel/IO/KMem.c:31-66 | the next pointer lies behind the range that HeapFreePtr looks at, and freeing it changes nothing |
| HeapRun.LosePointer | kernel/kernel/IO/KMem.c:12-62 | the allocator makes that run, on every memory |
| MemLib.MReAlloc | kernel/lib/memory/MemLib.c:11-20 | a new block with the old bytes in front, the old block gone, all other blocks untouched |
| MemLib.MCAlloc | kernel/lib/memory/MemLib.c:21-25 | a new block of zeros, all other blocks untouched |
| MemLib.MemCpy | kernel/lib/memory/MemLib.c:27-35 | copies between places that do not overlap and changes nothing else |
| Lists.GrantedBounds | kernel/kernel/IO/KMem.c:35-55 | the block for a request has at least the rounded size and at most twice as much |
| Lists.SafeEverywhere | kernel/lib/memory/Collects.c:3-20 | of all element sizes that a heap can serve, the ones whose lists stay in their first block on every heap are those up to 8 bytes |
| Lists.FreshUnsafe | kernel/lib/memory/Collects.c:3-20 | all larger ones outgrow it on the fresh heap |
| Lists.WholeBlocks | kernel/kernel/IO/KMem.c:39-50 | a block taken whole holds ten elements of 40 bytes, another all 16 of 16 bytes |
| Lists.NinthVariable | kernel/lib/memory/Collects.c:11-20 | on the fresh heap the ninth element of 40 bytes leaves a heap that is no longer linked |
| Lists.GrowableList.constructor | kernel/lib/memory/Collects.c:3-10 | for every element size: an empty list that owns exactly the block that HeapAlloc gives |
| Lists.GrowableList.InsideExactly | kernel/lib/memory/Collects.c:11-20 | an append before the first regrowth writes inside the list's block if and only if the elements with the new one fit it |
| Lists.GrowableList.InsideAlways | kernel/lib/memory/Collects.c:11-20 | it always does for elements up to 8 bytes, and for all from the first regrowth on |
| Lists.GrowableList.ListAppend | kernel/lib/memory/Collects.c:11-20 | an element that stays inside: the contents grow by it, across regrowth, fewer than 2n elements are moved in n appends, and all other blocks are untouched; one that does not: its bytes stand over what lay behind the block |
| Lists.GrowableList.Undisturbed | kernel/lib/memory/Collects.c:11-20 | a list whose block is left alone stays the same list, whatever else happens to the heap |
| StringPool.StringPool.Add | kernel/lang/CompilerA.c:132-143 | a known text gives its pointer and changes nothing; a new one is copied; pointers handed out before stay good |
| StringPool.PoolInterns | kernel/lang/CompilerA.c:132-143 | over every sequence of calls, with any other heap activity in between: two calls return the same pointer if and only if their texts are equal |
| StringPool.StringPool.Undisturbed | kernel/lang/CompilerA.c:132-143 | such activity, as long as it leaves the pool's blocks alone, is a step of these sequences |
| StringPool.PointersTellTexts | kernel/lang/CompilerA.c:132-143 | at any time, pointers in the pool are equal if and only if their texts are |
| Lines.Screen.PSet | kernel/lib/graphics/Graphics.c:45-48 | for all coordinates: byte i of the frame buffer changes exactly if x and y, cut to 16 bits, are i % 640 and i / 640 |
| Lines.Screen.DrawLine | kernel/lib/graphics/Graphics.c:62-79 | the loop ends, without 32-bit overflow, after max(dx, dy) + 1 plots that form the line from start to end; byte i changes exactly if some point of it, cut to 16 bits, is (i % 640, i / 640) |
| Lines.ExactIf | kernel/lib/graphics/Graphics.c:45-79 | for every path: the screen shows exactly its points if and only if none is cut onto another pixel |
| Lines.BoxedLine | kernel/lib/graphics/Graphics.c:45-79 | every line between end points in the box is painted exactly |
| Lines.PointLine | kernel/lib/graphics/Graphics.c:45-79 | a line of one point is painted exactly if and only if the point is not cut onto the screen from outside |
| Lines.BoxIsLargest | kernel/lib/graphics/Graphics.c:45-79 | just outside each side of the box there are lines that are not |
| Lines.FarLineOverflows | kernel/lib/graphics/Graphics.c:63-75 | a line of 2^30 pixels to the right leaves 32 bits in its first round |
| Lines.StepKeepsNear | kernel/lib/graphics/Graphics.c:75-77 | the two tests choose, in all octants, the nearest pixel of the next column or row |
| Lines.HalfStep | kernel/lib/graphics/Graphics.c:75-77 | no pixel is further than half a step from the ideal line |
| Lines.LineUnique | kernel/lib/graphics/Graphics.c:62-79 | there is exactly one such line |
| Lines.Ties | kernel/lib/graphics/Graphics.c:75-77 | where the ideal line passes half-way between two pixels: a line of 2 by 1 goes straight first and then diagonally, to the right or, turned, downwards |
| Bosz.CompressChunk | non-kernel files/bosz.c:42-89 | the loop writes the chunk's tokens; the raw buffer never overflows and is never full inside the loop |
| Bosz.RunFront | non-kernel files/bosz.c:42-89 | a run at the front of a chunk is its length and its byte, and the rest is coded on its own |
| Bosz.RawFront | non-kernel files/bosz.c:42-89 | changing bytes in front of a run are FF, their number and themselves |
| Bosz.RawAlone | non-kernel files/bosz.c:78-89 | the same for two or more changing bytes that end the chunk |
| Bosz.Compress | non-kernel files/bosz.c:25-97 | magic byte, the chunks' tokens, two zeros |
| Bosz.Chunked | non-kernel files/bosz.c:36-91 | the 254th byte starts a new chunk: its code is that of the rest of the file |
| Bosz.DeCompress | non-kernel files/bosz.c:99-134 | decodes every file, or says what is wrong with it |
| Bosz.OddFiles | non-kernel files/bosz.c:99-134 | files without the byte 8D, cut files, runs of up to 254, and more raw bytes than 253 |
| Bosz.RoundTrip | non-kernel files/bosz.c:25-134 | decompressing a compressed file gives back its chunks, each whole or without its last byte; no token looks like the terminator |
| Bosz.LosslessExactly | non-kernel files/bosz.c:78-89 | the file comes back whole if and only if none of its chunks ends with a byte that stands alone |
| Bosz.LossWitnesses | non-kernel files/bosz.c:78-89 | a file of one byte comes back empty |
| Bosz.ChunkSize | non-kernel files/bosz.c:36-91 | three times a chunk's code is at most five times the chunk plus two |
| Bosz.FileSize | non-kernel files/bosz.c:25-97 | the size bound for whole files |
| Romfs.WriteImage | non-kernel files/mkbosyrom:9-24 | header, count and the nodes of all files |
| Romfs.ImageHeader | non-kernel files/mkbosyrom:9-24 | the bytes of the header: `-romfs-` and the count, low byte first; the nodes end the image |
| Romfs.ImageNode | non-kernel files/mkbosyrom:9-24 | the bytes of every node at its place: the name with zeros up to 20, the size, low byte first, and the data |
| Romfs.FindNode | kernel/fs/romfs.c:10-19 | the node walk stops at the first file of the name, or behind the last |
| Romfs.ReadV | kernel/fs/romfs.c:7-21 | on a written image: the clipped part of the named file for every offset and count, nothing for an unknown name |
| Romfs.StatV | kernel/fs/romfs.c:25-39 | index and size of the named file, nothing for an unknown name |
| Romfs.LookupFinds | kernel/fs/romfs.c:8-11 | with distinct names every file is found under its own name, slashes in front or not |
| Romfs.PiecesReassemble | kernel/fs/romfs.c:12-15 | reads of any sizes one after the other give the file as far as they reach |
| Pipes.WindowPush | kernel/lib/memory/Collects.c:55-63 | writing at the head appends to the ring's contents |
| Pipes.WindowPop | kernel/lib/memory/Collects.c:64-72 | moving the tail drops the first element |
| Pipes.Fifo.Write | kernel/lib/memory/Collects.c:55-63 | accepted exactly when there is room; what was handed out and what waits make up what was accepted |
| Pipes.Fifo.Read | kernel/lib/memory/Collects.c:64-72 | hands out the oldest element, if there is one |
| Pipes.Pty.Write | kernel/drivers/tty/pty/pty.c:4-24 | accepts as many bytes as there is room for and returns their number; descriptor 0 changes only `input`, 1 only `output`, 2 only `error`, and what the other two hold is as before: one step of the interleaving |
| Pipes.Pty.Read | kernel/drivers/tty/pty/pty.c:25-45 | hands out as many bytes as are waiting, in order, from the one of the three rings that the descriptor names, and leaves the other two alone: one step of the interleaving |
| Pipes.Echo | kernel/drivers/tty/pty/pty.c:4-45 | on a fresh terminal, what is written to descriptor 1 is read from 1 and not from 0 |
| Pipes.ReadIsPrefix | kernel/drivers/tty/pty/pty.c:4-45 | over every interleaving of writes and reads, what has been read is what was accepted first, and the rest waits in order |
| Pipes.Tty.Write | kernel/drivers/tty/tty.c:114-126 | the history holds the last 2048 bytes ever written, whether the ring took them or not; only the ring of the descriptor changes |
| Pipes.LastSnoc | kernel/drivers/tty/tty.c:117-124 | a full window gives up its oldest byte for a new one |

## Left out

- CompilerCorrect.SimBlock: a source run that divides where `ExprRun.DivisionCondition` says the code is wrong, or reads a variable before it has a value, has no meaning here and is not compared with the machine.
- CompilerCorrect.CompiledRuns: does not cover `*x` as an operand or a target, `@` operands, operands in registers other than ESI and EDI, local arrays, declarations inside a `while` block, definitions behind the first statement, loops and function bodies with unbalanced brace strings, calls of several arguments in natural spelling, and strings that name a register; the compiler methods do compile all of these. What registers and pointers do, one statement at a time, is proved in `OperandRun`.
- ExprLayout.ExprEmits: does not cover `*x` and `@r`, registers other than ESI and EDI, and the strings that `ExprLayout.StringOperand` excludes. `OperandRun` runs the first three; ExprCompiler.CompilerExpr covers every text.
- OperandRun.ByteAssigned: does not cover statements with such operands in several terms at once. One marked operand in first place is followed by served terms; OperandRun.TermComputes takes one later operand at a time. The same holds for OperandRun.RegisterAssigned.
- OperandRun.RegisterAssigned: see ByteAssigned.
- OperandRun.WordOperand: not through EBP, which is misread (`X86.LoadIndEbpIsMisread`).
- BlockLayout.BlockEmits: the same fragment; Compiler.UxCompiler.Compiler covers every text up to the constructs named below.
- BlockLayout.UnitEmits: definitions stand before the first statement.
- CallSpelling.NaturalCall: what follows the call does not start with an operator character; a statement that starts with a mark would be read as part of the last argument.
- CallSpelling.ArgumentsPrice: the same.
- X86.DecodeEncode: NOT, CALL with an immediate, the register-indirect store and the conditional jumps other than below, equal and not equal are not instructions of the model, because the compiler never emits them. The same holds for X86.DecodeEncodeAll.
- Divergence.CompiledRunsOn: the same fragment as CompilerCorrect.CompiledRuns; the same holds for Outcome.CompiledText.
- CompilerCorrect.World: the code bytes and the data memory are apart, as if the compiled code lay outside the stack; that a program overwrites its own code is not part of this model.
- Compiler.UxCompiler.Statement: reports `Uf`, `Dump`, `INT`, `IN`, `OUT` and `include` as unsupported instead of emitting their bytes.
- Compiler.UxCompiler.ArrayPart: reports a frame of 2^31 bytes or more as unsupported, because the code then takes its offsets for negative. The same holds for Compiler.ArrayDeclared.
- Compiler.ArrayDeclared: see ArrayPart.
- Compiler.UxCompiler.IfPart: an error in the block is an error of the whole, where the code goes on with the bytes of a block that was never made. The same holds for WhilePart and DefinePart.
- Compiler.UxCompiler.WhilePart: see IfPart.
- Compiler.UxCompiler.CallPart: see ArgumentLoop.
- Compiler.UxCompiler.ArgumentLoop: reports an argument list that runs into the end of the text as unsupported, because what the code does then depends on trailing white space.
- Compiler.UxCompiler.DefinePart: reports a body that does not start with a special character as unsupported, because the code then resumes inside a word.
- Compiler.UxCompiler.Compiler: an error in a nested block is an error of the whole; the code goes on with an output buffer that is gone. A ninth variable or function and a null variable are errors of the model; what the code does with a ninth one depends on the block its list was given (`Lists.GrowableList.ListAppend`).
- Compiler.UxCompiler.ParameterLoop: reports a ninth parameter, and a list that ends without its parenthesis, as errors.
- Heap.KernelHeap.HeapFreePtr: takes pointers of blocks, and pointers outside the heap; a stray pointer inside it would be read as a header.
- MemLib.MReAlloc: requires that the new block can be allocated; the code copies to address 0 otherwise.
- MemLib.MCAlloc: requires the same, and a size above 0; the code clears from address 0 otherwise.
- MemLib.MemCpy: the two ranges do not overlap. The terminal history, which moves bytes within one array, is modelled by the array itself (Pipes.Tty.Write).
- Lists.GrowableList.constructor: requires a heap with room for eight elements.
- Lists.GrowableList.ListAppend: requires a heap with room for the longer list when it is full, and memory where it writes.
- StringPool.StringPool.Add: requires a heap with room for the copy and for the longer list.
- Lines.Screen.DrawLine: coordinates up to 2^28, for which the 32-bit error term never overflows; `Lines.FarLineOverflows` is a line for which it does.
- Romfs.WriteImage: names are bytes; the script pads by characters, which differs for names outside ASCII.
- Romfs.ReadV: covers names of 1 to 19 bytes without NUL; longer names shift the node. The same holds for Romfs.StatV.
- Romfs.StatV: see ReadV.
- Pipes.Pty.Write: descriptors 0 to 2; any other one uses a pointer that was never set. The rings are arrays here, not heap memory.
- The compiler's variables, functions and output bytes are sequences that its methods extend; that a list in heap memory behaves like one is what `Lists` proves.
- Bosz.DeCompress: files that end early or claim more than 253 raw bytes are reported as errors; the code reads past their end.
- The register-indirect and absolute encoders that the compiler never calls, and the disassembler.
- Hardware access, task switching, the virtual file system tree, the RAM file system, graphics beyond lines, and the kernel's own copy of the decompressor, whose growth depends on the order of evaluation.
- The page and inode bitmaps, byte swaps and decimal printing: nothing hard to say about them.
