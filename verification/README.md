# Verified model of the copy machine and its compilers

The repository is built on one machine. A flat space of bits is divided into rows of three numbers
`(count, destination, source)`; the first 256 rows are the processor, and one tick fetches and executes
them in order, each row copying `count` bits. There is no other operation, so programs are made of layers
of rows that patch the address fields of rows behind them, read truth tables at patched addresses, and end
by copying the next layer over the processor.

This project models that machine and the programs that generate code for it, and proves what they promise.

- `Bits`, `Machine`, `Layers`, `Programs`: bit strings and the numbers in them, the tick, rows that patch
  other rows, layers joined by links, and the simulation theorem: the machine running the image of a program
  does what the program means, one tick per transfer of control.
- `Emission`, `Items`, `Tours`, `Lookups`: the emitter that fills layers and breaks code at layer boundaries, lists of
  generator items with labels, branches and jumps, an account of every visit to one item of a run, table lookups.
- `Arith`, `Compare`, `Multiply`, `Divide`, `Division`, `Shifts`: the code generators of the linker for 32-bit words, in
  terms of what their copies do: addition and subtraction, comparison, the marker loops of multiplication and
  division, and the barrel shifter. `Report`: the return jump of a leaf function and the copies that hand over its result.
- `Bytes`, `BitCopy`, `Reader`, `Writer`, `Rows`, `Vm`: the emulator on bytes: the bit copy on all of its paths,
  the word-at-a-time field reader, the masked field writer, one step with the IN and OUT channels, and the run loop. `Tick` says what
  one whole step does, in positions of the space and bits of the streams.
- `Texts`, `Execution`: the statements of a leaf function, what they mean for registers and flags, and that running
  the items they become is executing the text, labels and branches included. `Meaning`: what each statement does, as arithmetic on words
  and places in the text.
- `CopyEmit`, `Sheets`, `Linker`, `Images`, `Delivery`, `Compiling`, `Leaf`: the program writer and the linker as classes over
  a byte image, the reading of a text, and the path from the bytes of an image through boot, program and report to the bytes on OUT.
- `Schedule`, `Bulk`, `Levels`, `Overtaking`, `Checks`: the level scheduler of the bulk generator, the machine whose
  copies of a tick commit together, when the two agree and when they do not, and the checks made of a schedule.
- `Layering`: the cutting of a block into layers, on the machine and down to the bytes of the image.
- `Prefix`, `Adders`: the prefix adder of the bulk generator against the ripple adder, as lists of gates.
- `Agreement`, `Homes`: one block on both machines, and the bulk machine at bit addresses. `Gates`, `Generate`,
  `GatesInBulk`, `PrefixInBulk`: gates as patched table reads, the generator that emits them, and both adders as blocks
  of copies: the one in layers, the other scheduled and run in bulk.
- `Counting`, `HideTable`, `Macros`, `Pasting`, `Rescan`: hide sets, what rescanning means, bodies whose tokens are joined,
  and the rescanning of macros on linked lists in an arena.

Numbers are unbounded unless a width is written out; 32-bit wrap-around is explicit in the statements. Streams are
bit sequences, and how far the other side of a channel goes along is a parameter of the step.

## Model

| member | source | states |
|---|---|---|
| Layers.OpRun | runtime/gcc/copy_link.c:657-668 | rows that patch the address fields of a later row make that row perform the copy its operation means on the space behind the processor, and nothing else changes there |
| Programs.Simulation | src/space.c:84-106 | for every well-formed program image and every number of program steps, the machine reaches the same data, with exactly as many ticks as control transfers |
| Emission.ItemsGo | runtime/gcc/copy_emit.c:210-246 | running a list of generator items (code, labels, branches, jumps) is running the emitted layers, wherever the layer boundaries fall |
| Items.RunsThen | runtime/gcc/copy_link.c:777-823 | runs of two item lists with separate labels compose to a run of their concatenation, loops and branches included |
| Lookups.LookupExec | runtime/gcc/copy_link.c:657-668 | a lookup copies the table entry selected by its input bits |
| Arith.AdderRun | runtime/gcc/copy_emit.c:123-148 | for every accepted placement, aliasing included, the 193 copies leave left plus or minus right modulo 2^32 and the carry or borrow, as one equation of numbers, and touch only destination, temporary and carry |
| Compare.CompareRun | runtime/gcc/copy_link.c:669-682 | for all words the five flags are equality and the signed and unsigned strict and weak orders |
| Multiply.MultiplyRuns | runtime/gcc/copy_link.c:727-751 | for all words: the run of the whole list stands at the loop head exactly 32 times and never else, each time with accumulator + left * right congruent to the product, and ends with the product modulo 2^32 in the destination |
| Division.DivideRuns | runtime/gcc/copy_link.c:771-828 | for all words, signed or not, quotient or remainder: the run of the whole list stands at the loop head exactly 32 times, each time with the restoring-division balance, and ends with the truncating result; everything outside the scratch words and the destination is unchanged, comparison flags included |
| Division.TruncLaw | runtime/gcc/copy_link.c:771-828 | the specified quotient and remainder satisfy q*d + r = n with r smaller than d and of the sign of n |
| Division.QuotientWraps | runtime/gcc/copy_link.c:771-828 | the most negative word divided by minus one is itself, with remainder 0 |
| Shifts.ShiftRuns | runtime/gcc/copy_link.c:829-854 | for all words and counts the five stages shift by the low five bits of the count, left, right or right with the sign, in place and using only the scratch words |
| Report.ReportRuns | runtime/gcc/copy_link.c:1303-1304 | after the return jump the output holds four bytes, byte k being the result divided by 2^(8k), modulo 256, and nothing else has changed |
| Report.AnswerSpells | runtime/gcc/copy_link.c:1303-1304 | bit by bit, the bits sent for a number are those of its four bytes, lowest byte first, each with its top bit first |
| BitCopy.Bitcpy | src/bitcopy.c:42-156 | every path is a copy that reads all bits before writing any, for all lengths and positions, overlapping or sharing bytes |
| BitCopy.CopyBitwise | src/bitcopy.c:27-40 | the fallback picks the direction that never overwrites a bit still to be read |
| Reader.ReverseBits | src/space.c:41-46 | three exchanges turn each byte of a word around |
| Reader.GetArgument | src/space.c:48-67 | the word-at-a-time reader and its slow path both read the field lowest bit first |
| Writer.WriteField | runtime/gcc/copy_emit.c:28-44 | the masked byte-wise writer changes exactly the field and puts the value's bits there, lowest first |
| Rows.RoundTrip | runtime/gcc/copy_emit.c:79-88 | a row that is written is read back unchanged, all other bits of the space untouched |
| Vm.Emulator.Computation | src/space.c:84-106 | the rows are executed in slot order, each fetched when reached; a row out of range stops the step |
| Vm.Emulator.Channel | src/space.c:109-136 | one channel of the step: bytes go over and the status is written, as far as Vm.ServedOut and Vm.ServedIn say |
| Vm.ServedOut | src/space.c:109-136 | OUT sends the bits of the space that it is pointed at, as far as they are taken, if they are whole bytes inside the space and not too many, and otherwise none; the row's source field then holds twice their number, plus one exactly if fewer went than were asked for; nothing else changes |
| Vm.ServedIn | src/space.c:109-136 | IN fetches bits of the stream into the space under the same conditions, as far as there are any; plus one exactly if the row is refused, or fewer came and the other side is broken; nothing else changes |
| Vm.Emulator.Step | src/space.c:157-163 | idle, or both channels (rows fetched before either, OUT first) and then the copies |
| Tick.StepMeans | src/space.c:138-163 | one whole step without the machine's own terms: idle exactly if all 256 counts are zero; otherwise OUT by the row of slot 2, then IN by the row that slot 1 held in front of the step as after OUT, then the slots in order; done exactly if none is refused |
| Tick.SlotsInOrder | src/space.c:84-106 | slots 0 and 3 to 255 copy one after another, each by the row it holds when it is reached, up to the end or to a row that is refused, which leaves the space as its predecessors did |
| Tick.SlotMeans | src/space.c:93-104 | bit by bit: a slot copies its bits, all read first; slots 1 and 2 and empty rows do nothing; a row is refused exactly if it copies something and either end leaves the space |
| Tick.RowFields | src/space.c:69-75 | where the count, destination and source of a slot are, and that they are read lowest bit first |
| Vm.Emulator.Run | src/space_run.c:36-66 | a run is a sequence of steps that are done; it ends at rest exactly when all 256 counts are zero, at the limit with some count left, or with one step in error |
| Vm.RunsAgree | src/space_run.c:36-66 | how and when a run ends does not depend on its limit, the behaviour outside being the same: so a run without a limit ends as those with large ones do, or never |
| CopyEmit.Program.Next | runtime/gcc/copy_emit.c:210-221 | a new empty layer linked from the last one, if and only if there is room in front of the limit, with the room given as a number of bits |
| CopyEmit.Program.Emit | runtime/gcc/copy_emit.c:241-246 | exactly one row more, in a new layer if the last is full; fails if and only if a field does not hold its number, either end leaves the address space, or there is no room |
| CopyEmit.Program.PatchJump | runtime/gcc/copy_emit.c:230-239 | only the link of the named layer changes, and both addresses must be layers of the program |
| CopyEmit.Program.Finish | runtime/gcc/copy_emit.c:291-304 | links the last layer to a layer of zeros and installs the boot layer, if and only if the zero layer is free and blank |
| CopyEmit.ProgramInit | runtime/gcc/copy_emit.c:197-208 | accepts exactly the buffers and places the source accepts and starts with one empty layer |
| Linker.AcceptedPlaced | runtime/gcc/copy_emit.c:102-121 | every placement accepted by add_valid is one the emitted addition works for |
| Linker.Linker.Compare32 | runtime/gcc/copy_link.c:669-682 | the image holds the comparison's code; with 70 layers of room it succeeds |
| Linker.Linker.ConditionalJump | runtime/gcc/copy_link.c:683-703 | the image holds the branch, with its entry recorded for resolution |
| Linker.Linker.Jump | runtime/gcc/copy_link.c:158-167 | a layer that ends in a jump, recorded for resolution; fails if and only if the list is full or there is no room |
| Linker.Linker.Multiply32 | runtime/gcc/copy_link.c:727-751 | the image holds the multiplication's code, shared constants included |
| Linker.Linker.Divide32 | runtime/gcc/copy_link.c:771-828 | the image holds the division's code for every variant |
| Linker.Linker.Shift32 | runtime/gcc/copy_link.c:829-854 | the image holds the shifter's code, each selector in one layer with its read; with 166 layers of room it succeeds |
| Linker.Linker.GetConstant | runtime/gcc/copy_link.c:216-228 | a constant that is there already is shared and otherwise one word is added behind the others; the word lies at the address given back; fails only when 256 others are there |
| Linker.Linker.Resolve | runtime/gcc/copy_link.c:1282-1300 | every branch table holds target and fall-through in the order the branch's sense asks for, every jump's link leads to its label or to the report, and all else stays |
| Images.LinkedImage | runtime/gcc/copy_link.c:1282-1306 | a resolved image is the image of a well-formed program, and the layer it leads to holds the row of OUT and the link to the layer of zeros |
| Delivery.Delivered | src/space.c:157-163 | the emulator started on a bootable image comes, in quiet ticks, to the layer of the report with the data the program's items leave |
| Delivery.CourseTicks | src/space_run.c:36-66 | such ticks are steps that are done, whatever is on the other side of the channels, and both streams stay as they were |
| Delivery.ReportStep | src/space.c:109-163 | the step of the report writes the output bytes as far as the other side takes them, reads nothing and leaves an idle machine |
| Texts.ComputeRuns | runtime/gcc/copy_link.c:980-1054 | the items of every statement that computes leave the registers and flags that the statement means, scratch words apart, for all values and all choices of registers |
| Execution.TextRuns | runtime/gcc/copy_link.c:1148-1230 | for every text and every number of executed statements, jumps and branches included, the items of the text stand where the text stands and show its registers and flags |
| Meaning.BranchGoes | runtime/gcc/copy_link.c:708-726 | a comparison of any two words and later, with no other comparison on the way, a branch of either sense: control goes behind the label if and only if the relation (equal; less or not greater, as numbers with or without sign) differs from being inverted, and otherwise to the next statement |
| Meaning.BranchBehind | runtime/gcc/copy_link.c:708-726 | the same of a branch directly behind its comparison |
| Meaning.ControlMeans | runtime/gcc/copy_link.c:1148-1230 | labels, jumps, returns and the end of the text: where control goes, registers and flags unchanged |
| Meaning.MovesMean | runtime/gcc/copy_link.c:980-1054 | constants and moves: the one register that changes, and its value |
| Meaning.ChangeMeans | runtime/gcc/copy_link.c:980-1054 | addition and subtraction of a constant, modulo 2^32 |
| Meaning.TotalMeans | runtime/gcc/copy_link.c:980-1054 | addition and subtraction of registers, modulo 2^32, the same register twice included |
| Meaning.NegateMeans | runtime/gcc/copy_link.c:980-1054 | negation leaves the word that adds up to 0 modulo 2^32 |
| Meaning.InvertMeans | runtime/gcc/copy_link.c:980-1054 | inversion turns each of the 32 bits |
| Meaning.ExtendMeans | runtime/gcc/copy_link.c:980-1054 | extension keeps the low byte or half, as a number with or without sign |
| Meaning.BitwiseMeans | runtime/gcc/copy_emit.c:182-196 | and, or and exclusive or, bit by bit |
| Meaning.MulMeans | runtime/gcc/copy_link.c:727-751 | the product modulo 2^32 |
| Meaning.DivMeans | runtime/gcc/copy_link.c:771-828 | the division law for numbers with and without sign, quotient rounded towards zero, remainder with the sign of the dividend; and what division by zero and the one quotient that does not fit leave |
| Meaning.ShiftMeans | runtime/gcc/copy_link.c:829-854 | by the low five bits of the count: a product modulo 2^32, or a quotient rounded down of the word with or without sign |
| Compiling.Compiler.Accept | runtime/gcc/copy_link.c:1148-1230 | one statement more: its items behind the others, new labels apart from all earlier ones; refused if, by its place in the text, it may not stand there; with room for it that is the only reason |
| Compiling.PlacesDecide | runtime/gcc/copy_link.c:1148-1230 | a text is read to its end if and only if it begins with its own label, no label is there twice, nothing but a label stands directly behind a jump or return, and every branch has some comparison in front of it |
| Compiling.WellReadIs | runtime/gcc/copy_link.c:1241-1242 | what is asked at the end of a text is just that it is not empty and holds a return |
| Linker.Linker.MarkLabel | runtime/gcc/copy_link.c:1180-1186 | a label of the text names the open layer if that is empty, a new one otherwise |
| Linker.Linker.Bitwise32 | runtime/gcc/copy_emit.c:182-196 | the image holds 32 look-ups in one layer, and the truth table is what it was |
| Leaf.ImageDelivers | runtime/gcc/copy_link.c:1094-1315 | on every bootable image of a text and for every behaviour of the other side: if the text, executed statement by statement, returns with some registers, the emulator does a fixed number of steps and is idle for ever; the four bytes of the result register, lowest first, are written as far as they are taken, nothing else, nothing is read; all registers hold what the text returned with |
| Leaf.LinkLeaf | runtime/gcc/copy_link.c:1094-1315 | compiling and linking a text, with stack pointers and arguments in their registers, leaves such an image; with ample room and at most six arguments it succeeds if and only if the text begins with its own label, holds a return, has no label twice, nothing but a label directly behind a jump or return, a comparison somewhere in front of every branch, and the label of every name jumped to |
| Leaf.StartIs | runtime/gcc/copy_link.c:1094-1140 | the registers a text starts with: frame and stack pointer at 8192, the arguments behind them, all others and all flags zero |
| Leaf.DefaultsAreAmple | runtime/gcc/copy_link.c:8-22 | the default capacities and a space of 16 Mbit have room for every text of up to 880 layers, 32 labels and 64 jumps |
| Leaf.SmallTextsFit | runtime/gcc/copy_link.c:8-22 | in particular for every text of at most 128 statements whose divisions, shifts, comparisons and names are few enough, counted by their places in the text |
| Leaf.RunAnswers | src/space_run.c:36-66 | a run of the emulator on an image that delivers never ends in an error, and when it comes to rest the bytes of the result, lowest first, have been written as far as the other side took them |
| Schedule.Level | modules/rv32i_bulk.py:182-211 | levels respect read after write, write after write and patch distance two, and every level is accounted for by some earlier node |
| Schedule.LevelsMean | modules/rv32i_bulk.py:182-211 | the same in positions of memory: a later node that reads or writes a position some node writes is on a later level, the target of a patch two levels behind it, and every level above the first has such a cause |
| Schedule.LevelsUnique | modules/rv32i_bulk.py:182-211 | these two properties determine the levels |
| Schedule.LoneReadFirst | modules/rv32i_bulk.py:182-211 | a one-bit unpatched read into a field is never levelled behind a later write of its bit |
| Bulk.BulkIsSequential | modules/rv32i_bulk.py:3-18 | a schedule that respects the run's dependences makes the bulk machine end in the memory of the nodes executed one after another |
| Levels.LevelsRespect | modules/rv32i_bulk.py:182-211 | the scheduler's levels respect the dependences of every run from rows as written; what is asked is asked of nodes and levels alone: no write levelled below an earlier read, patched copies colliding only as written whatever is patched in |
| Levels.ScheduledBlock | modules/rv32i_bulk.py:3-18 | so the block executed in bulk leaves what its nodes leave one after another |
| Overtaking.SameExactly | modules/rv32i_bulk.py:182-211 | for plain copies: every read finds in bulk the writer it finds one after another if and only if no write is levelled below an earlier read of its position |
| Overtaking.BulkHolds | modules/rv32i_bulk.py:3-18 | the bulk machine holds at every position the bit that the writer so named has fetched |
| Overtaking.StaticBlock | modules/rv32i_bulk.py:3-18 | and then the two runs end in the same memory |
| Overtaking.WriteOvertakesRead | modules/rv32i_bulk.py:182-211 | three copies whose levels are 1, 2, 1: the bulk machine leaves position 10 where the order of the nodes leaves position 1 |
| Overtaking.OvertakenDiffer | modules/rv32i_bulk.py:182-211 | and a memory on which the two results differ |
| Checks.Check | modules/rv32i_bulk.py:401-429 | sorting ranges and comparing neighbours, tick by tick, accepts exactly the schedules that Checks.AcceptedMeans describes |
| Checks.AcceptedMeans | modules/rv32i_bulk.py:401-429 | accepted means: of two fixed writes of a tick one ends in front of the other, every fixed write is behind the processor, and the target of a patch is two ticks later |
| Checks.SchedulePasses | modules/rv32i_bulk.py:401-429 | with the scheduler's levels the checks reject a block if and only if a fixed destination lies in the processor or a copy of no bits lies inside another of its tick |
| Checks.EmptyRejected | modules/rv32i_bulk.py:401-429 | such a copy of no bits, rejected although nothing overlaps |
| Layering.CutBlock | modules/rv32i.py:557-597 | the machine running the layers of a block of any length, patches of the same layer aimed at the processor and later ones at the layer's place, takes ceil(n/252) ticks and has then the data of the nodes executed in order and in slot 255 the terminator as they have patched it |
| Layering.NodeCopies | modules/rv32i.py:557-597 | the data of the nodes executed in order, one more node: its bits are copied, all read first, and no row changes |
| Layering.NodePatches | modules/rv32i.py:557-597 | a node that patches: just the named bits of the named field of one row become those of its source, and no data changes |
| Layering.BlockGoes | modules/rv32i.py:557-610 | a terminator that loads a layer makes the next tick begin with that layer's rows |
| Layering.Encode | modules/rv32i.py:572-613 | the bytes hold the block's rows, links and resolved addresses; fails if and only if a count is not below 2^(w-1) or an address not below 2^w |
| Layering.Place | modules/rv32i.py:559-571 | node j goes to layer j / 252, slot 3 + j mod 252; the terminator to slot 255 of the last layer |
| Adders.PrefixAdds | modules/rv32i_bulk.py:74-110 | for every width 2^k the prefix adder leaves the sum bits and the carry of the ripple definition |
| Adders.StagesRun | modules/rv32i_bulk.py:86-98 | after k stages every position holds generate and propagate of the last 2^k positions |
| Adders.RippleAdds | modules/rv32i.py:268-283 | so does the ripple adder |
| Adders.AddersAgree | modules/rv32i_bulk.py:74-110 | the two adders leave the same bits and carry |
| Agreement.BulkAndLayers | modules/rv32i_bulk.py:3-18 | a scheduled block run in bulk and the same block cut into layers and run slot by slot at bit addresses leave the same data and the same terminator |
| Homes.BulkAtAddresses | modules/rv32i_bulk.py:347-420 | the bulk machine on a space of bits: all rows fetched and all bits read before any is written, every layer's last row loading the next layer, patches written to the place their target is loaded from two ticks later; a scheduled block takes as many ticks as it has levels and leaves what its nodes leave one after another, the patched terminator included |
| Homes.TickReadsFirst | modules/rv32i_bulk.py:3-18 | one tick of that machine: every bit is what the last row that writes to it found in front of the tick, or stays |
| Homes.TickRefused | modules/rv32i_bulk.py:3-18 | and there is no such tick exactly if a row that copies something reaches out of the memory |
| Gates.GatesOnMachine | modules/rv32i.py:192-235 | a block of gates of any length, every gate a read of a truth table whose address its inputs patch, neighbouring inputs in one copy: the machine running its layers leaves what the gates mean |
| Adders.LooksMean | modules/rv32i_bulk.py:52-63 | every look-up as arithmetic on zeros and ones |
| Generate.Generator.Gate | modules/rv32i.py:158-235 | a gate more; its table is laid down aligned when first needed, apart from all others, with the truth values of its function |
| Generate.Generator.Add | modules/rv32i.py:268-283 | the nodes behind the others are those of the ripple adder's gates; fails only when fewer than 32 bits are left for tables |
| Generate.Generator.AddPrefix | modules/rv32i_bulk.py:74-110 | the same of the prefix adder, its buffers changing places from stage to stage |
| Generate.RippleOnMachine | modules/rv32i.py:268-283 | the machine running the layers of the ripple adder leaves the 32-bit sum or difference and its carry |
| GatesInBulk.RunsInBulk | modules/rv32i_bulk.py:74-123 | a block of gates, levelled by the scheduler and run in bulk, leaves what the gates mean, if inputs are not neighbours and every copied bit is copied back before it is overwritten |
| PrefixInBulk.PrefixInBulk | modules/rv32i_bulk.py:74-110 | for every width 2^k of at least four bits: the prefix adder's copies, levelled by the scheduler and run in bulk, leave sum and carry; nothing is asked of the levels but that they are the scheduler's |
| PrefixInBulk.PrefixAtAddresses | modules/rv32i_bulk.py:74-110 | and so at bit addresses, where ticks load and patch their own rows |
| PrefixInBulk.BulkAdderInBulk | modules/rv32i_bulk.py:74-110 | so does the generator's own 32-bit adder in its scratch words |
| Adders.AddedSpells | modules/rv32i.py:268-283 | as numbers: the sum modulo 2^w and its carry, or the difference and the absence of a borrow |
| HideTable.HideSets.Intern | runtime/copy_c/preprocess_macros.h:26-42 | the probe always ends; the set's own number or a new one; -1 only when all numbers are used |
| HideTable.HideSets.Canonical | runtime/copy_c/preprocess_macros.h:26-42 | numbers are equal if and only if the sets are |
| HideTable.HideSets.Merge | runtime/copy_c/preprocess_macros.h:63-71 | the number of the union or intersection, member by member; -1 if an operand is no number, otherwise only when all numbers are used and no set is that one |
| Macros.FullyExpanded | runtime/copy_c/preprocess_macros.h:634-717 | rescanning, which is total, leaves no identifier whose first macro of its name is present and not hidden from it |
| Macros.TokenStays | runtime/copy_c/preprocess_macros.h:634-717 | a token stays as it is if it is no identifier, or no macro has its name, or the first that has is undefined or hidden from it |
| Macros.TokenReplaced | runtime/copy_c/preprocess_macros.h:634-717 | otherwise its expansion is that of the macro's symbols in order, each hidden from all that the token is hidden from and from the macro |
| Macros.TextStays | runtime/copy_c/preprocess_macros.h:634-717 | a text of tokens of the first kind comes back unchanged |
| Macros.NeverInsideItself | runtime/copy_c/preprocess_macros.h:634-717 | no token is replaced inside an expansion of its macro, tokens of empty macros included, and on the way to any token of the result every macro has been expanded at most once |
| Macros.PathsComplete | runtime/copy_c/preprocess_macros.h:634-717 | no replacement is left out of the way to a token: it is hidden from exactly the macros on it |
| Macros.PathsShort | runtime/copy_c/preprocess_macros.h:634-717 | so no token comes out of more expansions than there are macros |
| Macros.ExpandAppend | runtime/copy_c/preprocess_macros.h:634-717 | object-like expansion is independent of the text around a token |
| Macros.TracingHarmless | runtime/copy_c/preprocess_macros.h:634-717 | the expansion that records the way to every token is the expansion |
| Pasting.PastesExactly | runtime/copy_c/preprocess_macros.h:684-692 | a body splits into symbols with the operands joined to them; pasting leaves the left folds of these groups in order, and fails if and only if an operator behind a symbol ends the body or some fold fails |
| Pasting.PastingSpells | runtime/copy_c/preprocess_macros.h:684-692 | if joining two symbols joins their spellings, a body spells the same before and after, operators left out |
| Pasting.PasteNext | runtime/copy_c/preprocess_macros.h:684-692 | the two loops leave the left fold of a group and the place where the next group begins; they fail if and only if the fold does or the group ends the body with an operator |
| Rescan.Rescanner.Rescan | runtime/copy_c/preprocess_macros.h:634-717 | the list spliced in place holds the expansion of its text, no node is lost or used twice, and it fails only when nodes or hide sets run out or the body of a macro does not paste |

## Left out

- Rescan.Rescanner.Rescan: how two spellings join is a parameter, and the buffer for joined spellings is not bounded; function-like macros, frozen macros, condition queries and the spacing of tokens are left out.
- Vm.Emulator.Run: takes a limit on the steps; the run without one is what these runs agree on (Vm.RunsAgree), not a method, since it may go on for ever. Trace callbacks and the tick counter's 64-bit ceiling are left out.
- Leaf.LinkLeaf: takes statements, not characters: splitting and spelling of the assembly text, directives, and numeric labels (`1:`, `1b`) are left out, and so are traps, memory and stack instructions.
- Linker.Linker.Resolve: weak labels and labels of data, which only whole programs have, are left out.
- Homes.BulkAtAddresses: one block; the terminator is left in its slot, what it loads is the next block's first layer. Fields of rows as data and device copies are left out.
- Levels.ScheduledBlock: gives a sufficient condition only, unlike Overtaking.SameExactly for plain copies; a patched block may run right in bulk although a write overtakes a read.
- Generate.Generator.Gate: the generators' other gates, reductions, validations and tables of labels are left out.
- Layering.CutBlock: nodes that read a field of another row as data, and channel rows in slots 1 and 2, are left out; the processor's slots 0 to 2 are empty.
- Schedule.Level: labels as destinations do not occur; nodes are numbered instead of named by identity.
- Checks.Check: nodes of later blocks appear as ticks behind the end of the block; patches of nodes of earlier blocks are left out.
- Parsing of assembly, sections, symbols and relocations, archives, calls and returns with frames, and the data layout of the linker (`layout_data`, `pack_data`).
- Guarded memory access (`memory_access`).
- The RV32I instruction blocks from fetch to checkpoint and their correspondence to the instruction set: gates, both adders, the layers and the schedules they go through are the part that is proved.
- The boot protocol (`src/core.c`, `modules/rv32i_stream.py`).
- 64-bit folding, the `#if` evaluator and the in-memory file table.
- File and process input and output: streams are bit sequences, and how far the other side of a channel goes along in a step is a parameter of the step.
