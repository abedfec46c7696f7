# DuetOS: ACPI method evaluation, event handling and two applications, in Dafny

A model of five parts of DuetOS with proofs of what they promise.

- **The AML interpreter** (`PkgLength`, `Names`, `Regions`, `Alu`, `Tables`, `Interp`, `Machine`, `Driver`). `Interp` is the
  interpreter as total, mutually recursive functions over an explicit state; `Machine` is the same interpreter as methods on
  mutable objects (cursor, locals, flags, a shared node arena), each proved to end in the state the function gives.
  `Ast` defines expressions and statements, their AML bytes and a big-step semantics whose packages are trees; `Represent`
  and `Simulate` prove that running the bytes is running the semantics, and `Api` draws the conclusions for the public entry
  points. `Defined` says which programs have a meaning and draws the same conclusions without presupposing one, in
  namespaces that may hold anything else beside them; `Operators` follows the operator and control-flow opcodes from their
  bytes to the numbers they return. `Acyclic` says exactly when every evaluation ends. The grammar is
  section 20.2 of ACPI 6.x.
- **The sleep-package reader** (`Sleep`), a second, hand-written decoder for `_S0` to `_S5`, compared with the interpreter.
- **The embedded controller** (`Ec`): the two-port handshake of section 12.3 of ACPI 6.5 against a conforming controller that
  takes its own steps at any time, with waits that may be given up.
- **The System Control Interrupt** (`Sci`): handler, worker and write-1-clear registers, interleaved one access at a time.
- **The calculator** (`Fixed`, `Calculator`) and **the calendar** (`Dates`, `Events`).

`Bits` holds binary numbers as recursive functions, with the lemma that bits determine a number; everything about masks and
shifts rests on it.

Where the code and its documentation disagree, the model follows the code:

- The header says a path holds 15 segments (`kernel/acpi/aml.h:39`); its 64-byte buffer holds 12 (`Names.PrintShape`).
- The search rules of ACPI end at the root; the code's relative search stops one level below it. From a scope so long that
  the first candidate overflows the buffer, twelve segments for a one-segment name, it stops before it has begun and finds
  nothing at all (`Names.LookupIsSearchUp`, `Names.RootNotSearched`).
- Port-space accesses of eight bytes move four, so the flat-slice law holds for a field there exactly if it lies in the lower
  halves of its units (`Regions.PortReadIff`, `Regions.PortWriteIff`, `Regions.PortServed`).
- The controller is drained once, at start-up, so that transactions start from a known state; a read or query given up after
  its last byte leaves its answer behind, and every later one is then an answer late (`Ec.LostAnswer`, `Ec.DebtCount`).
- CE is documented as clearing an error without discarding the accumulator (`kernel/apps/calculator.cpp:579-582`); a rejected
  operation has already discarded it (`Calculator.ClearEntryAfterError`).
- The sleep-package reader does not look at the package's length, nor at the end of the method it reads in: it answers where
  the package is too short for its elements and where it runs past its table or method (`Sleep.NameAgrees`,
  `Sleep.MethodAgrees`, `Sleep.ShortSpanDiffers`, `Sleep.OverrunDiffers`, `Sleep.MethodOverrunDiffers`).
- The calendar accepts days up to 31 in every month (`Events.DateAccepted`).
- The square root is documented as exact for every input; it is cut off at 2^31 (`Fixed.SqrtExactIff`).
- Month and day stepping are described as wrapping at year boundaries; at years 1 and 9999 they are held
  (`Dates.ConsecutiveIff`, `Dates.StepByDays`).

`dafny verify dfyconfig.toml` checks the whole project.

## Model

| member | source | states |
|---|---|---|
| `PkgLength.PkgAt` | kernel/acpi/aml.cpp:77-97 | A decoded PkgLength consumes 1 to 4 bytes, all of them inside the given end, and is below 2^28 |
| `PkgLength.ReadPkgLength` | kernel/acpi/aml_eval.cpp:38-58 | The shift-and-or loop returns the decoded length and byte count, or fails, exactly as the arithmetic decoding does, on every input |
| `PkgLength.ReadPkgLengthInline` | kernel/acpi/aml.cpp:497-512 | The decoder written out inside the sleep-package reader agrees with the other two on every input |
| `PkgLength.OrFollowBytes` | kernel/acpi/aml.cpp:504-511 | Its per-byte bound check fails exactly when the whole field does not fit, and its result is the lead nibble plus 16 times the little-endian tail |
| `PkgLength.AccumulateStep` | kernel/acpi/aml_eval.cpp:53-54 | Or-ing in one more follow-on byte at bit 4 + 8k is adding it at that weight, since the bits do not overlap |
| `PkgLength.PkgRoundTrip` | kernel/acpi/aml_eval.cpp:38-58 | Decoding an encoded length followed by any bytes gives the length back and the exact byte count, for each of the four widths |
| `PkgLength.PkgReencodes` | kernel/acpi/aml_eval.cpp:38-58 | Decoding succeeds if and only if the bytes the lead byte asks for are there, and encoding the result gives them back, reserved bits aside |
| `PkgLength.PkgRange` | kernel/acpi/aml_eval.cpp:38-58 | A length has an encoding if and only if it is below 2^28 |
| `PkgLength.WrapDecodes` | kernel/acpi/aml_eval.cpp:38-58 | A body behind a PkgLength that counts itself is found again between the decoded start and end |
| `Names.ReadNameRef` | kernel/acpi/aml_eval.cpp:80-136 | The parser with its cursor and fixed segment table computes the NameString grammar's parse, or fails with it |
| `Names.ReadSegs` | kernel/acpi/aml_eval.cpp:121-131 | Reads exactly the given number of well-formed segments or fails |
| `Names.NameRoundTrip` | kernel/acpi/aml_eval.cpp:80-136 | Parsing an encoded name followed by any bytes gives the name and its exact extent |
| `Names.NameGrammar` | kernel/acpi/aml_eval.cpp:80-136 | The parser finds a name up to a position if and only if the bytes up to there spell that name: root or carets, then the null, one, dual or multi form of its segments |
| `Names.Alphabet` | kernel/acpi/aml_eval.cpp:60-67 | Segments begin with A to Z or underscore and go on with those or a digit |
| `Names.ResolveAbsolute` | kernel/acpi/aml_eval.cpp:161-206 | The in-place text buffer (copy, trim, append) computes the resolution function, failures included |
| `Names.TrimBuffer` | kernel/acpi/aml_eval.cpp:174-183 | Trimming the buffer drops the last segment, and fails when that would leave the bare root |
| `Names.GlueBuffer` | kernel/acpi/aml_eval.cpp:185-200 | Appending segments to the buffer adds them with dots, or fails when a character would be the 64th |
| `Names.PrintShape` | kernel/acpi/aml_eval.cpp:161-206 | A path of n segments is 5n characters long, so it fits the 64-byte buffer if and only if n is at most 12 |
| `Names.PrintInjective` | kernel/acpi/aml_eval.cpp:161-206 | Two segment lists with the same text are the same list |
| `Names.ResolveCanonical` | kernel/acpi/aml_eval.cpp:161-206 | On a canonical scope, resolution is: drop the last caret+trim segments, append the reference's, print; it fails exactly when a nonzero drop leaves nothing or the text exceeds 63 characters |
| `Names.SearchScopes` | kernel/acpi/aml_eval.cpp:520-555 | The trim-and-retry loop ends and returns what the recursive search returns |
| `Names.SearchCanonical` | kernel/acpi/aml_eval.cpp:518-556 | The search over text finds exactly what the search over segment lists finds |
| `Names.LookupLongest` | kernel/acpi/aml_eval.cpp:518-556 | A relative name is found at the longest enclosing prefix that binds it, from the whole scope down to one segment, if the first candidate's text fits the buffer, and is not found at all otherwise |
| `Names.LookupNone` | kernel/acpi/aml_eval.cpp:518-556 | The search fails if no prefix of one or more segments binds the name |
| `Names.LookupIsSearchUp` | kernel/acpi/aml_eval.cpp:518-556 | The relative search is ACPI's upward search, root included, if and only if: when the first candidate has more than twelve segments, no enclosing scope binds the name; otherwise the scope is the root, or the root does not bind the name, or some longer prefix does |
| `Names.SearchUpFinds` | kernel/acpi/aml_eval.cpp:518-556 | ACPI's upward search succeeds if and only if some enclosing scope, the root included, binds the name |
| `Names.RootNotSearched` | kernel/acpi/aml_eval.cpp:175-183 | Both failing families: from any scope of one to eleven segments a global is not found, and from a scope of twelve not even a name bound in the scope around it |
| `Regions.Bus.ReadField` | kernel/acpi/aml_eval.cpp:295-323 | The unit-splitting read loop over little-endian units computes the recursive field read |
| `Regions.Bus.WriteField` | kernel/acpi/aml_eval.cpp:325-357 | The read-modify-write loop leaves the world the recursive field write gives: a unit it cannot read counts as zero, and it stops at the first unit it cannot write |
| `Regions.FieldReadBits` | kernel/acpi/aml_eval.cpp:295-323 | Bit i of a field read is bit i of the field's slice of the region if the access moves that bit of its unit, and zero otherwise, for every width 1 to 64, offset, access size and space |
| `Regions.FieldReadIsSlice` | kernel/acpi/aml_eval.cpp:295-323 | So a field all of whose bits are moved reads as the flat bit slice of its region |
| `Regions.FieldReadable` | kernel/acpi/aml_eval.cpp:295-323 | A field can be read if and only if its region is known, its width is 1 to 64, and the unit of each of its bits is inside the memory, the ports or the controller's window and the controller is there |
| `Regions.UnitReadable` | kernel/acpi/aml_eval.cpp:217-291 | A unit access succeeds, for reading and for writing, exactly inside those bounds |
| `Regions.AccessSizeIrrelevant` | kernel/acpi/aml_eval.cpp:295-323 | So the value does not depend on the declared access size |
| `Regions.FieldWriteBits` | kernel/acpi/aml_eval.cpp:325-357 | A field write puts the value's bits at exactly those bits of the field that the access moves and changes no other bit of any region space |
| `Regions.FieldWriteReplaces` | kernel/acpi/aml_eval.cpp:325-357 | So a field all of whose bits are moved is replaced by the low bits of the value, and nothing else changes |
| `Regions.ReadAfterWrite` | kernel/acpi/aml_eval.cpp:295-357 | Reading a field after writing it gives the value modulo 2^width |
| `Regions.DisjointWritesCommute` | kernel/acpi/aml_eval.cpp:325-357 | Writes to fields that share no bit commute, whatever their access sizes |
| `Regions.PortServed` | kernel/acpi/aml_eval.cpp:221-241 | A port access moves every bit of a unit of up to four bytes and the lower 32 bits of one of eight |
| `Regions.PortReadIff` | kernel/acpi/aml_eval.cpp:295-323 | Over existing ports a field read is the flat slice for every content of the ports if and only if the field is not declared with eight-byte access or lies in the lower halves of its units |
| `Regions.PortWriteIff` | kernel/acpi/aml_eval.cpp:325-357 | And a field write replaces exactly the field's bits, for every content and value, under the same condition |
| `Regions.EcAssembleIsLe` | kernel/acpi/ec.cpp:138-147 | Assembling byte transactions little-endian is reading the window as one number |
| `Regions.EcScatterIsPut` | kernel/acpi/ec.cpp:131-137 | Scattering a value over byte transactions is writing its little-endian bytes |
| `Alu.OpBounds` | kernel/acpi/aml_eval.cpp:742-781 | Bitwise results, complements and cut shifts stay within 64 bits |
| `Alu.DivideMeans` | kernel/acpi/aml_eval.cpp:783-798 | Quotient and remainder recompose the dividend, with the remainder below the divisor; dividing by zero gives zero twice |
| `Alu.SubtractUndoesAdd` | kernel/acpi/aml_eval.cpp:757-760 | Subtraction undoes the addition that Alu.AddCounts pins down, and addition undoes subtraction, wrap-around included |
| `Alu.AddCounts` | kernel/acpi/aml_eval.cpp:757-758 | Addition is counting: adding zero changes nothing, adding one more counts one further, and zero follows 2^64 - 1 |
| `Alu.MultiplyRepeats` | kernel/acpi/aml_eval.cpp:761-762 | Multiplication is repeated addition |
| `Alu.ShiftMeans` | kernel/acpi/aml_eval.cpp:763-766 | Shifts multiply modulo 2^64 and divide by powers of two, for every shift count |
| `Alu.BitwiseMeans` | kernel/acpi/aml_eval.cpp:767-776 | Each bit of And, NAnd, Or, NOr and XOr is that gate of the operands' bits |
| `Alu.NotMeans` | kernel/acpi/aml_eval.cpp:800-811 | Not turns every bit over |
| `Alu.LogicMeans` | kernel/acpi/aml_eval.cpp:852-888 | LEqual holds exactly if the difference is zero, LLess is counting from zero, LGreater is LLess exchanged, and LAnd and LOr ask which operands are zero |
| `Alu.TruthMeans` | kernel/acpi/aml_eval.cpp:852-888 | A condition that holds is all ones, any other zero |
| `Alu.FindSetMeans` | kernel/acpi/aml_eval.cpp:800-833 | FindSetLeftBit and FindSetRightBit return one more than the highest and lowest set bit, and zero only for zero |
| `Alu.FindLeftLoop` | kernel/acpi/aml_eval.cpp:812-820 | The scan from bit 63 down returns the highest set bit |
| `Alu.FindRightLoop` | kernel/acpi/aml_eval.cpp:821-829 | The scan from bit 0 up returns the lowest set bit |
| `Tables.ReadNameString` | kernel/acpi/aml.cpp:121-196 | The namespace code's reader ends where the grammar says or fails, and up to 255 parent steps its text, caret count and flags record the very name the interpreter's reader finds there |
| `Tables.ReadNamePath` | kernel/acpi/aml.cpp:143-196 | The same behind the prefix characters |
| `Tables.CopySegs` | kernel/acpi/aml.cpp:173-192 | Copying dotted segments succeeds exactly if all are well formed and their text is at most 63 characters, and the text is that of the path they make |
| `Tables.AmlMethodBody` | kernel/acpi/aml.cpp:692-727 | Returns a method's TermList and argument count, or fails, as the slicing function says |
| `Tables.AmlNameValue` | kernel/acpi/aml.cpp:729-751 | Returns the bytes behind a Name's NameString, or fails, as the slicing function says |
| `Tables.MethodRoundTrip` | kernel/acpi/aml.cpp:692-727 | Slicing an encoded method, wherever it sits in its table and whatever its name of at most twelve segments and its flags, gives back its code and the argument count in the low three flag bits |
| `Tables.ReadersAgree` | kernel/acpi/aml.cpp:121-196 | The namespace reader and the interpreter's reader agree on every NameString with at most 255 parent steps, except that the first stops at twelve segments |
| `Tables.NameDefinition` | kernel/acpi/aml.cpp:729-751 | Slicing a Name definition gives its data and whatever follows it, for any name of at most twelve segments |
| `Interp.Eval` | kernel/acpi/aml_eval.cpp:583-590 | For every byte string: evaluation ends, success moves the cursor strictly forward and never past len, the expression depth is restored on every exit, control flags are untouched, and allocated arena slots keep their values |
| `Interp.EvalOp` | kernel/acpi/aml_eval.cpp:583-1059 | The same for every opcode, one expression level further in |
| `Interp.Exec` | kernel/acpi/aml_eval.cpp:1062-1196 | Running statements ends, keeps the state well formed and the arena within 96 slots, and restores both depth counters |
| `Interp.Loop` | kernel/acpi/aml_eval.cpp:1147-1179 | A While loop ends, its measure counting predicate evaluations down, keeps the state well formed and restores both depth counters |
| `Interp.Invoke` | kernel/acpi/aml_eval.cpp:1198-1220 | A call, made only below depth 12 so that states nest at most 13 deep, keeps the caller's scope, counters, flags and allocated slots and moves the cursor forward |
| `Interp.EvalName` | kernel/acpi/aml_eval.cpp:518-556 | Dereferencing a name ends, since remaining calls, free arena slots or the Name rank go down, with the same guarantees |
| `Interp.FillSlots` | kernel/acpi/aml_eval.cpp:697-740 | Filling a package's slots leaves the slots outside it as they were |
| `Interp.Build` | kernel/acpi/aml_eval.cpp:697-740 | A package reserves its own run of slots, at most what the arena has left, before its elements are evaluated, so Names nested through packages end with the arena |
| `Simulate.EvalSim` | kernel/acpi/aml_eval.cpp:583-1059 | Compiler correctness for expressions: evaluating the bytes of any expression tree of height at most 64 that has a meaning, anywhere in a byte string, in a namespace where the objects it uses are compiled from such trees and the others are anything, ends right behind them with the tree semantics' value, locals, arguments, regions and arena use |
| `Simulate.OpSim` | kernel/acpi/aml_eval.cpp:583-1059 | The same inside one expression level, by cases over all forms, under the same hypothesis |
| `Simulate.ExecSim` | kernel/acpi/aml_eval.cpp:1062-1196 | Compiler correctness for statement lists, in a namespace where the objects it uses are compiled from such trees and the others are anything: locals, arguments, return value and control flow are those of the big-step semantics |
| `Simulate.StmtSim` | kernel/acpi/aml_eval.cpp:1062-1196 | The same for one statement, ending right behind its bytes |
| `Simulate.LoopSim` | kernel/acpi/aml_eval.cpp:1147-1179 | A While runs predicate and body as the semantics does, with the same 100000 cut-off and Break and Continue confined to it |
| `Simulate.IfElseSim` | kernel/acpi/aml_eval.cpp:1098-1146 | If and Else run the branch the predicate selects and end behind both packages |
| `Simulate.LNotFusedSim` | kernel/acpi/aml_eval.cpp:862-879 | LNot in front of a comparison is decoded as the fused operator and means the negated comparison |
| `Simulate.LogicNotSim` | kernel/acpi/aml_eval.cpp:862-879 | The two-byte LNotEqual, LLessEqual and LGreaterEqual mean the negated comparison |
| `Simulate.BinSim` | kernel/acpi/aml_eval.cpp:742-781 | A two-operand operator evaluates left, then right, then stores through its target |
| `Simulate.DivideSim` | kernel/acpi/aml_eval.cpp:783-798 | Divide stores remainder and quotient, in that order, and yields the quotient |
| `Simulate.StepSim` | kernel/acpi/aml_eval.cpp:835-850 | Increment and Decrement read their operand, whatever it is bound to, step it, and write it back to a local, an argument or a field |
| `Simulate.BufferSim` | kernel/acpi/aml_eval.cpp:673-694 | A Buffer is its initialiser cut or zero-padded to its size |
| `Simulate.PackageSim` | kernel/acpi/aml_eval.cpp:697-740 | A Package's value stands for the tree of its elements, whose slots are frozen from then on |
| `Simulate.VarPackageSim` | kernel/acpi/aml_eval.cpp:697-740 | The same with an evaluated element count |
| `Simulate.WaitSim` | kernel/acpi/aml_eval.cpp:1013-1044 | Stall, Sleep, Release and Acquire evaluate their operand, yield zero and end behind it, Acquire behind its timeout |
| `Simulate.NotifySim` | kernel/acpi/aml_eval.cpp:1180-1187 | Notify evaluates both operands in order and changes nothing else |
| `Simulate.IndexSim` | kernel/acpi/aml_eval.cpp:945-965 | Index yields the tree's element, however nested |
| `Simulate.ExistsSim` | kernel/acpi/aml_eval.cpp:982-1012 | CondRefOf tells whether the name is bound; its target is decoded and nothing is stored |
| `Simulate.RefSim` | kernel/acpi/aml_eval.cpp:1046-1059 | A name yields its field's bits, its Name's data or its method's returned value, or nothing if unbound |
| `Simulate.CallSim` | kernel/acpi/aml_eval.cpp:1198-1220 | A call passes the evaluated arguments, runs the body one level deeper and returns its value; the caller's locals are untouched |
| `Simulate.FieldRefSim` | kernel/acpi/aml_eval.cpp:518-530 | A field name reads the bits of the region, or all ones if the region cannot be read |
| `Simulate.FinishSim` | kernel/acpi/aml_eval.cpp:495-514 | Storing a result into a local, an argument, a field or nowhere changes just that |
| `Represent.RepMono` | kernel/acpi/aml_eval.cpp:376-381 | What a value stands for does not change while its frozen slots keep their contents |
| `Represent.SetFieldIsWrite` | kernel/acpi/aml_eval.cpp:325-357 | Splicing the bits of a store is what the field write loop does, for every field whose bits the access moves; for any other field the semantics is the access engine itself |
| `Represent.GetFieldIsRead` | kernel/acpi/aml_eval.cpp:295-323 | The value the semantics gives a field, all of whose bits the access moves, is its slice, and that is what the read loop returns; for any other field the semantics is the access engine itself, and all ones if it fails |
| `Represent.LookupShape` | kernel/acpi/aml_eval.cpp:518-556 | A path found by segments is one of the bound paths, well formed and at most twelve segments long |
| `Api.RawCorrect` | kernel/acpi/aml_eval.cpp:1224-1234 | Running the bytes of any well-formed program that has a meaning, in a namespace where the objects it uses are compiled from such trees and the others are anything, returns the tree its semantics returns and leaves the regions as the semantics leaves them |
| `Api.ObjectCorrect` | kernel/acpi/aml_eval.cpp:1236-1285 | Evaluating by path a method or Name that is compiled and has a meaning gives that meaning; objects it does not use may be anything |
| `Api.EvaluateCorrect` | kernel/acpi/aml_eval.cpp:1236-1285 | AmlEvaluate on such a path succeeds and returns the meaning itself, or for a package one of that many elements |
| `Api.EvaluateOther` | kernel/acpi/aml_eval.cpp:1236-1285 | On a field it returns the field's bits, and on a path bound to nothing it fails |
| `Api.ArgumentPassed` | kernel/acpi/aml_eval.cpp:1250-1272 | A method that returns argument i returns what the caller passed there, or nothing if fewer were passed |
| `Api.PackageIntsCorrect` | kernel/acpi/aml_eval.cpp:1300-1352 | Flattening such an object returns exactly the first integers of the package tree, and fails exactly if the meaning is not a package |
| `Api.BodyCorrect` | kernel/acpi/aml_eval.cpp:1236-1285 | A compiled method body run from the start state returns its meaning in any scope, under the hypothesis of Api.RawCorrect |
| `Api.DataCorrect` | kernel/acpi/aml_eval.cpp:1236-1285 | A Name's compiled data evaluated from the start state is its meaning, under the hypothesis of Api.RawCorrect |
| `Defined.SemDefined` | kernel/acpi/aml_eval.cpp:583-1059 | Every well-formed expression has a meaning if the objects it uses are known, its calls pass each method its number of arguments, no more calls can nest than there are levels left, and its Names refer down their ranks |
| `Defined.RunDefined` | kernel/acpi/aml_eval.cpp:1062-1196 | The same for statement lists: loops, branches, arithmetic, packages, fields and unbound names ask for nothing more |
| `Defined.NamelessTame` | kernel/acpi/aml_eval.cpp:583-1059 | An expression over constants, Locals and Args meets those conditions in every namespace |
| `Defined.KnowingMatches` | kernel/acpi/aml_eval.cpp:518-556 | Whatever a namespace holds, it matches the program that knows any chosen compiled objects of it and leaves the rest foreign, so the hypothesis of the correctness theorems is about the objects used alone |
| `Defined.NamelessCorrect` | kernel/acpi/aml_eval.cpp:1224-1234 | Compiler correctness with no hypothesis on meaning or namespace: in every namespace, running the bytes of any well-formed program over constants, Locals and Args gives what its semantics gives |
| `Defined.TameCorrect` | kernel/acpi/aml_eval.cpp:1224-1234 | The same for every program whose calls, Names and objects meet those conditions |
| `Defined.MethodCorrect` | kernel/acpi/aml_eval.cpp:1236-1285 | The same for a compiled method evaluated by path |
| `Defined.CountedLoop` | kernel/acpi/aml_eval.cpp:1147-1179 | The bytes of a loop that counts from zero while below n, by LLess or by LGreater exchanged, return n in every namespace, or 100000 if n is more |
| `Operators.ArithmeticBytes` | kernel/acpi/aml_eval.cpp:742-781 | The bytes of a method that adds, subtracts, multiplies, shifts or takes the remainder of its two arguments return in every namespace that result modulo 2^64, the remainder by zero being zero |
| `Operators.DivideBytes` | kernel/acpi/aml_eval.cpp:783-798 | Divide returns the quotient, zero for a divisor of zero |
| `Operators.BitwiseBytes` | kernel/acpi/aml_eval.cpp:767-776 | Opcodes 0x7B to 0x7F return And, NAnd, Or, NOr and XOr of the arguments, bit by bit |
| `Operators.UnaryBytes` | kernel/acpi/aml_eval.cpp:800-833 | Opcodes 0x80 to 0x82 return the complement and one more than the highest and the lowest set bit |
| `Operators.LogicBytes` | kernel/acpi/aml_eval.cpp:852-888 | The five connectives and comparisons, LNot, and the three comparisons behind an LNot return all ones exactly if their condition holds |
| `Operators.ChoiceBytes` | kernel/acpi/aml_eval.cpp:1098-1146 | An If with an Else that compares the arguments returns the larger |
| `Operators.LoopBytes` | kernel/acpi/aml_eval.cpp:1147-1196 | In an endless loop Break stops after one turn, Continue skips the rest of each turn, Noop nothing, and the loop is cut off after 100000 turns |
| `Acyclic.EvalFree` | kernel/acpi/aml_eval.cpp:531-547 | If each Name holds a data object and the references from Name to Name go down a rank, evaluating any byte string in any state never sets the marker |
| `Acyclic.ExecFree` | kernel/acpi/aml_eval.cpp:1062-1196 | Nor does running any byte string as statements |
| `Acyclic.ValueFree` | kernel/acpi/aml_eval.cpp:531-547 | Nor does evaluating a Name's own value at its own rank; packages inside it may refer to any Name, itself included |
| `Acyclic.CircleSticks` | kernel/acpi/aml_eval.cpp:543-546 | Where some Names refer to each other in a closed circle, evaluating any of them sets the marker, under every ranking and from every rank |
| `Acyclic.CircleOrRanking` | kernel/acpi/aml_eval.cpp:531-547 | Every namespace of data objects has such a circle or can be ranked, by how many Names follow each |
| `Acyclic.EndsIffNoCircle` | kernel/acpi/aml_eval.cpp:531-547 | So evaluation of every byte string ends by the interpreter's own limits under some ranking if and only if no Names refer to each other in a circle |
| `Machine.Arena.Alloc` | kernel/acpi/aml_eval.cpp:376-381 | Hands out the next slot, or fails when all 96 are used, and touches no other slot |
| `Machine.EvalState.EvalTermArg` | kernel/acpi/aml_eval.cpp:583-590 | The method on mutable state (cursor, locals, flags, shared arena) ends in exactly the state and value of the functional interpreter |
| `Machine.EvalState.EvalOpcode` | kernel/acpi/aml_eval.cpp:592-1059 | The same for the opcode dispatch |
| `Machine.EvalState.ReadTarget` | kernel/acpi/aml_eval.cpp:445-493 | Decodes the store destination the function decodes |
| `Machine.EvalState.StoreToTarget` | kernel/acpi/aml_eval.cpp:495-514 | Writes the local, the argument or the field, in place |
| `Machine.EvalState.EvalBufferOp` | kernel/acpi/aml_eval.cpp:673-694 | Copies and pads into a fresh buffer |
| `Machine.EvalState.EvalPackageOp` | kernel/acpi/aml_eval.cpp:697-740 | Reserves the slots, then fills them in place |
| `Machine.EvalState.BuildPackage` | kernel/acpi/aml_eval.cpp:712-738 | Reserves and fills a package as the function does |
| `Machine.EvalState.FillPackage` | kernel/acpi/aml_eval.cpp:731-737 | The fill loop leaves the arena the function leaves |
| `Machine.EvalState.FillSlot` | kernel/acpi/aml_eval.cpp:733-736 | One element into its slot, or Uninit if its term fails |
| `Machine.EvalState.EvalBinOp` | kernel/acpi/aml_eval.cpp:742-781 | Two operands, the operator (Operators.ArithmeticBytes says what it computes), the target |
| `Machine.EvalState.EvalDivideOp` | kernel/acpi/aml_eval.cpp:783-798 | Two operands, two targets |
| `Machine.EvalState.EvalUnOp` | kernel/acpi/aml_eval.cpp:800-833 | Not and the bit searches |
| `Machine.EvalState.EvalStepOp` | kernel/acpi/aml_eval.cpp:835-850 | Read, step and write back |
| `Machine.EvalState.EvalLogicOp` | kernel/acpi/aml_eval.cpp:880-888 | Comparisons and logical connectives |
| `Machine.EvalState.EvalLNotOp` | kernel/acpi/aml_eval.cpp:862-879 | LNot and its fused forms |
| `Machine.EvalState.EvalCopyOp` | kernel/acpi/aml_eval.cpp:890-943 | Store and the conversions that copy |
| `Machine.EvalState.EvalOneOp` | kernel/acpi/aml_eval.cpp:904-980 | SizeOf, ToInteger, DerefOf and ObjectType |
| `Machine.EvalState.EvalIndexOp` | kernel/acpi/aml_eval.cpp:945-965 | The element of a buffer, string or package |
| `Machine.EvalState.EvalExtOp` | kernel/acpi/aml_eval.cpp:982-1044 | The extended opcodes |
| `Machine.EvalState.ResolveNameValue` | kernel/acpi/aml_eval.cpp:518-556 | Field read, method call, Name data or nothing |
| `Machine.EvalState.InvokeMethod` | kernel/acpi/aml_eval.cpp:1198-1220 | Argument evaluation in order, then the callee in a fresh state that shares the arena |
| `Machine.EvalState.ExecTermList` | kernel/acpi/aml_eval.cpp:1062-1196 | The statement loop ends in the function's state |
| `Machine.EvalState.ExecIfOp` | kernel/acpi/aml_eval.cpp:1098-1146 | The taken branch, and the cursor behind both packages |
| `Machine.EvalState.RunLoop` | kernel/acpi/aml_eval.cpp:1147-1179 | The guarded While loop |
| `Machine.ReadLittleEndian` | kernel/acpi/aml_eval.cpp:608-644 | Or-ing shifted bytes is the little-endian number |
| `Machine.ScanString` | kernel/acpi/aml_eval.cpp:645-658 | The scan stops at the terminator, the end of the bytes or 255 characters |
| `Machine.CopyBytes` | kernel/acpi/aml_eval.cpp:685-693 | Copies the initialiser and leaves the rest zero |
| `Driver.AmlEvaluateRaw` | kernel/acpi/aml_eval.cpp:1224-1234 | Returns what the functional evaluation of the bytes returns and leaves the regions and the caller's argument array as it leaves them, on success and on failure |
| `Driver.EvaluateEntry` | kernel/acpi/aml_eval.cpp:1250-1284 | Runs a method body or evaluates Name data by kind, as the function does, leaving its arena and its regions behind |
| `Driver.AmlEvaluate` | kernel/acpi/aml_eval.cpp:1236-1285 | Fails for an unbound path and otherwise returns the object's value, which Api.EvaluateCorrect ties to its meaning; the regions are as the evaluation leaves them, failed or not |
| `Driver.AmlEvaluatePackageInts` | kernel/acpi/aml_eval.cpp:1300-1352 | Flattens the package's first integers while the arena is alive; the regions are as the evaluation leaves them, failed or not |
| `Sleep.AmlReadSleepPackage` | kernel/acpi/aml.cpp:400-600 | The reader with its stepped offsets returns the two bytes the function reads, for either spelling of the name, or fails; Sleep.SleepNames says whose bytes they are |
| `Sleep.SleepNames` | kernel/acpi/aml.cpp:400-440 | Asked for _S0 to _S5 the reader reads the object bound to that very name, padded, or if there is none the one bound to the three characters; for any other name it fails |
| `Sleep.MethodScan` | kernel/acpi/aml.cpp:486-548 | In a method it reads behind the first Return(Package) whose opcodes lie within sixteen bytes of the body's start and within the method |
| `Sleep.LocatePackage` | kernel/acpi/aml.cpp:472-548 | Finds the package behind a Name's segment or behind the first Return in the first sixteen body bytes |
| `Sleep.DecodePackage` | kernel/acpi/aml.cpp:549-599 | Skips the package length, wants at least two elements and reads the first two bytes |
| `Sleep.ReaderSees` | kernel/acpi/aml.cpp:549-599 | The reader succeeds exactly where an element count of at least two and two byte-sized integers lie in the table, and returns those two |
| `Sleep.LayoutIs` | kernel/acpi/aml.cpp:549-599 | Where that is, by the bytes: Package opcode, length bytes, a count of at least two, and twice Zero, One or a byte constant |
| `Sleep.NameAgrees` | kernel/acpi/aml.cpp:400-600 | For a Name with a bare segment wherever the reader succeeds: the evaluator fails exactly if the package's own length runs past the table, and flattens the reader's two integers if and only if it does not and the package's span covers each one that is not zero |
| `Sleep.MethodAgrees` | kernel/acpi/aml.cpp:400-600 | For a method whose body begins with Return(Package), wherever the reader succeeds: the evaluator fails exactly if the package's span or its element count runs past the method, and flattens the reader's two integers if and only if they do not and the span covers each one that is not zero |
| `Sleep.ReadSleepAgrees` | kernel/acpi/aml.cpp:400-600 | So for either form whatever the reader reads by name is what the evaluator flattens there, under exactly that condition |
| `Sleep.ShortSpanDiffers` | kernel/acpi/aml.cpp:400-600 | A table whose span is too short: the reader answers (5, 7), the evaluator (0, 0) |
| `Sleep.OverrunDiffers` | kernel/acpi/aml.cpp:400-600 | A table whose span covers both elements and runs past its end: the reader answers (5, 7), the evaluator fails |
| `Sleep.MethodOverrunDiffers` | kernel/acpi/aml.cpp:400-600 | A method that ends before the element count of its package: the reader answers (0, 0) from the bytes behind it, the evaluator fails |
| `Ec.AdvanceOwes` | kernel/acpi/ec.cpp:48-118 | Whatever the controller does on its own settles at most the one pending answer, behind those settled before it, and changes neither the others nor the memory |
| `Ec.SendOwes` | kernel/acpi/ec.cpp:60-118 | A request takes effect, on the memory or on the answers owed, when its last byte goes out and not before |
| `Ec.SoundKept` | kernel/acpi/ec.cpp:48-118 | The invariant holds across every step of either side, timeouts and the drain included, and no answer is dropped or changed |
| `Ec.FinishRight` | kernel/acpi/ec.cpp:60-118 | A call begun when nothing was owed ends with the right reply and a calm controller |
| `Ec.OldestRead` | kernel/acpi/ec.cpp:60-118 | A call begun while answers are owed reads the oldest of them |
| `Ec.EveryRun` | kernel/acpi/ec.cpp:48-118 | In every run from every controller state, however host and controller steps, events and timeouts interleave: the answers read are those asked for, in order; the memory is what the writes whose last byte went out make it; events are delivered once and in order; a call begun when nothing was owed has the right reply, and any other has the answer to the request as many places earlier as answers were owed |
| `Ec.DebtCount` | kernel/acpi/ec.cpp:60-118 | The answers owed are those owed at the start, plus one for each read or query given up after its last byte, less those drained: a call that succeeds does not pay the debt off |
| `Ec.QuietRun` | kernel/acpi/ec.cpp:48-118 | Without a timeout, from a calm controller, every read returns the byte at its address, every query the oldest event, memory is what the writes so far make it, and the controller is calm between calls |
| `Ec.LostAnswer` | kernel/acpi/ec.cpp:60-74 | From a calm controller the driver can get there: a read given up after its second byte makes the next read, of any address, return the first one's byte |
| `Ec.Completes` | kernel/acpi/ec.cpp:60-118 | From a calm controller every request can run to its end |
| `Ec.StatusBits` | kernel/acpi/ec.cpp:42-58 | Testing the OBF or IBF mask reads that flag, whatever the other status bits are |
| `Ec.Host.EcWait` | kernel/acpi/ec.cpp:48-58 | Polling ends the wait exactly when the awaited flag is seen, or gives the call up; the deadline is any number of polls |
| `Ec.Host.SendByte` | kernel/acpi/ec.cpp:64-69 | One wait and one byte: a step further, or the call given up with nothing sent |
| `Ec.Host.TakeByte` | kernel/acpi/ec.cpp:70-72 | The wait for OBF and the read of the oldest answer |
| `Ec.Host.EcReadByte` | kernel/acpi/ec.cpp:60-74 | From every controller state: a run of the system that leaves the memory; with nothing owed a success returns the byte at the address and leaves the controller calm, otherwise it returns the oldest answer owed and leaves its own; given up after the second byte it leaves its own answer owed, and before that nothing |
| `Ec.Host.EcWriteByte` | kernel/acpi/ec.cpp:76-92 | From every controller state: that byte changes if and only if the third byte went out, and the answers owed are as many as before |
| `Ec.Host.EcReadQueryByte` | kernel/acpi/ec.cpp:107-118 | With nothing owed a success returns the oldest pending event and removes it, or zero only if there was none; otherwise it returns the oldest answer owed |
| `Ec.Host.EcRegionHandler` | kernel/acpi/ec.cpp:124-148 | A region access out of range fails without touching a port; otherwise, with nothing owed, it reads or writes the window byte by byte, which is what the field engine assumes |
| `Ec.Host.ReadBytes` | kernel/acpi/ec.cpp:138-147 | The loop of byte reads assembles the window |
| `Ec.Host.WriteBytes` | kernel/acpi/ec.cpp:131-137 | The loop of byte writes scatters the value |
| `Ec.Host.AcpiEcInit` | kernel/acpi/ec.cpp:164-187 | Only the first call does anything; it reads at most one answer away, which leaves a controller calm that was calm or had one stale answer |
| `Sci.EveryRun` | kernel/acpi/acpi_sci.cpp:42-117 | In every interleaving of hardware raises, single handler accesses and worker takes: each raise is in exactly one place (status register, handler, latch or one taken record) with its bit set there, each set bit of a record stands for a raise in it, and between handler calls the enable bits are the original ones less the acknowledged ones |
| `Sci.HandledIsDelivered` | kernel/acpi/acpi_sci.cpp:42-117 | Everything raised before the handler was entered is latched or taken when it returns, and the next take delivers it |
| `Sci.TakenStays` | kernel/acpi/acpi_sci.cpp:231-237 | A delivered raise stays in its one record: nothing is delivered twice |
| `Sci.RunSound` | kernel/acpi/acpi_sci.cpp:42-117 | The invariant holds after every sequence of steps |
| `Sci.ClearedStatus` | kernel/acpi/acpi_sci.cpp:55-67 | A write-1-clear access clears exactly the bits it names and no enable bit |
| `Sci.MaskedEnable` | kernel/acpi/acpi_sci.cpp:82-83 | Masking clears exactly the acknowledged enable bits of that byte |
| `Sci.LatchHas` | kernel/acpi/acpi_sci.cpp:80 | Byte i of a block lands on bits 8i to 8i+7 of the 32-bit record, for i below 4 |
| `Sci.MergeHas` | kernel/acpi/acpi_sci.cpp:107-112 | The latch keeps what it has and gains what the handler saw |
| `Sci.Driver.SciHandler` | kernel/acpi/acpi_sci.cpp:42-117 | The handler's register accesses, with anything happening between them, are a path of the machine; it covers every bit raised before the call, and does nothing while inactive |
| `Sci.Driver.ScanPm` | kernel/acpi/acpi_sci.cpp:53-67 | Notes the power button and clears its bit in one PM1 register |
| `Sci.Driver.ScanGpe` | kernel/acpi/acpi_sci.cpp:74-97 | Notes, clears and masks every set bit of a block's status bytes |
| `Sci.Driver.AckGpe` | kernel/acpi/acpi_sci.cpp:81-83 | Clears the status bits, then the enable bits, of one byte |
| `Sci.Driver.AcpiSciTakePending` | kernel/acpi/acpi_sci.cpp:231-237 | Returns the latch and empties it in one step |
| `Fixed.RoundTrip` | kernel/apps/calculator.cpp:196-342 | Reading a formatted value gives it back without overflow, for every 64-bit value except -2^63 |
| `Fixed.TextSpells` | kernel/apps/calculator.cpp:196-258 | Every text is canonical (no leading zeros, at most six fraction digits, no trailing ones, no negative zero) and spells its value |
| `Fixed.TextUnique` | kernel/apps/calculator.cpp:196-258 | A canonical text is the text of the value it spells |
| `Fixed.TextSample` | kernel/apps/calculator.cpp:196-258 | -12345600 millionths are written -12.3456 |
| `Fixed.CanonicalRoundTrip` | kernel/apps/calculator.cpp:196-342 | Reading and formatting a canonical text in range gives the text back |
| `Fixed.ReadSpelled` | kernel/apps/calculator.cpp:280-342 | Reading any well-formed spelling gives what it spells, or overflow exactly if that is out of range |
| `Fixed.FormatFixed` | kernel/apps/calculator.cpp:196-258 | The digit loops write exactly the text and its terminator, or nothing at all if it is longer than the buffer |
| `Fixed.WholeDigits` | kernel/apps/calculator.cpp:212-227 | The whole part's digits, last one first |
| `Fixed.FracDigits` | kernel/apps/calculator.cpp:229-239 | The six fraction digits and how many stay without trailing zeros |
| `Fixed.PutText` | kernel/apps/calculator.cpp:245-257 | Sign, reversed whole part, point and fraction in place |
| `Fixed.ReadDisplayAsFixed` | kernel/apps/calculator.cpp:280-342 | The two loops over the display compute the reading function, with its overflow flag |
| `Fixed.MulExact` | kernel/apps/calculator.cpp:358-375 | The product is accepted exactly if the truncated quotient of a*b by 10^6 and the partial product of a's remainder with b fit 64 bits, and is then that quotient |
| `Fixed.MulCommutes` | kernel/apps/calculator.cpp:358-375 | Two accepted products with the factors exchanged are equal |
| `Fixed.MulOrderMatters` | kernel/apps/calculator.cpp:358-375 | Acceptance is not symmetric: 0.999999 * 9300000 is rejected, 9300000 * 0.999999 accepted |
| `Fixed.DivExact` | kernel/apps/calculator.cpp:379-386 | A quotient is accepted if and only if the scaled dividend fits 64 bits, and is then the truncated one, never -2^63 |
| `Fixed.IntSqrt` | kernel/apps/calculator.cpp:713-732 | Returns the floor square root, cut off at 2^31, for every non-negative 64-bit input, and -1 for a negative one; every square, sum and iterate it forms is typed as a 64-bit number |
| `Fixed.SearchFits` | kernel/apps/calculator.cpp:719-731 | At every iterate x of the search, x*x and x + v/x are within 64 bits |
| `Fixed.Double` | kernel/apps/calculator.cpp:719-721 | The doubling loop ends at or above the root with a square past the input, or at 2^31, and x*x and x + v/x are then within 64 bits |
| `Fixed.NewtonStays` | kernel/apps/calculator.cpp:722-728 | No Newton step falls below the root |
| `Fixed.SqrtExactIff` | kernel/apps/calculator.cpp:713-732 | The result is the exact floor root if and only if the input is below (2^31+1)^2 |
| `Fixed.SqrtOfNineMillion` | kernel/apps/calculator.cpp:713-732 | The square root of 9000000 is computed as 2147.483648 instead of 3000 |
| `Calculator.ChainShows` | kernel/apps/calculator.cpp:390-567 | Typing operands joined by + - * / and ending in = after C shows what the steps give from left to right, each the sum, difference, product or quotient of its two operands by an arithmetic relation, or ERR from the first step that is rejected or does not fit |
| `Calculator.RestShows` | kernel/apps/calculator.cpp:390-567 | From any point in the chain on, the keys left compute the fold of the steps left, which Calculator.FoldGives ties to arithmetic |
| `Calculator.FoldGives` | kernel/apps/calculator.cpp:390-472 | The fold is what the steps give: r - b = a for a sum, r + b = a for a difference, the truncated product and quotient, and their exact acceptance |
| `Calculator.CombineGives` | kernel/apps/calculator.cpp:390-472 | The pending operation gives one such step |
| `Calculator.StepUnique` | kernel/apps/calculator.cpp:390-472 | A step gives one result only |
| `Calculator.ChainUnique` | kernel/apps/calculator.cpp:390-567 | And so does the chain, so the display is determined by the arithmetic |
| `Calculator.ErrorStays` | kernel/apps/calculator.cpp:474-567 | ERR stays whatever is pressed other than C and CE |
| `Calculator.ClearForgets` | kernel/apps/calculator.cpp:569-577 | After C no earlier key matters: any two histories continue alike |
| `Calculator.ClearEntryRetypes` | kernel/apps/calculator.cpp:583-591 | CE takes back the operand being typed and nothing else: wrong operand, CE, right operand and any further keys end in the state of the right operand and those keys |
| `Calculator.ClearEntryAfterError` | kernel/apps/calculator.cpp:459-467 | CE after an error keeps accumulator and operator if and only if the error came from reading the display; a rejected operation has lost both |
| `Calculator.EnteredExact` | kernel/apps/calculator.cpp:474-531 | Whatever digits and points are typed, the operand read is exactly what the display spells |
| `Calculator.TypedNumber` | kernel/apps/calculator.cpp:474-531 | Typing a number that fits the display, with or without a point, enters that number |
| `Calculator.TypeStep` | kernel/apps/calculator.cpp:474-531 | Each key typed keeps the entry a number of at most sixteen characters and six decimals, appends the digit or point while there is room, and never drops what is shown |
| `Calculator.FreshNumber` | kernel/apps/calculator.cpp:474-531 | Where an entry starts, a number typed replaces what is shown and touches neither accumulator nor operator |
| `Calculator.KeyGives` | kernel/apps/calculator.cpp:533-567 | In any state = and the operators apply the pending operation, by the arithmetic relation, to the value shown, just typed or not, and the result is shown, kept as left operand and replaced by the next entry |
| `Calculator.ResultCarriesOn` | kernel/apps/calculator.cpp:533-550 | An operator pressed on a shown result takes that result, exactly, as its left operand |
| `Calculator.MinTooLong` | kernel/apps/calculator.cpp:262-273 | The one value without a negation is too long for the display |
| `Calculator.SqrtShows` | kernel/apps/calculator.cpp:737-762 | The square-root key shows the root to the millionth below if and only if the scaled value is below (2^31+1)^2 |
| `Calculator.SqrtKey` | kernel/apps/calculator.cpp:737-762 | It shows ERR if and only if the value is negative or leaves 64 bits when scaled, and the pending operation waits |
| `Calculator.Keypad.SetDisplayLiteral` | kernel/apps/calculator.cpp:173-183 | The display is the literal, cut at 16 characters |
| `Calculator.Keypad.SetDisplayFixed` | kernel/apps/calculator.cpp:262-273 | The display is the value's text, or ERR if it does not fit |
| `Calculator.Keypad.ApplyPending` | kernel/apps/calculator.cpp:390-472 | Accumulator, pending operator, display and error flag after the pending operation, the accumulator being the sum, difference, product or quotient by the arithmetic relation |
| `Calculator.Keypad.HandleDigit` | kernel/apps/calculator.cpp:474-501 | A digit starts or extends the entry unless the display or the fraction is full |
| `Calculator.Keypad.HandleDot` | kernel/apps/calculator.cpp:506-531 | A point starts a fraction once, with a leading zero on an empty entry |
| `Calculator.Keypad.HandleOp` | kernel/apps/calculator.cpp:533-550 | Applies the pending operation and makes the new operator pending |
| `Calculator.Keypad.HandleEquals` | kernel/apps/calculator.cpp:552-567 | Applies the pending operation and leaves none |
| `Calculator.Keypad.HandleClear` | kernel/apps/calculator.cpp:569-577 | The cleared state |
| `Calculator.Keypad.HandleClearEntry` | kernel/apps/calculator.cpp:583-591 | The cleared entry |
| `Calculator.Keypad.HandleSqrt` | kernel/apps/calculator.cpp:737-762 | The square-root key's effect |
| `Calculator.Keypad.DispatchKey` | kernel/apps/calculator.cpp:856-870 | Each modelled key character has its key's effect |
| `Dates.ZellerIsOrdinal` | kernel/apps/calendar.cpp:55-66 | Zeller's congruence is the Gregorian day number modulo seven |
| `Dates.OrdinalNext` | kernel/apps/calendar.cpp:68-93 | The day number grows by one from each date to the next, across months, leap days and years |
| `Dates.WeekdayAdvances` | kernel/apps/calendar.cpp:55-66 | The computed weekday advances by one modulo seven across every date boundary |
| `Dates.Step` | kernel/apps/calendar.cpp:98-124 | Stepping with truncating division is floor arithmetic on months, held at January 1 and December 9999 |
| `Dates.StepExact` | kernel/apps/calendar.cpp:98-124 | A step that is not held moves exactly that many months, and stepping back undoes it |
| `Dates.CellOrdinal` | kernel/apps/calendar.cpp:547-590 | Every one of the 42 cells is a valid date, and their day numbers are consecutive |
| `Dates.CellColumn` | kernel/apps/calendar.cpp:547-590 | A cell's column is its day of the week |
| `Dates.CellNext` | kernel/apps/calendar.cpp:547-590 | Each cell shows the day after the one before it |
| `Dates.EachDayOnce` | kernel/apps/calendar.cpp:547-590 | Each day of the viewed month is in exactly one cell |
| `Dates.ConsecutiveIff` | kernel/apps/calendar.cpp:547-590 | The grid shows consecutive days if and only if the view is neither January of year 1 nor December of 9999 |
| `Dates.FirstView` | kernel/apps/calendar.cpp:98-124 | The grid of January of year 1 begins with a second 31 January |
| `Dates.LastView` | kernel/apps/calendar.cpp:98-124 | The grid of December 9999 runs on with December again |
| `Dates.FillGrid` | kernel/apps/calendar.cpp:558-590 | The drawing loops visit the 42 cells in order |
| `Dates.CellAt` | kernel/apps/calendar.cpp:684-714 | Clicking uses the same cell arithmetic as drawing |
| `Dates.StepByDays` | kernel/apps/calendar.cpp:861-933 | Stepping a date moves exactly that many days if and only if the target is within years 1 to 9999 |
| `Dates.PreviousDay` | kernel/apps/calendar.cpp:905-926 | The day before, whose successor is the given day |
| `Dates.ForwardIsNext` | kernel/apps/calendar.cpp:882-904 | A step forward is the next day, except that 31 December 9999 is followed by 1 January 9999 |
| `Events.RoundTrip` | kernel/apps/calendar.cpp:1389-1504 | Loading a saved table of up to 64 events restores it in order, and no event is dropped or cut for lack of buffer |
| `Events.RoundTripIff` | kernel/apps/calendar.cpp:1389-1504 | A table survives saving and loading if and only if every year has at most four digits and no text contains a newline |
| `Events.SaveWhole` | kernel/apps/calendar.cpp:1401-1421 | The buffer cap is never reached by a table whose years have at most six digits |
| `Events.CapReached` | kernel/apps/calendar.cpp:1401-1421 | It is by a full table of full texts with longer years: an event is dropped or cut |
| `Events.LineBack` | kernel/apps/calendar.cpp:1482-1500 | Loading a saved line adds the event it was saved from |
| `Events.LineSpells` | kernel/apps/calendar.cpp:1404-1420 | A saved line spells year, month and day in four, two and two digits, then the text |
| `Events.LineGrammar` | kernel/apps/calendar.cpp:1482-1500 | Loading a line adds an event if and only if the table has room and the line is a date of four, two and two digits that is accepted, a tab and a text that is not empty; the event is that date and the text up to its terminator or 56 characters |
| `Events.LoadLines` | kernel/apps/calendar.cpp:1475-1503 | A file is loaded line by line: the first line, then the rest onto what it gave, with or without a newline at the end |
| `Events.LoadPlain` | kernel/apps/calendar.cpp:1475-1503 | Whatever the file holds, loading gives a well-formed table |
| `Events.EmitU32` | kernel/apps/calendar.cpp:1354-1370 | Writes the zero-padded decimal, as far as there is room |
| `Events.SaveLine` | kernel/apps/calendar.cpp:1404-1420 | Writes an event's line, as far as there is room |
| `Events.ParseU32` | kernel/apps/calendar.cpp:1372-1385 | Accepts exactly non-empty digit strings and returns their value |
| `Events.WithoutExact` | kernel/apps/calendar.cpp:1206-1226 | Removing a day's events takes away every event with that year, month and day and leaves every other event as often as it was there |
| `Events.WithoutParts` | kernel/apps/calendar.cpp:1206-1226 | And in its order |
| `Events.WithoutHas` | kernel/apps/calendar.cpp:1206-1239 | After removing a day it has no event, and every other day has one exactly if it had one |
| `Events.AddedHas` | kernel/apps/calendar.cpp:1189-1239 | After adding an event its own day has one, and every other day has one exactly if it had one |
| `Events.DateAccepted` | kernel/apps/calendar.cpp:185-190 | Every real date is accepted, and beside them exactly the days up to 31 of the shorter months |
| `Events.EventStore.AddEvent` | kernel/apps/calendar.cpp:1189-1204 | Succeeds exactly for an accepted date, a text that is not empty and a table with room; then appends the event with its text up to the terminator or 56 characters, and otherwise leaves the table |
| `Events.EventStore.RemoveEvents` | kernel/apps/calendar.cpp:1206-1226 | Compacts the table in place to the events of other days, in order (Events.WithoutExact, Events.WithoutParts, Events.WithoutHas), and returns how many went |
| `Events.EventStore.HasEvent` | kernel/apps/calendar.cpp:1228-1239 | True exactly if the day is valid and some event has its year, month and day |
| `Events.EventStore.Save` | kernel/apps/calendar.cpp:1401-1421 | The buffer loops write what the save function says |
| `Events.EventStore.Load` | kernel/apps/calendar.cpp:1475-1503 | The line loop leaves the table the load function says |
| `Events.EventStore.LoadLine` | kernel/apps/calendar.cpp:1482-1500 | One line of the file, malformed ones ignored |

## Left out

- Port and MMIO instructions, serial output, logging, probes and panics: ports and memory are bytes of a `World` or registers of a device model.
- Clocks: Stall and Sleep in AML are skipped, and each polling deadline is an arbitrary number of polls.
- The Rust namespace walker and ACPI table discovery: namespace, region and field tables are given, with one binding per path; `Tables.TableOf` returns the mapped table or None.
- Region spaces other than SystemMemory, SystemIO and EmbeddedControl have no handler in the source, so a read fails and a write is dropped.
- The direct map carries seven bytes past its nominal end in `Regions.World`, for a wide access that starts just below the end.
- Interp.Eval: a Name whose value is a name is evaluated only if that goes down a rank given with the namespace, and sets a marker otherwise; a ranking under which nothing sets it exists if and only if no Names refer to each other in a circle (`Acyclic.EndsIffNoCircle`), and in a circle the source's recursion uses up neither calls nor arena.
- Acyclic.EvalFree: Names hold data objects (constants, strings, buffers and packages, or names not bound to methods with parameters), as the DataRefObject grammar has it; a buffer or variable package there has a constant length.
- Interp.Eval: CondRefOf looks at the byte behind its name before testing the bound; the model tests first, so the one read past the end is not modelled.
- Driver.AmlEvaluateRaw: outside arguments are no Packages, whose elements would lie in another evaluation's arena. A body's access to ArgN beyond a shorter outside array, undefined in the source, goes to a place the caller does not see.
- Simulate.EvalSim: speaks of terms that have a meaning; `Defined.SemDefined` says which do, and a call that is too deep, has the wrong number of arguments or reaches an object not compiled from these trees has none. The trees do not contain strings over 255 bytes, behind which the cursor stays inside the string, nor definitions inside methods, which the interpreter refuses.
- Sleep.NameAgrees: speaks of bare NameSegs and of Zero, One and byte elements, the forms the reader accepts.
- Ec.EveryRun: the controller's memory changes only by writes; sensors that change it on their own are not modelled.
- AcpiEcDispatchPendingQuery, which builds `\_GPE._Qxx` and evaluates it, would only add a name formatter.
- Sci.EveryRun: one handler runs at a time, GPE blocks have at most four status bytes (the record is 32 bits wide), and AcpiSciInit's arming and IOAPIC routing are not modelled.
- Fixed.FormatFixed: excludes -2^63, whose negation is undefined in C++; `Calculator.Keypad` methods exclude key presses that would format it, and the pure functions treat it as too long to show.
- Calculator bitwise, shift, percent, sign, backspace, square, reciprocal, factorial and memory keys: more of the same straight-line cases, some with unguarded overflow.
- Calendar painting, mouse hit-testing, RTC and the FAT32 create, rename and read calls: the file is a character sequence.
- Battery, lid and backlight readers, the browser and the other applications, and the UEFI loader are not part of this model.
