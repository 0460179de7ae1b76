# Models of an assembler's middle

Dafny models, with proofs, of the part of the assembler that carries meaning: everything between parsed
statements and object bytes. Each module names the source file it models.

- **x86-64** (`X86Merge`, `X86Layout`, `X86Materialize`, `X86Fold`, `X86Meaning`, `X86Assemble`): subsection
  streams are merged, branches relaxed by a grow-only fixed point, sections written against the chosen sizes, and
  every reference patched, folded into a section symbol, or kept. End to end, each data field and branch of the
  folded object links to what the source asked for.
- **Expressions** (`Expr`, `ExprComplete`, `Resolver`, `SetScope`): the classifier keeps the value of a tree for
  every choice of link-time addresses and calls nothing illegal that has a form; the explicit-stack `.set` resolver
  refines recursive evaluation; the emission cursor follows its scoping.
- **Two-pass ARM64 assembler** (`Layout`, `LayoutRun`, `Assembler`, `SectionBases`, `Bisection`, `Cfi`,
  `CompactUnwind`): layout and emission are separate methods over one class and are proved to agree statement by
  statement, down to the bytes at each place and the `.set` values in force there; addresses, overflow bisection, DWARF
  call-frame instructions, compact unwind encodings and the generated unwind sections are proved exact.
- **Mach-O data** (`MachoData`, `MachoLate`): end to end, after both passes and the data fixups every element of every
  data directive links to its expression's value under the values of its own place; a four-byte GOT element, which is
  read again, to that under the values at the end.
- **Mach-O writer** (`MachoStrings`, `MachoRelocs`, `MachoPlan`, `MachoWriter`): suffix sharing, relocation pairs
  through the stable sort, and a file whose load commands lead to what was written.
- **ELF writer and reader** (`ElfWire`, `ElfObject`, `ElfReader`, `ElfFile`, `ElfEntries`, `ElfWriter`): they undo
  each other up to a stable locals-first permutation of symbols.
- **Logical immediates** (`LogicalImmediate`): the search against the architecture's decoder.
- `Words` and `Sorting` hold machine words, little-endian fields and stable sorting.

Code that updates state is a class or a method with loops, proved against functions on values; the lemmas then say what
those functions mean. Some expectations one could have of the code are false; each has its input and the condition under
which it holds:

- the triple found for a logical immediate is not the only one (`NotUnique`); it is exactly for 64-bit immediates whose
  halves differ (`UniqueExactly`, `WideExactly`);
- relaxation need not be least when an alignment item stands between a branch and its label
  (`AlignmentBreaksLeastness`); it stays below a valid sizing exactly when every branch that sizing keeps short is in
  reach in every round (`LeastExactly`), for which it suffices that no alignment item can decide whether a branch
  reaches (`SteadySpans`, `RelaxationIsLeast`);
- an advance of 65536 to 65598 bytes is not the shortest possible (`AdvanceShortest`, exact);
- a four-byte GOT element is read under the values at the end of the run, not those of its place: `.set k, 1`,
  `.word f@GOT - . + k`, `.set k, 2` links it to the value for k = 2 (`ReadTooLate`, `AssembleLate`). It has its own
  place's value exactly when its addend is the same at the end modulo 2^32 (`OwnValueExactly`), as it is when no later
  `.set` gives a name it mentions another value (`KeptNamesSuffice`);
- the ELF writer's bounds check misses relocations whose end wraps past 2^64 (`WrappedEndAccepted`, `RelaChecked`, exact);
  such an object is written and read back like any other. The reader panics on a section header whose offset plus size
  wraps back into the file (`WrappedHeaderPanics`, `SliceExactly`, exact). Both are stated for overflow checks turned off,
  where sums wrap.

The two assembler passes also differ in what they accept: emission caps `.fill` at 64 MB and classifies data elements,
layout does neither, so `AssembleLocated` fails exactly when such a statement exists (`Accepted`).

Assumed throughout: coefficients and 128-bit sums do not overflow, streams merged into one x86 section share type and flags
(`MergeInput`), instruction bytes and the relocated fields inside them come from the encoder (`EncoderOk`), and names hold
no NUL byte where a string table is built.

## Model
| member | source | states |
|---|---|---|
| X86Merge.MergeSubsections | src/x86/assemble.rs:120-168 | merging yields the sections in order of first use, each the concatenation of its streams by subsection number and then source order, and maps every stream to its section |
| X86Merge.MembersOrdered | src/x86/assemble.rs:120-168 | a section’s streams are all its streams, each once, ordered by number and then by source order |
| X86Merge.MergeConservesStreams | src/x86/assemble.rs:120-168 | every stream’s items are one contiguous run of its section, every label still denotes the same item boundary, and the section’s alignment bounds the stream’s |
| X86Merge.MergeKeepsOrder | src/x86/assemble.rs:120-168 | runs of different streams do not overlap and appear by number, then source order |
| X86Merge.MergeAddsNothing | src/x86/assemble.rs:120-168 | the merged section has exactly its streams’ items and labels, and its alignment is one of theirs or zero |
| X86Merge.SectionTable | src/x86/assemble.rs:120-168 | the processing order is a permutation of the streams and every stream finds a section of its own name |
| X86Layout.AlignPad | src/x86/assemble.rs:1629-1655 | a padding below the alignment and within the maximum skip that reaches a multiple of the alignment, or none; without a maximum skip it always reaches one |
| X86Layout.PadReaches | src/x86/assemble.rs:1629-1655 | whenever some padding within the maximum skip reaches a multiple, the padding chosen does, and is the least that does |
| X86Layout.ComputeOffsets | src/x86/assemble.rs:672-697 | the sizing walk returns every item offset of a sizing, or its first overflow |
| X86Layout.Relax | src/x86/assemble.rs:655-724 | the loop computes the fixed point `Relaxed` from all-short |
| X86Layout.GrowMakesProgress | src/x86/assemble.rs:698-723 | a round only lengthens branches, and one that changes anything leaves strictly fewer short ones |
| X86Layout.RoundsBounded | src/x86/assemble.rs:655-724 | the loop takes at most one round more than there are short relaxable branches |
| X86Layout.RelaxedIsValid | src/x86/assemble.rs:655-724 | at exit every short branch fits in eight bits, sizes do not overflow, and only local branches were lengthened |
| X86Layout.RelaxationIsLeast | src/x86/assemble.rs:655-724 | when between every relaxable branch and its label stands no alignment item, or the branch reaches at the largest or misses even at the smallest size of what is between: if any valid sizing exists the loop succeeds, and its long branches are long in every valid sizing |
| X86Layout.AlignmentBreaksLeastness | src/x86/assemble.rs:655-724 | without that condition leastness fails: a stream with a `.p2align` in front of the label `near`, whose branch is lengthened although a valid sizing keeps it short |
| X86Layout.LeastExactly | src/x86/assemble.rs:655-724 | the loop stays below a valid sizing exactly if every branch that sizing keeps short is in reach of its label in every round |
| X86Materialize.FillNops | src/x86/assemble.rs:1657-1682 | padding of any length is the remainder NOP followed by eleven-byte NOPs |
| X86Materialize.EmitData | src/x86/assemble.rs:816-926 | a data item’s fields in order, and the position behind them |
| X86Materialize.BranchDecodes | src/x86/assemble.rs:941-1011 | a written branch decodes as one jump of its kind that ends with its bytes: to its label’s final offset when local, else to the next instruction under one PLT32 relocation of the displacement with addend -4; it is refused exactly when the displacement or the relocation’s offset does not fit |
| X86Materialize.Materialize | src/x86/assemble.rs:726-1041 | the emission walk computes the image, the section size, the `.size` positions and the NOP ranges of the sizing it was given |
| X86Materialize.ItemAtOffset | src/x86/assemble.rs:786-1040 | item i occupies exactly the bytes between its sizing-walk offset and the next, with its relocations |
| X86Materialize.RelocsFromItems | src/x86/assemble.rs:786-1040 | every relocation of the image comes from an item |
| X86Materialize.ShortBranchesAlwaysFit | src/x86/assemble.rs:966-971 | after relaxation the error for an oversized short displacement cannot occur |
| X86Materialize.BranchLandsOnLabel | src/x86/assemble.rs:941-984 | decoding the code at a local branch gives the branch kind, its length and the final offset of its label |
| X86Fold.Folder.AddLabels | src/x86/assemble.rs:1225-1260 | the symbols appended are exactly those of the visible labels, in order, each at its label’s final place; `.L` temporaries stay out unless exported |
| X86Fold.Folder.SectionSymbol | src/x86/assemble.rs:1466-1477 | the index of a symbol that stands for the section’s start |
| X86Fold.Folder.ExternalSymbol | src/x86/assemble.rs:1498-1520 | the index of a symbol for the undefined name |
| X86Fold.Folder.FoldOne | src/x86/assemble.rs:1413-1539 | one reference is patched in place, turned into section symbol plus offset, or kept; it is refused exactly for the reason `Refusal` gives |
| X86Fold.Folder.FoldSection | src/x86/assemble.rs:1413-1539 | every reference of the section is settled and no other byte changes; it fails exactly when some reference is refused |
| X86Fold.Folder.FoldAll | src/x86/assemble.rs:1413-1539 | the same for all sections; with exported labels entered a missing symbol is impossible |
| X86Fold.RefusalKnown | src/x86/assemble.rs:1488-1497 | a symbol is never missing once every exported label has one |
| X86Fold.FoldedAddend | src/x86/assemble.rs:1478-1486 | folding an offset into a wrapping addend is invisible modulo any field of up to eight bytes |
| X86Fold.SettledMeaning | src/x86/assemble.rs:1413-1539 | a settled reference links to what one symbol relocation would store, modulo the field width |
| X86Fold.FoldingPreservesMeaning | src/x86/assemble.rs:1413-1539 | for every section base and external address, each supported reference of the folded section links to the value of its own symbol relocation, modulo the field width |
| X86Meaning.ImageWithin | src/x86/assemble.rs:786-1040 | the pending relocations of a section are disjoint fields inside it |
| X86Meaning.FieldMeaning | src/x86/assemble.rs:816-926 | a data field is stored with its meaning or relocated by one entry that means the same, label differences included |
| X86Meaning.WrappedDifferenceExact | src/x86/assemble.rs:862-872 | the wrapping 64-bit difference of two offsets is exact modulo the field width |
| X86Meaning.RelocatedDifference | src/x86/assemble.rs:889-905 | a difference kept as a PC-relative relocation means minuend minus subtrahend plus addend |
| X86Meaning.DataFieldLinks | src/x86/assemble.rs:816-926 | end to end: every data field of the folded object links to the value the source asked for, modulo the field width |
| X86Meaning.FarBranchReaches | src/x86/assemble.rs:985-1011 | a branch to a name outside the stream links to a displacement that reaches the name |
| X86Assemble.LayOutSection | src/x86/assemble.rs:654-1055 | one section is relaxed and written; an error is the sizing walk’s or comes from writing the relaxed section, never an oversized short branch |
| X86Assemble.LayOut | src/x86/assemble.rs:648-1055 | all sections are laid out with one label table that agrees with the offsets each used |
| X86Assemble.Assemble | src/x86/assemble.rs:634-1539 | on success the definitions folding used are the given commons, exported names and `.bss` section and exactly the sections’ labels at their final offsets, and every section that occupies file space satisfies what `DataFieldLinks`, `FarBranchReaches` and `BranchLandsOnLabel` need; every error has its cause in some section |
| X86Assemble.EnterLabels | src/x86/assemble.rs:1226-1260 | section by section the visible labels’ symbols are appended, and every exported label has one before folding starts |
| X86Assemble.AssembleStreams | src/x86/assemble.rs:120-1539 | streams are merged, laid out and folded under exactly the given definitions; on success every section that occupies file space is laid out and folded as `StreamFieldLinks` asks, a folding error is the refusal of some reference |
| X86Assemble.StreamFieldLinks | src/x86/assemble.rs:120-1539 | end to end: every data field of every subsection stream stands behind the streams merged in front, the items before it and the fields before it, and links there, for every link, to the value its source asked for, modulo the field width |
| X86Assemble.MergedIsInput | src/x86/assemble.rs:120-168 | merged sections meet every assumption of the later stages |
| Expr.PushEntry | src/expr.rs:356-370 | a term is merged into the first entry for its item or appended |
| Expr.Accumulator.Walk | src/expr.rs:289-344 | the recursive walk updates constant and terms as `Linearize` says, and fails exactly on overflow |
| Expr.LinearizeMeaning | src/expr.rs:289-344 | a linearised tree has the tree’s value under every valuation, and lists every term once |
| Expr.SplitTerms | src/expr.rs:148-181 | terms are split into constant, GOT terms, location, section groups and the rest as `Split` says |
| Expr.SplitMeaning | src/expr.rs:148-181 | splitting keeps the value of the linear sum and groups terms by their section |
| Expr.TotalGroups | src/expr.rs:183-212 | group totals and anchors as `SumGroups` says |
| Expr.SumGroupsMeaning | src/expr.rs:183-212 | totals plus one weighted base per anchor give the groups’ value for every assignment of bases |
| Expr.ChooseAnchors | src/expr.rs:398-442 | the anchors chosen are those of `SelectAnchors` |
| Expr.PickOneFirst | src/expr.rs:398-442 | the chosen anchor is the first candidate whose adjusted constant fits in 64 bits; failure means none fits |
| Expr.PickTwoFirst | src/expr.rs:398-442 | two anchors: the first viable pair in lexicographic order; failure means no pair is viable |
| Expr.SelectMeaning | src/expr.rs:398-442 | re-anchoring keeps the value for every assignment of bases |
| Expr.FinishMeaning | src/expr.rs:214-273 | the final form has the value of the reduced sum |
| Expr.ClassifyWithLookup | src/expr.rs:132-273 | the loops compute `Classify` |
| Expr.ClassifyMeaning | src/expr.rs:132-273 | for every choice of section bases, undefined-symbol addresses, GOT slots and location, an accepted form has exactly the value of the expression |
| Expr.ChooseForm | src/expr.rs:214-273 | the last step as `Finish` says: a GOT form if GOT terms or the location are left, else one of the plain forms |
| Expr.PointerStays | src/expr.rs:132-273 | under another symbol table a GOT form stays one, of the same symbol and kind |
| Expr.PointerShift | src/expr.rs:132-273 | its two values differ, for every link, by as much as the addends |
| ExprComplete.FinishComplete | src/expr.rs:214-273 | if some form has the slopes of a reduced sum, the last step finds one |
| ExprComplete.FormFound | src/expr.rs:132-273 | if some form has the slopes of the tree, classification does not call the tree illegal |
| ExprComplete.IllegalHasNoForm | src/expr.rs:132-273 | when classification calls an expression illegal, every form differs from it for some link-time values |
| Resolver.BuildPositions | src/expr.rs:560-594 | every name maps to exactly the indices at which it is assigned |
| Resolver.DependencyScope | src/expr.rs:595-618 | a reference means the latest earlier definition, else the first at or after, else the symbol table |
| Resolver.PriorDefinition | src/expr.rs:595-618 | with an earlier definition the latest one is chosen |
| Resolver.LaterDefinition | src/expr.rs:595-618 | without an earlier definition the first later one is chosen |
| Resolver.NoDefinition | src/expr.rs:595-618 | a name never assigned comes from the symbol table or is missing |
| Resolver.EvalMonotone | src/expr.rs:620-745 | recursive evaluation that succeeds at a depth gives the same value at every larger depth |
| Resolver.EvaluatesOnce | src/expr.rs:620-745 | recursive evaluation has at most one value |
| Resolver.CycleNeverEvaluates | src/expr.rs:635-692 | an assignment on a cycle has no value at any depth |
| Resolver.EvaluatesAcyclic | src/expr.rs:635-692 | everything reachable from an assignment that evaluates is off every cycle |
| Resolver.BlamedNeverEvaluates | src/expr.rs:620-745 | an assignment with a blamed error has no value at any depth |
| Resolver.CycleBlamed | src/expr.rs:668-677 | reaching an assignment that is being visited means it lies on a cycle that every frame of the stack reaches |
| Resolver.AssignmentResolver.EvaluateAssignment | src/expr.rs:694-745 | the outcome of the first failed reference, or that of the expression under the resolved values |
| Resolver.AssignmentResolver.Drain | src/expr.rs:668-677 | every frame of the stack gets the error and nothing else changes |
| Resolver.AssignmentResolver.Step | src/expr.rs:646-692 | one round keeps every recorded outcome justified and makes progress |
| Resolver.AssignmentResolver.ResolveAssignment | src/expr.rs:635-692 | the search ends with the root resolved and every outcome justified |
| Resolver.AssignmentResolver.ResolveAll | src/expr.rs:620-633 | every assignment is resolved; a value is what recursive evaluation gives, an error names its cause, a cycle error an assignment on a real cycle |
| Resolver.JustifiedExplains | src/expr.rs:620-745 | justified outcomes are explained: a value exactly when recursive evaluation has it, and every error by its cause |
| Resolver.ResolveAbsoluteAssignments | src/expr.rs:520-525 | the entry point’s results are explained in the same sense |
| Resolver.ResolvedMeaning | src/expr.rs:694-745 | a resolved value is the expression’s value for every link, read as a signed 64-bit number |
| SetScope.SetCursor.Prepare | src/assemble.rs:945-1027 | the list, with aliases as zero, is resolved and every name’s first and last values are recorded; each value is what recursive evaluation gives, a failure names a blamed assignment |
| SetScope.SetCursor.Reset | src/assemble.rs:894-919 | emission starts with every name bound to its first value |
| SetScope.SetCursor.Activate | src/assemble.rs:2727-2753 | a `.set` rebinds its name to its own value, unless it is an alias, and advances the cursor; it fails exactly when it is not the next assignment |
| SetScope.ScopeAdvances | src/expr.rs:595-618 | moving past an assignment changes the scope of its own name only |
| SetScope.ActivateBound | src/assemble.rs:2727-2753 | activating an assignment makes the values right for the next position |
| SetScope.FirstValuesBound | src/assemble.rs:997-1027 | the initial values bind every name that is never an alias to what the resolver’s scoping picks at position zero |
| SetScope.BoundEverywhere | src/assemble.rs:2727-2753 | after any number of activations every name that is never an alias has the value of the assignment in scope there |
| SetScope.ValueKept | src/assemble.rs:2727-2753 | a name that later assignments give no other value has that value at every later point |
| SetScope.ClassifyAgrees | src/expr.rs:132-273 | classification depends only on the symbols the expression mentions |
| SetScope.SequentialRun | src/expr.rs:620-745 | when no assignment refers forward, the resolver agrees with executing the list in order |
| Cfi.RecordedReplays | src/assemble.rs:1505-1585 | replaying the recorded event has the effect of the directive |
| Cfi.CfiProc.Apply | src/assemble.rs:1505-1585 | a directive is refused exactly when its rule is; otherwise one event is recorded and replaying all events gives the tracked rules |
| Cfi.RunDirectives | src/assemble.rs:1505-1585 | a procedure’s events stand at their code offsets in order, and the tracked rules or the error are those of the directives in turn |
| Cfi.EncodeUleb128 | src/assemble.rs:3938-3950 | the loop appends the ULEB128 form (DWARF 5, section 7.6) |
| Cfi.UlebRoundTrip | src/assemble.rs:3938-3950 | decoding reads back the number and its length, whatever follows |
| Cfi.UlebLength | src/assemble.rs:3938-3950 | a number below 2^(7n) takes at most n bytes |
| Cfi.OpRoundTrip | src/assemble.rs:3904-3936 | decoding an encoded operation gives it back (DWARF 5, section 7.24, data alignment -8) |
| Cfi.AdvanceRoundTrip | src/assemble.rs:3882-3902 | decoding an encoded advance moves the location by the delta |
| Cfi.EventsRoundTrip | src/assemble.rs:733-752 | decoding the instruction bytes gives exactly the recorded events at their code offsets |
| Cfi.EncodableExactly | src/assemble.rs:733-752 | encoding succeeds for exactly the lists whose steps fit 32 bits and whose save offsets are positive multiples of eight |
| Cfi.EmitAdvanceLoc | src/assemble.rs:3882-3902 | the appended bytes are at most one instruction, advance by exactly the delta, and no single instruction that does is shorter; refused exactly for deltas past 32 bits |
| Cfi.AdvancesDecode | src/assemble.rs:3882-3902 | a sequence of advances moves the location by their sum, whatever follows |
| Cfi.AdvanceShortest | src/assemble.rs:3882-3902 | no sequence of advances that goes as far is shorter, exactly unless the delta is 65536 to 65598, where two instructions save a byte |
| Cfi.EmitCfiOp | src/assemble.rs:3904-3936 | the appended bytes decode to the operation, whatever follows; refused exactly for a save slot that is no positive multiple of eight |
| Cfi.EhFrameInstructions | src/assemble.rs:733-752 | the bytes of a procedure decode to its events; it fails exactly when the list is not encodable |
| CompactUnwind.EncodePairs | src/assemble.rs:654-676 | a result describes exactly the saved pairs; none means no bit pattern does |
| CompactUnwind.BitsForced | src/assemble.rs:654-676 | the pair bits of any complete description agree with those already chosen |
| CompactUnwind.PairRefused | src/assemble.rs:662-676 | half a pair, or a pair at other slots, has no description |
| CompactUnwind.EncodeFrameless | src/assemble.rs:633-685 | a frameless encoding decodes to the rule; refusal and absence both mean no encoding stands for it |
| CompactUnwind.EncodeFrame | src/assemble.rs:687-731 | the same for frame-pointer rules |
| CompactUnwind.CompactUnwindEncoding | src/assemble.rs:628-731 | a chosen encoding decodes to the rule replaying the events gives; otherwise none exists or an adjustment or restore forbids one |
| Layout.StepOk | src/assemble.rs:1163-1279 | section names stay distinct and alignments small |
| Layout.StepGrows | src/assemble.rs:1163-1279 | a step never shrinks a section or an alignment |
| Layout.StepFollows | src/assemble.rs:1300-1446 | where layout took a step, the emission pass can take it too, from the same place to the same place |
| Layout.PassesFollow | src/assemble.rs:894-919 | after every prefix both passes stand in the same section at the same offset |
| Layout.PassesMeet | src/assemble.rs:894-919 | at the end emission has rebuilt the finished layout exactly |
| LayoutRun.LayoutGeometry | src/assemble.rs:1055-1083 | labels and unwind records do not influence sizes |
| LayoutRun.RunExtends | src/assemble.rs:1041-1053 | a longer statement list has the sections, rows and frames of its prefixes, and more |
| LayoutRun.SlotsEmbed | src/assemble.rs:2909-2945 | the sections of a prefix embed into those of the whole, generated sections included |
| Assembler.Assembly.EnsureSectionIndex | src/assemble.rs:2486-2536 | the named section is found or created, or the name is unsupported |
| Assembler.Assembly.SwitchSection | src/assemble.rs:2481-2484 | the current section changes as the layout function says |
| Assembler.Assembly.ReserveBytes | src/assemble.rs:1642-1654 | room is reserved exactly when the section is initialised and the size fits |
| Assembler.Assembly.CollectAlignment | src/assemble.rs:1709-1728 | layout’s alignment step |
| Assembler.Assembly.ReserveZerofill | src/assemble.rs:2305-2357 | layout’s zero-fill step, its symbol at the aligned offset |
| Assembler.Assembly.StartCfiProc | src/assemble.rs:1480-1503 | a procedure opens at a label in the text section |
| Assembler.Assembly.ApplyCfiDirective | src/assemble.rs:1505-1585 | a directive inside a procedure, and only there |
| Assembler.Assembly.FinishCfiProc | src/assemble.rs:1587-1618 | one row per procedure, with its compact encoding or its DWARF frame |
| Assembler.Assembly.CollectStmt | src/assemble.rs:1055-1083 | the layout pass takes exactly the step `LayoutStep` takes, or fails with it |
| Assembler.Assembly.CollectLayout | src/assemble.rs:1041-1053 | the layout pass computes `LayoutAll` and fails exactly with it or with an open procedure |
| Assembler.Assembly.EmitBytes | src/assemble.rs:1656-1660 | bytes are appended and the size grows with them, or nothing changes |
| Assembler.Assembly.EmitSpace | src/assemble.rs:1662-1685 | zeros are appended; a zero-fill section only grows |
| Assembler.Assembly.EmitRepeatedByte | src/assemble.rs:1786-1804 | the byte is appended the given number of times |
| Assembler.Assembly.EmitAlignmentPadding | src/assemble.rs:1759-1784 | the padding bytes: the fill, or NOPs at word boundaries in code, or zeros |
| Assembler.Assembly.EmitAlignment | src/assemble.rs:1730-1757 | emission’s alignment succeeds exactly with layout’s, ends at the same size, and writes the padding |
| Assembler.Assembly.EmitFill | src/assemble.rs:1687-1707 | where layout succeeded a fill fails exactly beyond 64 MB; it writes the truncated pattern over and over |
| Assembler.Assembly.EmitZerofill | src/assemble.rs:2359-2389 | emission’s zero-fill step is layout’s and writes no byte |
| Assembler.Assembly.EmitValue | src/assemble.rs:1300-1446 | one element: the bytes of its value when it fits; zeros when it is patched later, with a fixup that holds its offset and its form or expression |
| Assembler.Assembly.EmitValues | src/assemble.rs:1300-1446 | all elements in order with their fixups, refused exactly when one of them is |
| Assembler.Assembly.ProcessStmt | src/assemble.rs:1116-1161 | where layout took a step, emission takes the same one, writes exactly the statement’s bytes and leaves its fixups, or refuses exactly when it has none; a `.set` advances the cursor |
| Assembler.Assembly.Process | src/assemble.rs:1116-1161 | every statement is emitted where it was reached, under the names’ values after the `.set` directives in front of it; its bytes stand there, behind those of the statements before it, and the fixups are those of all statements; a failure names the refused statement |
| Assembler.Assembly.PrepareUnwindLayout | src/assemble.rs:1031-1039 | the generated sections are reserved behind the source’s own |
| Assembler.Assembly.PrepareExpressionState | src/assemble.rs:926-1029 | addresses are fixed exactly when they do not overflow, the `.set` list is resolved against the labels and aliases get their targets’ places; after that it fails exactly when some assignment has no value or is an alias of no label |
| Assembler.Assembly.ResolveSets | src/assemble.rs:945-1029 | the list is resolved and aliases get their places, exactly unless some assignment is to blame or an alias names no label |
| Assembler.Assembly.ApplySetAliases | src/assemble.rs:2692-2725 | aliases get their targets’ places in order; it fails exactly when a target is no label |
| Assembler.Assembly.ResetForEmission | src/assemble.rs:894-919 | source sections are emptied and keep their alignments, fixups are cleared, and the cursor stands at the first assignment |
| Assembler.Assembly.MaterializeCompactUnwind | src/assemble.rs:2878-2907 | the generated section has the reserved size and holds the rows |
| Assembler.Assembly.MaterializeEhFrame | src/assemble.rs:2820-2876 | the generated section has the reserved size and holds the frames |
| Assembler.FrameLocated | src/assemble.rs:2830-2876 | every frame entry starts where the earlier ones end, and all its fields read back: length, CIE pointer, the way from the range’s start back to the section, range length, no augmentation data, instructions |
| Assembler.RowLocated | src/assemble.rs:2886-2905 | every compact row stands at 32 times its number with its start, length, encoding and two zero words |
| Assembler.DescribedNext | src/assemble.rs:1587-1618 | one more finished procedure keeps the correspondence of rows and frames to procedures |
| Assembler.ProcReadBack | src/assemble.rs:2820-2907 | what an unwinder finds for each procedure: a row covering it, and a compact encoding of its final rule or a frame whose bytes decode to exactly its recorded events |
| Assembler.Assembly.Finish | src/assemble.rs:3304-3322 | it succeeds exactly when emission rebuilt the reserved layout and addresses |
| Assembler.Assembly.AssembleLocated | src/assemble.rs:121-130 | both passes over one list: the error that layout changed is impossible; on success every statement’s bytes stand where layout put it, under the labels and the `.set` values in force there, labels denote those places, sections are full, addresses those of the reserved layout, the fixups those of all statements, and the generated sections hold one row and, where needed, one frame for each procedure; it fails exactly with the first check that does not hold: the layout, the 64-bit address space, the `.set` directives, bytes for every statement |
| Assembler.Assembly.PrepareEmission | src/assemble.rs:121-127 | after the layout pass everything emission relies on holds; it fails exactly with the first check that does not: the layout, the 64-bit address space, the `.set` directives |
| Assembler.Assembly.EmitAll | src/assemble.rs:127-130 | from a finished layout, emission succeeds exactly when it has bytes for every statement where layout put it, and then rebuilds that layout |
| Assembler.NoneRefused | src/assemble.rs:1116-1161 | what was emitted at the places of the layout is not refused there |
| Assembler.RefusalSeen | src/assemble.rs:1116-1161 | a statement emission refuses is refused at the place layout gave it |
| Assembler.ReachedSame | src/assemble.rs:1055-1083 | emission reaches every statement where layout did |
| Assembler.LabelsReached | src/assemble.rs:1055-1083 | every label denotes the place where its statement is reached |
| Assembler.EncodeProc | src/assemble.rs:1587-1618 | a compact row decodes to the tracked rules; otherwise the frame’s instructions decode to the recorded events |
| MachoData.AllOrdered | src/assemble.rs:1347-1384 | the fixups of a section whose offsets fit in 32 bits stand behind one another, inside their statements’ bytes |
| MachoData.FixupsApart | src/assemble.rs:1806-1851 | so its data fields do not overlap |
| MachoData.PatchedElement | src/assemble.rs:1347-1384 | a patched element is one of the resolved fields, at its own place |
| MachoData.StoredElement | src/assemble.rs:1806-1851 | an element that is not patched keeps its bytes through all fixups |
| MachoData.PatchSection | src/assemble.rs:1806-1851 | all data fixups of a section are resolved in order: every field means its form and every other byte stays; it fails exactly when some field has no form or none that can be written there |
| MachoData.ElementLinks | src/assemble.rs:1300-1446 | end to end: every element of every data directive links, for every link, to the value of its expression modulo its width, under the values of its own place, or under those at the end for a four-byte patched field (`TableUsed`) |
| MachoData.OwnValueExactly | src/assemble.rs:2121-2155 | an element means its own place’s value for every link, exactly unless it is a four-byte GOT form whose addend is another one at the end, modulo its width |
| MachoData.OwnValuesExactly | src/assemble.rs:2121-2155 | the same for all elements of a section together |
| MachoData.AssembleSection | src/assemble.rs:121-130 | both passes and then the data fixups of one section, with the failures of `AssembleLocated`; the fixups are resolved exactly if the section has 32-bit offsets and every field a form that fits; then every element links, for every link, to its expression’s value at its own place, or under the values at the end where it is a four-byte GOT form, and all of them to that of their own place exactly if those addends are kept |
| MachoLate.KeptNamesSuffice | src/assemble.rs:2121-2155 | where no later `.set` gives a name mentioned in a four-byte element another value, every element means its own place’s value |
| MachoLate.NotSetKept | src/assemble.rs:2727-2753 | a name that no later `.set` directive assigns keeps its value |
| MachoLate.LateFixups | src/assemble.rs:1347-1384 | between `.set k, 1` and `.set k, 2` the one fixup of `.word f@GOT - . + k` keeps the expression instead of its form |
| MachoLate.ReadTooLate | src/assemble.rs:2121-2155 | so in every section assembled from those three statements the field links to `f@GOT - . + 2`, while its place says `f@GOT - . + 1` |
| MachoLate.AssembleLate | src/assemble.rs:121-130 | the assembler accepts the three statements |
| SectionBases.CheckedAlignExact | src/assemble.rs:3952-3957 | checked alignment fails exactly when the true rounding exceeds 64 bits |
| SectionBases.AlignUpLeast | src/assemble.rs:3952-3957 | the result is the least multiple not below the value |
| SectionBases.SectionBaseAddresses | src/assemble.rs:2641-2654 | addresses exist exactly when the true end fits in 64 bits, and are those of initialised sections first, then zero-fill ones |
| SectionBases.BasesUnique | src/assemble.rs:2641-2654 | the addresses are determined by the sections |
| SectionBases.AddressesApart | src/assemble.rs:2641-2654 | address ranges are aligned and do not overlap |
| SectionBases.ArrangedByKind | src/assemble.rs:3979-3983 | the allocation order is the initialised sections in order, then the zero-fill ones |
| SectionBases.EndMonotone | src/assemble.rs:2641-2654 | larger sizes, larger alignments and inserted sections only push the end up |
| SectionBases.OverflowMonotone | src/assemble.rs:2641-2654 | growing and adding sections anywhere never cures an overflow |
| SectionBases.BasesFailExactly | src/assemble.rs:2641-2654 | the address computation fails exactly on overflow |
| Bisection.OverflowPersists | src/assemble.rs:1085-1114 | overflow of a prefix is overflow of every longer prefix |
| Bisection.SectionLayoutOverflows | src/assemble.rs:1105-1114 | the probe answers exactly whether the layout overflows, or that layout fails |
| Bisection.SectionLayoutErrorLocation | src/assemble.rs:1085-1103 | the search returns the last statement of the shortest overflowing prefix |
| LogicalImmediate.RotatedRun | src/encode.rs:4721-4734 | rotating a run of ones right within an element, bit by bit |
| LogicalImmediate.ReplicatePattern | src/encode.rs:4736-4748 | the element repeated across the width |
| LogicalImmediate.SearchSize | src/encode.rs:4695-4715 | the inner loops find a triple that decodes to the immediate, or no run of that element size is the immediate |
| LogicalImmediate.EncodeLogicalImmediate | src/encode.rs:4681-4719 | a returned triple decodes to the immediate (Arm ARM, DecodeBitMasks), none means no triple does; it is the one triple whose rotation is within its element, and the only one at all exactly for a 64-bit immediate whose halves differ |
| LogicalImmediate.EncodedRun | src/encode.rs:4681-4719 | the decoder reads back the run the encoder packed |
| LogicalImmediate.DecodedRun | src/encode.rs:4681-4719 | every decodable triple is a run the search visits |
| LogicalImmediate.NeverUniform | src/encode.rs:4681-4692 | no triple decodes to all zeros or all ones |
| LogicalImmediate.ReplicatedInjective | src/encode.rs:4681-4719 | element size, run length and rotation are determined by the decoded word |
| LogicalImmediate.DecodingDetermines | src/encode.rs:4681-4719 | two triples decode alike exactly when N and imms agree and immr agrees modulo the element size |
| LogicalImmediate.UniqueExactly | src/encode.rs:4681-4719 | a triple is the only one of its word exactly when N is set |
| LogicalImmediate.WideExactly | src/encode.rs:4681-4719 | N is set exactly for 64-bit immediates whose two halves differ |
| LogicalImmediate.CanonicalAlone | src/encode.rs:4681-4719 | of the triples of one word exactly one has its rotation within its element |
| LogicalImmediate.NotUnique | src/encode.rs:4681-4719 | an immediate with several triples: immr 0 and 2 decode alike for two-bit elements |
| MachoStrings.NewOccurrences | src/macho.rs:646-665 | appending a terminated name adds exactly the occurrences of its suffixes |
| MachoStrings.SuffixIndex.Offset | src/macho.rs:638-644 | an offset is found exactly when the name ends an appended name, and is its first occurrence |
| MachoStrings.SuffixIndex.RecordAppended | src/macho.rs:646-665 | the trie then holds exactly the suffixes of the appended names, at first occurrences |
| MachoStrings.OrderOfNames | src/macho.rs:667-680 | every name once, and each behind all names it ends |
| MachoStrings.EndsStored | src/macho.rs:667-700 | a name ends an earlier name exactly when it ends an earlier stored one |
| MachoStrings.StoredNotShared | src/macho.rs:667-700 | no stored name is a suffix of another symbol’s name |
| MachoStrings.PlaceName | src/macho.rs:680-692 | the name is shared when it ends a stored name, else appended; either way its first occurrence is returned |
| MachoStrings.BuildStringTable | src/macho.rs:667-700 | every symbol’s offset is the earliest place from byte 1 that reads its name and a NUL; the table is exactly the stored names, padded to eight; it fails exactly when some name first stands past 32-bit offsets |
| MachoRelocs.AddendRoundTrip | src/assemble.rs:516-526 | exactly the 24-bit range is accepted and the linker reads the addend back |
| MachoRelocs.Recorder.RecordAddend | src/assemble.rs:2231-2253 | one entry whose field the linker reads back as the addend; refused exactly outside the 24-bit range |
| MachoRelocs.Recorder.RecordSymbol | src/assemble.rs:2255-2276 | the symbol’s entry, directly behind its addend entry if the addend is not zero |
| MachoRelocs.Recorder.ResolvePage | src/assemble.rs:1950-1977 | page relocations: the same group, refused when the kind takes no addend |
| MachoRelocs.Recorder.ResolveExternalBranch | src/assemble.rs:1894-1908 | a branch to a name without a label records its group; refused exactly when the addend does not fit |
| MachoRelocs.Recorder.Patch | src/assemble.rs:2176-2194 | the field is replaced and every other byte kept, exactly when it lies inside |
| MachoRelocs.DataFieldMeans | src/assemble.rs:2026-2119 | stored addend and relocation group together mean the classified form, modulo the field width, for every link |
| MachoRelocs.Recorder.ResolveData64 | src/assemble.rs:2026-2119 | an eight-byte field and its relocations mean its form; refused exactly for a PC-relative GOT form or a field outside |
| MachoRelocs.Recorder.ResolveData32 | src/assemble.rs:2121-2155 | the same for four bytes, where only constants and PC-relative GOT forms are accepted |
| MachoRelocs.Recorder.ResolveAll | src/assemble.rs:1806-1851 | after all data fixups of a section every field still means its form, each with its own relocations in order, and no other byte changed; it fails exactly when some field cannot be resolved |
| MachoRelocs.FieldAdded | src/assemble.rs:2176-2194 | patching one more field keeps the meaning of all fields that do not overlap it |
| MachoRelocs.SortKeepsGroups | src/macho.rs:745-749 | sorting the entries is sorting the groups: none is torn apart or reordered inside |
| MachoRelocs.ScanPairs | src/macho.rs:751-801 | the scan accepts exactly properly paired lists |
| MachoRelocs.GroupsScan | src/macho.rs:751-801 | a sequence of well-formed groups passes the scan |
| MachoRelocs.RecordedPairsSurvive | src/macho.rs:745-801 | whatever groups the assembler recorded, the sorted list is a descending permutation that passes the scan |
| MachoRelocs.FinishRelocations | src/assemble.rs:3304-3322 | all recorded entries are lowered, exactly when every symbol is known; sorted, they pass the writer’s validation |
| MachoRelocs.LoweredPairsSurvive | src/macho.rs:745-801 | lowering symbols to indices keeps the pairs |
| MachoPlan.ValidateRelocations | src/macho.rs:751-889 | relocations are accepted exactly when each is sound and they pair up |
| MachoPlan.PlanSections | src/macho.rs:301-384 | addresses and file offsets of all sections, exactly for an object whose sections are sound and end within 32 bits; contents end exactly where the initialised sections do, and the overlap errors cannot occur |
| MachoPlan.InitialisedNext | src/macho.rs:301-384 | in allocation order, the end of the initialised sections so far is the address behind the last one |
| MachoPlan.PlannedSound | src/macho.rs:301-384 | a complete plan within 64 bits is one for a sound object |
| MachoPlan.InitialisedFirst | src/macho.rs:302-303 | an initialised section ends within the initialised total |
| MachoPlan.SoundAddresses | src/macho.rs:331-344 | no checked address step of a sound object fails |
| MachoPlan.OffsetsIncrease | src/macho.rs:345-384 | later initialised sections lie behind earlier ones in the file |
| MachoPlan.AddressesDisjoint | src/macho.rs:331-344 | any two sections have aligned, disjoint address ranges |
| MachoPlan.PlanRelocations | src/macho.rs:386-397 | relocation tables follow one another; failure means they pass 32 bits |
| MachoWriter.RelocRoundTrip | src/macho.rs:702-743 | an accepted relocation survives packing |
| MachoWriter.SegmentRange | src/macho.rs:434-456 | the range starts at the first initialised section and ends at the last end |
| MachoWriter.PlanFile | src/macho.rs:275-456 | all offsets of the file, exactly for a sound object whose tables end within 32 bits; the overlap errors cannot occur |
| MachoWriter.WriteContents | src/macho.rs:530-551 | contents are written at their recorded offsets; the cursor never overtakes one |
| MachoWriter.WriteTables | src/macho.rs:561-566 | every relocation table starts at its recorded offset |
| MachoWriter.WriteMacho | src/macho.rs:275-616 | exactly the sound objects whose file fits in 32 bits are written, in exactly the planned number of bytes; the file is laid out as planned and names are placed |
| MachoWriter.HeaderRecords | src/macho.rs:475-491 | each section header in the file holds the planned address, size, offset and relocation table |
| MachoWriter.SectionFound | src/macho.rs:475-566 | the header’s offsets lead to the section’s bytes and to its sorted relocations |
| MachoWriter.SymbolsFound | src/macho.rs:508-514 | the symbol table command leads to the symbols and the strings, which end the file |
| MachoWriter.HintsFound | src/macho.rs:501-506 | the hint command leads to the hints |
| MachoWriter.SymbolNamed | src/macho.rs:572-613 | a symbol’s entry leads through the string table to its name and a NUL |
| MachoWriter.AddressesAgree | src/assemble.rs:2641-2654 | the writer’s addresses are the assembler’s |
| ElfWire.EhdrRoundTrip | src/elf.rs:249-305 | a written file header parses back |
| ElfWire.ShdrRoundTrip | src/elf.rs:321-355 | a written section header parses back |
| ElfWire.SymRoundTrip | src/elf.rs:367-400 | a written symbol parses back |
| ElfWire.InfoRoundTrip | src/elf.rs:367-376 | binding and type survive packing into one byte |
| ElfWire.RelaRoundTrip | src/elf.rs:409-437 | a written relocation parses back, negative addends included |
| ElfWire.RelaInfoRoundTrip | src/elf.rs:409-418 | symbol and type survive packing into one word |
| ElfWire.StringReads | src/elf.rs:473-486 | a name standing with its NUL reads back |
| ElfWire.StringTable.Intern | src/elf.rs:454-466 | the returned offset reads back the name, nothing entered before moves, and the table is exactly that of the names entered in order |
| ElfWire.StillReads | src/elf.rs:454-466 | names still read back after more is entered |
| ElfObject.Validate | src/elf.rs:623-685 | accepts exactly the objects that pass the checks, the end of a relocated field summed without an overflow check |
| ElfObject.RelaChecked | src/elf.rs:664-673 | the checks accept every relocation inside its section, and besides exactly those whose end wraps past 2^64 back into it |
| ElfObject.WrappedEndAccepted | src/elf.rs:664-673 | such an object: a four-byte relocation at the last four addresses, in a section without a byte |
| ElfObject.LocalsFirstOrder | src/elf.rs:774-784 | the writing order is a permutation, locals before the others, each part in order; the first non-local stands right behind the locals |
| ElfObject.SameSymbols | src/elf.rs:774-784 | every relocation names the same symbol through the permutation |
| ElfFile.CountsRoundTrip | src/elf.rs:730-769 | section count and name-table index decode to themselves, in the reserved range too (System V gABI, chapter 4) |
| ElfFile.HeadersRead | src/elf.rs:1092-1109 | the header table reads back |
| ElfFile.SymtabFound | src/elf.rs:1118-1141 | the reader finds the one symbol table |
| ElfFile.ContentsRead | src/elf.rs:1143-1185 | the content sections and the stack note read back under the writer’s numbers |
| ElfFile.SymbolsRead | src/elf.rs:1187-1236 | the symbols read back in writing order |
| ElfFile.RelasRead | src/elf.rs:1259-1297 | the relocations of a section read back with their symbols renamed |
| ElfFile.RelaSectionsRead | src/elf.rs:1238-1298 | every relocation section attaches to its content section |
| ElfFile.FileRoundTrip | src/elf.rs:1050-1307 | reading a file that holds an object gives the object, symbols permuted locals first |
| ElfReader.ReadContents | src/elf.rs:1143-1185 | the loop over headers succeeds exactly when every header it looks at is readable, and keeps exactly the content headers, in order, and the first stack note |
| ElfReader.CollectedExactly | src/elf.rs:1143-1185 | bookkeeping, comments and toolchain notes are skipped; every content header becomes the next section with its name, fields and bytes |
| ElfReader.SliceExactly | src/elf.rs:1309-1322 | a section’s bytes are taken exactly when it lies in the file; the code panics exactly when its end wraps past 2^64 back into the file |
| ElfReader.WrappedHeaderPanics | src/elf.rs:1309-1322 | such an input: a section header that asks for 2^64 - 1 bytes from offset 1 of a one-byte file |
| ElfReader.ReadSymbols | src/elf.rs:1187-1236 | the loop over symbols computes `CollectSymbols` |
| ElfReader.ReadRelaSections | src/elf.rs:1238-1298 | the loop over relocation sections computes `CollectRelas` |
| ElfReader.ParseElf | src/elf.rs:1050-1322 | the reader computes `Parse`, the function `FileRoundTrip` is about |
| ElfEntries.SectionsHeld | src/elf.rs:877-990 | laid-out entries give every section, table and relocation section of the file |
| ElfEntries.RoundUpLeast | src/elf.rs:691-696 | rounding up reaches a multiple less than one alignment away |
| ElfEntries.EndGrows | src/elf.rs:864-990 | placing more never moves the end back |
| ElfEntries.SameRooms | src/elf.rs:864-990 | how much room the entries take depends on the object alone |
| ElfWriter.OrderSymbols | src/elf.rs:774-784 | locals first, and each symbol’s file number |
| ElfWriter.InternSymbols | src/elf.rs:786-791 | every symbol’s name reads back from the string table, which is exactly that of the names in writing order |
| ElfWriter.BuildSymtab | src/elf.rs:795-828 | a null entry, then the symbols in writing order |
| ElfWriter.Place | src/elf.rs:864-875 | bytes are placed at the next aligned offset; refused exactly when a byte vector could not hold them |
| ElfWriter.PlaceContents | src/elf.rs:877-900 | every content section is laid out with its name, fields and bytes, without overlap, and takes exactly its room; refused only when the contents do not fit |
| ElfWriter.PlaceTables | src/elf.rs:902-947 | the stack note, symbol table and string table are laid out |
| ElfWriter.BuildRelaBody | src/elf.rs:952-960 | relocation entries name symbols by file number |
| ElfWriter.PlaceRelocations | src/elf.rs:949-976 | one relocation section per relocated content section |
| ElfWriter.WriteHeaders | src/elf.rs:992-1009 | the header table follows the padded contents |
| ElfWriter.FinishFile | src/elf.rs:992-1034 | file header, contents and header table agree on every offset; refused exactly when the file does not fit |
| ElfWriter.LaidEnd | src/elf.rs:992-1034 | what was laid out ends where the object’s rooms do, so the file has exactly the predicted size |
| ElfWriter.WriteElf | src/elf.rs:771-1034 | an object is called invalid exactly when it fails validation and too large exactly when its sections cannot be counted or its predicted size exceeds a byte vector; otherwise it is written in exactly that size, headers lead to their bytes, aligned and without overlap, and a round-trippable object is read back with symbols permuted locals first |

## Left out
- Reading and writing files, command lines, the text, line and column of diagnostics: presentation only.
- Lexing, parsing, registers and the per-opcode encoders: parsed statements, items and encoded bytes are inputs.
- Label aliases of the x86 assembler, `.file` grouping of symbols, and GOT-type x86 relocations against local symbols: parity details beside the main theorems.
- Size and type attributes, weak and hidden markings, version and common-symbol allocation of x86 symbols: they do not change what a field means.
- Reservation failures are one abstract error (`TooLarge`, `AddressOverflow`) at the largest vector, not at what memory happens to hold; conversions between `usize` and `u64` are taken to succeed, and the 64 MB cap is kept only where it decides acceptance (`.space`, `.fill`).
- The order of Mach-O local symbols and the computation of section flags: symbols and flags are inputs of the writer.
- The ELF output of the ARM64 assembler with its mapping symbols, and build-version and hint records.
- Fixups of instruction fields (branch, literal and address ranges): only data fixups are resolved against their meaning; the others patch instruction words, which no data field overlaps.
- Sections past 4 GB: a fixup's 32-bit offset is truncated as in the code; the agreement of the passes does not rely on it, `ElementLinks` asks for sections below that size (`Addressable`).
- Assembler.Assembly.StartCfiProc: some label stands where the procedure starts; which of several names it is not stated.
- MachoRelocs.Recorder.ResolveExternalBranch: only branches to names without a label; branches to defined labels patch or relocate an instruction word.
- Text checks: names are byte strings, so UTF-8 validity is not checked, and section names fold case for ASCII only.
- Overflow checks of the linker: a relocated field means its value modulo the field width, and a PLT32 against a defined function binds to that function.
- ElfReader.ParseElf: every failure is one value, without the offset and message of src/elf.rs, and a panic on a wrapping section end counts as a failure (`SliceExactly` tells them apart).
- ElfWriter.WriteElf: the round trip is stated for fewer than SHN_LORESERVE content sections, no section symbols, no section kinds or names the reader skips (`RoundTrippable`), and string tables within 32-bit offsets (`NamesAddressable`), which is what the format can hold.
- X86Fold.Folder.AddLabels: binding, type, visibility and size of the symbols are not modelled.
