# OSU CSE 2231 exercises in Dafny

This project models a set of Java course exercises written against the OSU CSE
component library: Queue, Stack, Sequence, Map, Tree, BinaryTree, Statement,
Program and SortingMachine. The library's kernels are not part of this model.
Each component becomes its mathematical value:
- a queue, a stack or a sequence becomes a `seq`;
- a set or the contents of a sorting machine becomes a `multiset`;
- a map becomes a `map`, or a `seq` of key/value pairs where the exercise
  works on the pairs;
- a tree or a BL statement becomes an inductive `datatype`.

Exercises that update an object's fields in place are classes with
`modifies` clauses. The library's borrow-and-restore protocol
(`disassemble`/`assemble`, `removeFromBlock`/`addToBlock`) becomes pattern
matching on values. Java's 32-bit `int` wrap-around and truncating `/` and
`%` are written out (module `JavaInts`) for the hash codes, factorial,
Fibonacci and the smoothing average. Other counts and lengths are unbounded
integers.

The modules follow the exercises:

- **The BL language** (`BLStatement`, `BLParser`/`BLUnparse`, `BLCodeGen`,
  `BLPretty`, `BLCount`, `BLSimplify`, `BLRename`). BL statements and
  programs have:
  - a recursive-descent parser over a token queue;
  - a byte-code generator with back-patched jumps;
  - a pretty-printer;
  - a primitive-call counter;
  - an IF_ELSE negation simplifier;
  - instruction renaming, over a statement and over a whole program.
- **The array-heap sorting machine** (`SortingMachine`): `exchangeEntries`,
  `siftDown`, `heapify` and `buildHeap` on an `array<int>`, and the kernel
  class `SortingMachine5a` with its representation convention.
- **Linear containers:**
  - queue insertion sort (`QueueSort`);
  - the two-stack sequence cursor (`TwoStack`);
  - move-to-front sets and maps (`MoveToFront`);
  - the WaitingLine component family (`WaitingLines`);
  - the queue exercises of homework 33 (`QueueOps`);
  - a linked-list cursor (`LinkedCursor`);
  - a natural number kept as reversed decimal digits (`NaturalNumbers`).
- **Trees:**
  - binary-tree string, copy, size and heap order (`BinaryTrees`);
  - binary-search-tree search and removal (`SearchTrees`);
  - general-tree queries (`GeneralTrees`).
- **Small functions:**
  - `mod` and `hashCode` (`ModAndHash`);
  - smoothing (`Smoothing`);
  - the word counter's scanner and counting (`WordCounter`);
  - the phone-number hash (`PhoneNumbers`);
  - factorial, reverse and Fibonacci (`Recursion`);
  - a permutation backtracker (`PermutationSearch`).

`Folds` and `Wrappers` are shared helpers: sums and joins over sequences, and
`Option`/`Result`.

## Model

| member | source | states |
|---|---|---|
| BLStatement.ConditionNamed | BLParser/src/Statement1Parse1.java:36 | `Condition.valueOf`: a constant found for a name is the constant with that name |
| BLStatement.ConditionNamedName | BLParser/src/Statement1Parse1.java:36 | looking up a condition's own name finds that condition |
| BLStatement.ConditionTokenFromName | BLParser/src/Statement1Parse1.java:33-37 | each condition's source spelling is its enum name lower-cased, with `_` replaced by `-` |
| BLStatement.UpperSnakeRoundTrip | BLParser/src/Statement1Parse1.java:36 | replacing `-` by `_` and upper-casing undoes the lower-cased, hyphenated spelling of an upper-snake name |
| BLStatement.ConditionTokenInjective | BLParser/src/Statement1Parse1.java:33-37 | different conditions have different spellings |
| BLStatement.InstructionNamed | Hw/src/Hw31.java:69 | `Instruction.valueOf`: an instruction found for a name is the instruction with that name |
| BLStatement.ByteCode | Hw/src/Hw31.java:51 | byte codes are below 17 |
| BLStatement.ByteCodeInjective | Hw/src/Hw31.java:51 | different instructions have different byte codes |
| BLStatement.ConditionalJump | Hw/src/Hw31.java:51 | `conditionalJump(c)` is the jump taken when c is false |
| BLParser.ParseCondition | BLParser/src/Statement1Parse1.java:33-37 | the condition returned is the one whose spelling is the token |
| BLParser.ParseConditionToken | BLParser/src/Statement1Parse1.java:33-37 | parseCondition reads every condition's spelling back to the condition |
| BLParser.ParsedStatement | BLParser/src/Statement1Parse1.java:210-234 | fails unless the front token is IF, WHILE or an identifier; IF yields IF or IF_ELSE, WHILE yields WHILE; an identifier yields CALL of it with one token consumed; tokens shrink and END_OF_INPUT stays last |
| BLParser.ParsedIf | BLParser/src/Statement1Parse1.java:60-111 | a successful parseIf yields IF or IF_ELSE and consumes tokens |
| BLParser.ParsedElseBlock | BLParser/src/Statement1Parse1.java:87-96 | after ELSE the result is an IF_ELSE with the given condition and then-block in source order |
| BLParser.ClosedIf | BLParser/src/Statement1Parse1.java:109-110 | the closing IF is dequeued and nothing else changes |
| BLParser.ParsedWhile | BLParser/src/Statement1Parse1.java:134-164 | a successful parseWhile yields WHILE and consumes tokens |
| BLParser.ParsedBlock | BLParser/src/Statement1Parse1.java:237-253 | parseBlock stops at ELSE, END or END_OF_INPUT without consuming it; children are appended in parse order; a sentinel in front gives an empty BLOCK |
| BLParser.Parse | BLParser/src/Statement1Parse1.java:210-234 | the method computes the parse function |
| BLParser.ParseCall | BLParser/src/Statement1Parse1.java:182-192 | exactly one token is dequeued and becomes the CALL |
| BLParser.ParseIf | BLParser/src/Statement1Parse1.java:60-111 | the method computes parseIf's result, failures included |
| BLParser.IfBlocksCases | BLParser/src/Statement1Parse1.java:84-110 | after the then-block: a failed block fails; any token but ELSE or END fails with "expecting 'END' or 'ELSE'"; ELSE leads to the else-block; END leads to the closing IF |
| BLParser.ParseWhile | BLParser/src/Statement1Parse1.java:134-164 | the method computes parseWhile's result, failures included |
| BLParser.ParseBlock | BLParser/src/Statement1Parse1.java:237-253 | the method computes parseBlock's result |
| BLUnparse.FirstTokenStartsStatement | BLParser/src/Statement1Parse1.java:219-222 | a statement's first token is IF, WHILE or an identifier, and never a block end |
| BLUnparse.IfBlocksThen | BLParser/src/Statement1Parse1.java:97-110 | `IF c THEN b END IF` parses to IF(c, b) |
| BLUnparse.IfBlocksElse | BLParser/src/Statement1Parse1.java:87-110 | `IF c THEN b1 ELSE b2 END IF` parses to IF_ELSE(c, b1, b2), branches unswapped |
| BLUnparse.BlockStep | BLParser/src/Statement1Parse1.java:245-251 | parseBlock reads one statement and carries on after it |
| BLUnparse.ParseUnparse | BLParser/src/Statement1Parse1.java:210-253 | parsing the tokens of a parsable statement gives the statement back and leaves the rest of the queue |
| BLUnparse.ParseUnparseBlock | BLParser/src/Statement1Parse1.java:237-253 | parseBlock reads back the tokens of the children up to the block's end |
| BLUnparse.ParsedStatementSound | BLParser/src/Statement1Parse1.java:210-234 | #tokens = consumed prefix * tokens: the rest is a suffix of the input and the prefix spells the statement returned; with the closing WHILE checked the prefix is exactly the statement's tokens, the converse of ParseUnparse |
| BLUnparse.StatementSound | BLParser/src/Statement1Parse1.java:210-234 | a successful parse leaves the tokens after those the statement consumed |
| BLUnparse.IfSound | BLParser/src/Statement1Parse1.java:52-111 | #tokens = [if string at start of #tokens] * tokens, for the IF or IF_ELSE built |
| BLUnparse.WhileSound | BLParser/src/Statement1Parse1.java:134-164 | #tokens = [while string] * tokens, where as written the while string stops after END |
| BLUnparse.BlockSound | BLParser/src/Statement1Parse1.java:237-253 | parseBlock consumes exactly the tokens of the children it appends |
| BLUnparse.ConsumedTokensChecked | BLParser/src/Statement1Parse1.java:159-163 | when the closing WHILE is dequeued, the consumed tokens are the statement's own tokens |
| BLUnparse.WhileLeavesClosingWhile | BLParser/src/Statement1Parse1.java:159-163 | as written, parseWhile leaves the WHILE of END WHILE at the front of the queue |
| BLUnparse.LoneWhileFails | BLParser/src/Statement1Parse1.java:144-145 | a leftover WHILE before the end of input starts a loop that fails on its condition |
| BLUnparse.EmptyWhileBlockFails | BLParser/src/Statement1Parse1.java:159-163 | as written, `WHILE true DO END WHILE` read as a block fails |
| BLUnparse.EmptyWhileBlockParses | BLParser/src/Statement1Parse1.java:159-163 | consuming the closing WHILE reads the smallest loop back |
| BLCodeGen.CondJumpCode | Hw/src/Hw31.java:51 | a conditional jump's byte code lies above JUMP's |
| BLCodeGen.Appended | Hw/src/Hw31.java:19-28 | generation only appends: on success cp becomes #cp * code; a failure is passed on unchanged |
| BLCodeGen.CodeWellFormed | Hw/src/Hw31.java:30-113 | when only primitives may be called, every jump target lies within [start, start + \|code\|] and every other entry is an instruction |
| BLCodeGen.ProgramCodeWellFormed | Hw/src/Hw31.java:115-137 | the program's code ends with HALT and every jump targets an index of the program |
| BLCodeGen.JumpCallIsMalformed | Hw/src/Hw31.java:98-104 | as written, CALL jump compiles to a JUMP without a target, [6, 5] |
| BLCodeGen.OneLevelOfInlining | Hw/src/Hw31.java:97-99 | a user instruction calling another user instruction fails: only one level is inlined |
| BLCodeGen.DialectsAgree | Hw/src/Hw31.java:30-113 | a statement the corrected dialect compiles compiles to the same code when jump and halt names may also be called |
| BLCodeGen.ProgramDialectsAgree | Hw/src/Hw31.java:115-137 | a program the corrected dialect compiles gets the same code from the code as written, and that code ends with HALT and keeps every jump inside the program |
| BLCodeGen.ExpandedCompiles | Hw/src/Hw31.java:19-28 | a statement whose calls all resolve, through the context without cycles, to primitive instructions compiles once the context is inlined at every depth |
| BLCodeGen.IntendedProgramWellFormed | Hw/src/Hw31.java:19-28 | a program whose calls all resolve through its context compiles, with full inlining, to code that ends with HALT and keeps every jump inside the program |
| BLCodeGen.ExpandedAgrees | Hw/src/Hw31.java:97-104 | where the one-level inlining succeeds, inlining at every depth gives the same code |
| BLCodeGen.IntendedExtendsAsWritten | Hw/src/Hw31.java:19-28 | for a program the code as written compiles, with no user instruction named like a machine instruction, full inlining gives the same code |
| BLCodeGen.NestedInliningCompiles | Hw/src/Hw31.java:97-99 | full inlining compiles the context {outer: CALL inner, inner: CALL move} with body CALL outer to MOVE, HALT |
| BLCodeGen.PrimitiveCallCode | Hw/src/Hw31.java:100-102 | a primitive call compiles to its one byte code whatever the case of its name |
| BLCodeGen.PrimitivesAgree | Hw/src/Hw31.java:100-102 | a primitive name compiles the same whether or not jump and halt names are refused |
| BLCodeGen.CodeRelocatable | Hw/src/Hw31.java:30-113 | where the code is placed changes neither whether it can be generated nor its length |
| BLCodeGen.RestoredUnchanged | Hw/src/Hw31.java:101-105 | a statement whose primitive calls are lower case is reassembled unchanged |
| BLCodeGen.RestoredIsLower | Hw/src/Hw31.java:101-105 | after generation every primitive CALL is lower case |
| BLCodeGen.RestoredIdempotent | Hw/src/Hw31.java:101-105 | generating twice leaves the statement as the first generation did |
| BLCodeGen.MixedCaseCallLowered | Hw/src/Hw31.java:101-105 | CALL TurnLeft comes back as CALL turnleft |
| BLCodeGen.GenerateCodeForStatement | Hw/src/Hw31.java:30-113 | cp becomes #cp * code(s), the placement-dependent code; the statement is given back restored |
| BLCodeGen.GenerateBlock | Hw/src/Hw31.java:36-47 | BLOCK code is the children's code in order |
| BLCodeGen.GenerateIf | Hw/src/Hw31.java:48-58 | IF emits [condJump(c), T] * code(b), T just past the body |
| BLCodeGen.GenerateIfElse | Hw/src/Hw31.java:59-77 | IF_ELSE emits [condJump(c), T1] * code(b1) * [JUMP, T2] * code(b2), T1 and T2 back-patched |
| BLCodeGen.IfElseEmitted | Hw/src/Hw31.java:62-74 | the two back-patches turn the emitted placeholders into the IF_ELSE code |
| BLCodeGen.GenerateWhile | Hw/src/Hw31.java:78-93 | WHILE at p emits [condJump(c), T] * code(b) * [JUMP, p] |
| BLCodeGen.GenerateCall | Hw/src/Hw31.java:94-107 | a context key is inlined with an empty context; any other name is emitted upper-cased or fails, and is put back lower-cased |
| BLCodeGen.GeneratedCode | Hw/src/Hw31.java:115-137 | the result is code(body) * HALT; the program is reassembled with its body restored and its context as ContextAfter gives it; for a program the corrected dialect accepts, generation succeeds with code that ends with HALT and keeps every jump inside the program |
| BLCodeGen.ContextAfter | Hw/src/Hw31.java:97-99 | `context.value(label)` passes the map's own body to the recursion: the context keeps its names, each user instruction the body calls has every CALL in it lower-cased, and the others are untouched |
| BLCodeGen.CodeOfRestored | Hw/src/Hw31.java:97-105 | a statement as generation restored it compiles, against the context as generation left it, to the same code, when no user instruction is named like a machine instruction |
| BLCodeGen.RegeneratedCode | Hw/src/Hw31.java:115-137 | generating code again for the reassembled program gives the same code |
| BLPretty.PrettyWords | Hw/src/Hw24.java:26-107 | the words printed are the statement's tokens, in the order the parser reads them |
| BLPretty.LinesIndented | Hw/src/Hw24.java:46-88 | every line is at least offset in, a whole number of levels; IF, IF_ELSE and WHILE keyword lines are exactly at offset |
| BLPretty.EmptyBlockAndCall | Hw/src/Hw24.java:32-37 | an empty block prints nothing; a CALL prints its name alone on a line at offset |
| BLPretty.Writer.PrintLn | Hw/src/Hw24.java:48 | println appends the text and a newline |
| BLPretty.PrintSpaces | Hw/src/Hw24.java:51-53 | offset spaces are appended |
| BLPretty.PrettyPrint | Hw/src/Hw24.java:26-107 | out.content becomes #out.content * the pretty-printed text of s |
| BLPretty.PrettyPrintBlock | Hw/src/Hw24.java:29-40 | the children are printed in order at the same offset |
| BLPretty.PrettyPrintIf | Hw/src/Hw24.java:41-57 | IF c THEN, the body one level in, END IF |
| BLPretty.PrettyPrintIfElse | Hw/src/Hw24.java:58-77 | IF c THEN, then-body, ELSE, else-body, END IF, with the bodies one level in |
| BLPretty.PrettyPrintWhile | Hw/src/Hw24.java:78-92 | WHILE c DO, the body one level in, END WHILE |
| BLPretty.PrettyPrintThenPart | Hw/src/Hw24.java:64-66 | the IF line followed by the then-body |
| BLPretty.PrettyPrintElsePart | Hw/src/Hw24.java:68-73 | the ELSE line, the else-body and the END IF line |
| BLCount.PrimitiveCallsCountsNames | Hw/src/Hw22.java:15-93 | the count is the number of primitive names among the statement's CALLs |
| BLCount.PrimitiveCallsBound | Hw/src/Hw22.java:15-93 | the count is at most the number of CALL nodes |
| BLCount.CallCountsIffPrimitive | Hw/src/Hw22.java:73-88 | a CALL counts 1 exactly when its name is move, turnleft, turnright, infect or skip, and 0 otherwise |
| BLCount.CountOfPrimitiveCalls | Hw/src/Hw22.java:15-93 | the method returns the number of primitive calls; StatementCountPrimitiveCalls/src/CountPrimitiveCalls.java lines 31-112 are a second copy of the same algorithm |
| BLSimplify.PositiveOf | Hw/src/Hw23.java:48-68 | exactly the four negated conditions have a positive form |
| BLSimplify.Simplified | Hw/src/Hw23.java:21-93 | the rewrite keeps each node's kind, each IF and WHILE condition, and each block's length |
| BLSimplify.SimplifiedHasNoNegatedIfElse | Hw/src/Hw23.java:40-75 | no IF_ELSE with a negated condition survives |
| BLSimplify.SimplifyFixesNonNegated | Hw/src/Hw23.java:21-93 | a statement without a negated IF_ELSE is left as it is |
| BLSimplify.SimplifyIdempotent | Hw/src/Hw23.java:21-93 | simplifying twice equals simplifying once |
| BLSimplify.SimplifyKeepsBranches | Hw/src/Hw23.java:40-75 | under any consistent valuation of the conditions the simplified statement takes the same branches |
| BLSimplify.SimplifyIfElse | Hw/src/Hw23.java:21-93 | the method computes the simplified statement |
| BLRename.RenamedKeepsShape | Hw/src/Hw25.java:24-72 | every node keeps its kind and condition, and every block its length |
| BLRename.RenamedCallNames | Hw/src/Hw25.java:24-72 | the CALLs after renaming are the original CALLs in order, each oldName renamed |
| BLRename.NoCallOfOldName | Hw/src/Hw25.java:24-72 | after renaming to a different name no CALL of oldName remains |
| BLRename.RenameAbsentIsIdentity | Hw/src/Hw25.java:24-72 | a statement with no CALL of oldName is unchanged |
| BLRename.RenameRoundTrip | Hw/src/Hw25.java:24-72 | renaming to an unused name and back gives the original statement |
| BLRename.RenameInstruction | Hw/src/Hw25.java:24-72 | the method computes the renamed statement |
| BLRename.RenamedContextEntry | Hw/src/Hw25.java:99-107 | each context entry ends up under its new key with its new body |
| BLRename.RenamedContextDomain | Hw/src/Hw25.java:86-94 | with oldName present the domain becomes DOMAIN - {oldName} + {newName}; otherwise it is unchanged |
| BLRename.RenamedContextSize | Hw/src/Hw25.java:86-94 | the context keeps its number of entries |
| BLRename.DrainStep | Hw/src/Hw25.java:100-108 | draining one more pair adds exactly its renamed entry |
| BLRename.RenameInProgram | Hw/src/Hw25.java:96-108 | the name is kept, the context is re-keyed and renamed, and the body is renamed; in this version oldName's own body is kept as it is, while in the version of Hw/src/ActOne.java lines 5-20 it is renamed as well |
| SortingMachine.IsHeapIffOrdered | Hw/src/MidtermTwo.java:314-338 | isHeap holds iff every node through last is at most its children |
| SortingMachine.RootIsMinimum | Hw/src/MidtermTwo.java:45-57 | the root of a heap is at most every entry of its subtree |
| SortingMachine.ExchangeEntries | Hw/src/MidtermTwo.java:114-123 | a[i] and a[j] are swapped, nothing else changes, and the entries are permuted |
| SortingMachine.SiftDown | Hw/src/MidtermTwo.java:163-196 | with heaps under both children, the subtree at top becomes a heap; the entries are permuted within the subtree; nothing outside changes |
| SortingMachine.SiftDownInto | Hw/src/MidtermTwo.java:185-194 | one branch of siftDown: swap with the smaller child and sift its subtree |
| SortingMachine.Heapify | Hw/src/MidtermTwo.java:224-241 | the subtree at top becomes a heap through the last index, as a permutation that changes nothing outside it |
| SortingMachine.BuildHeap | Hw/src/MidtermTwo.java:265-284 | a fresh array of \|q\| entries, heap-ordered, holding q's entries; q is left empty |
| SortingMachine.HeapRootIsMinimum | Hw/src/MidtermTwo.java:494-513 | the root of a heap of n entries is one of them and a minimum |
| SortingMachine.RootReplaced | Hw/src/MidtermTwo.java:499-506 | moving the last entry to the root leaves heaps under both children, over the old entries less the old root |
| SortingMachine.ReplaceRootAndSift | Hw/src/MidtermTwo.java:499-510 | the first n - 1 entries form a heap of the old entries less the old root |
| SortingMachine.SortingMachine5a.ConventionHolds | Hw/src/MidtermTwo.java:359-382 | true iff the representation convention holds |
| SortingMachine.SortingMachine5a.constructor | Hw/src/MidtermTwo.java:417-420 | an empty machine in insertion mode |
| SortingMachine.SortingMachine5a.CreateNewRep | Hw/src/MidtermTwo.java:397-404 | empty queue, heap size 0, insertion mode, and the convention holds |
| SortingMachine.SortingMachine5a.Clear | Hw/src/MidtermTwo.java:439-442 | back to the initial, empty representation |
| SortingMachine.SortingMachine5a.TransferFrom | Hw/src/MidtermTwo.java:445-465 | this takes source's representation and contents; source becomes empty |
| SortingMachine.SortingMachine5a.Add | Hw/src/MidtermTwo.java:472-478 | x is enqueued; the contents gain x |
| SortingMachine.SortingMachine5a.ChangeToExtractionMode | Hw/src/MidtermTwo.java:481-490 | the queued entries become a heap of the same size; contents unchanged |
| SortingMachine.SortingMachine5a.RemoveFirst | Hw/src/MidtermTwo.java:494-513 | returns a minimum of the contents and removes one copy of it; the heap shrinks by one |
| SortingMachine.SortingMachine5a.Size | Hw/src/MidtermTwo.java:528-538 | the number of entries in either mode |
| QueueSort.LeadingSmaller | Hw/src/Hw15.java:26-35 | the longest prefix smaller than x: everything before it is smaller and the next entry is not |
| QueueSort.InsertInOrder | Hw/src/Hw15.java:26-35 | x is inserted after the leading entries smaller than it |
| QueueSort.InsertPermutes | Hw/src/Hw15.java:17-25 | the result holds q's entries plus x |
| QueueSort.InsertKeepsSorted | Hw/src/Hw15.java:17-25 | inserting into a sorted queue keeps it sorted |
| QueueSort.SortedUnique | Hw/src/Hw15.java:50-56 | two sorted arrangements of the same entries are equal, so sort's result is determined |
| QueueSort.Sort | Hw/src/Hw15.java:50-56 | the result is sorted and a permutation of q |
| TwoStack.SetLengthOfLeftStack | Sequence/src/Sequence.java:42-49 | the represented sequence is kept and the left stack gets the requested length |
| TwoStack.SetLengthOfLeftStack2 | Hw/src/MidtermOne.java:52-60 | the same, with the loops in the other order |
| TwoStack.SetLengthOfLeftStackRec | Hw/src/MidtermOne.java:30-42 | the same, one entry per recursive call |
| TwoStack.SplitDetermined | Hw/src/MidtermOne.java:30-60 | the left length fixes how the sequence is split, so all three versions give the same stacks |
| TwoStack.Sequence3.Add | Hw/src/MidtermOne.java:148-153 | x is inserted at pos |
| TwoStack.Sequence3.Remove | Hw/src/MidtermOne.java:154-158 | the entry at pos is returned and removed |
| TwoStack.Sequence3.Length | Hw/src/MidtermOne.java:159-163 | the length of the represented sequence |
| TwoStack.Sequence3.Flip | Hw/src/MidtermOne.java:80-86 | the stacks trade places, which reverses the sequence |
| TwoStack.ReverseReverse | Hw/src/MidtermOne.java:80-86 | reversing twice gives the sequence back, so flip is its own inverse |
| MoveToFront.FirstIndex | Hw/src/MidtermOne.java:182-198 | the first index holding x |
| MoveToFront.MovedToFrontPermutes | Hw/src/MidtermOne.java:165-181 | moving to the front permutes the queue and puts x in front when present; without x the queue is unchanged |
| MoveToFront.MoveToFrontOfQueue | Hw/src/MidtermOne.java:182-198 | the method computes the moved-to-front queue |
| MoveToFront.MovePairToFront | Hw/src/MidtermOne.java:252-268 | the pairs with the key first, then the others, each in queue order |
| MoveToFront.SplitByKeyPermutes | Hw/src/MidtermOne.java:233-251 | splitting by key permutes the pairs |
| MoveToFront.FrontHasKey | Hw/src/MidtermOne.java:233-251 | after moveToFront the front carries the key exactly when some pair does |
| MoveToFront.SetOnQueue.Remove | Hw/src/MidtermOne.java:200-208 | x is returned and removed, one copy, from its first position |
| MoveToFront.SetOnQueue.RemoveAny | Hw/src/MidtermOne.java:210-214 | the front entry is returned and removed |
| MoveToFront.SetOnQueue.Size | Hw/src/MidtermOne.java:228-231 | the number of entries |
| MoveToFront.MapOnQueue.Add | Hw/src/MidtermOne.java:270-278 | the new pair is enqueued and the map gains it |
| MoveToFront.MapOnQueue.Remove | Hw/src/MidtermOne.java:280-287 | the pair with the key is returned and removed; the key leaves the domain |
| MoveToFront.MapOnQueue.Value | Hw/src/MidtermOne.java:289-296 | returns the value paired with the key; the map is unchanged |
| MoveToFront.MapOnQueue.HasKey | Hw/src/MidtermOne.java:298-308 | true iff the key is in the domain; the map is unchanged |
| WaitingLines.WaitingLine1.constructor | WaitingLineFamilyDesign/src/components/waitingline/WaitingLine1.java:11-17 | an empty line |
| WaitingLines.WaitingLine1.Clear | WaitingLineFamilyDesign/src/components/waitingline/WaitingLine1.java:66-69 | back to the empty line |
| WaitingLines.WaitingLine1.TransferFrom | WaitingLineFamilyDesign/src/components/waitingline/WaitingLine1.java:76-81 | this takes source's entries; source becomes empty |
| WaitingLines.WaitingLine1.Front | WaitingLineFamilyDesign/src/components/waitingline/WaitingLine.java:11-19 | the front entry; the line is unchanged |
| WaitingLines.WaitingLine1.AddToLine | WaitingLineFamilyDesign/src/components/waitingline/WaitingLineKernel.java:13-23 | x, not already in line, joins at the back; entries stay distinct |
| WaitingLines.WaitingLine1.RemoveFromLine | WaitingLineFamilyDesign/src/components/waitingline/WaitingLineKernel.java:25-33 | the front entry is returned and removed, and it is no longer in line |
| WaitingLines.WaitingLine1.Length | WaitingLineFamilyDesign/src/components/waitingline/WaitingLineKernel.java:35-41 | the number of entries |
| WaitingLines.WaitingLine1.Contains | WaitingLineFamilyDesign/src/components/waitingline/WaitingLine1.java:39-49 | true iff x is in line |
| WaitingLines.WaitingLine1.Remove | WaitingLineFamilyDesign/src/components/waitingline/WaitingLine1.java:51-64 | an entry in line is returned and removed from its position; otherwise nothing (`null`) is returned and the line is unchanged; x is not in line afterwards |
| WaitingLines.WaitingLine1.InsertAtFront | WaitingLineFamilyDesign/src/components/waitingline/WaitingLine1.java:88-91 | x becomes the front entry, ahead of the old line |
| WaitingLines.WaitingLine1.RotatingInsertAtFront | WaitingLineFamilyDesign/src/components/waitingline/WaitingLineSecondary.java:36-40 | adding at the back and rotating the rest behind also puts x in front of the old line |
| WaitingLines.Rotate | WaitingLineFamilyDesign/src/components/waitingline/WaitingLineSecondary.java:7-12 | the first n entries move behind the others |
| WaitingLines.WaitingLine1.Append | WaitingLineFamilyDesign/src/components/waitingline/WaitingLineSecondary.java:14-21 | q's entries join the back in order; q becomes empty |
| WaitingLines.WaitingLine1.Pos | WaitingLineFamilyDesign/src/components/waitingline/WaitingLineSecondary.java:23-34 | the index of x when in line, and 0 when absent; the line is unchanged |
| WaitingLines.WaitingLine1.MoveToFront | WaitingLineFamilyDesign/src/components/waitingline/WaitingLineSecondary.java:42-46 | x moves to the front and the others keep their order |
| WaitingLines.WaitingLine1.Equals | WaitingLineFamilyDesign/src/components/waitingline/WaitingLineSecondary.java:51-78 | true iff both lines hold the same entries in the same order |
| WaitingLines.WaitingLine1.HashCode | WaitingLineFamilyDesign/src/components/waitingline/WaitingLineSecondary.java:80-88 | Integer.MIN_VALUE plus the entries' hashes, in 32-bit int arithmetic |
| WaitingLines.HashIgnoresOrder | WaitingLineFamilyDesign/src/components/waitingline/WaitingLineSecondary.java:80-88 | lines holding the same entries in any order hash alike |
| WaitingLines.WaitingLine1.ToString | WaitingLineFamilyDesign/src/components/waitingline/WaitingLineSecondary.java:90-102 | "<" then the entries joined by ", " then ">" |
| WaitingLines.DistinctRemove | WaitingLineFamilyDesign/src/components/waitingline/WaitingLineKernel.java:53-66 | removing one entry of a duplicate-free line leaves it duplicate-free and without that entry |
| QueueOps.Line.Equals | Hw/src/Hw33.java:1-26 | true iff both queues hold the same entries in the same order; both are unchanged |
| QueueOps.Line.HashCode | Hw/src/Hw33.java:28-51 | the sum of the entries' hashes in 32-bit int arithmetic |
| QueueOps.HashIgnoresOrder | Hw/src/Hw33.java:28-51 | queues holding the same entries in any order hash alike |
| QueueOps.Line.ToString | Hw/src/Hw33.java:53-66 | "<" then the entries joined by "," then ">" |
| QueueOps.Line.FindThePosition | Hw/src/Hw33.java:68-101 | the LAST index holding the entry when it is present, 0 otherwise; the queue is unchanged |
| QueueOps.Line.ReplaceEntry | Hw/src/Hw33.java:103-143 | the entry at pos is returned and replaced by x; the others keep their places |
| LinkedCursor.List.Retreat | Hw/src/Hw19.java:14-22 | the last entry left of the cursor moves to the front of the right part; the list and the chain are unchanged |
| NaturalNumbers.CanonicalUnique | Hw/src/MidtermCorrect.java:7-9 | the convention makes the digit representation unique |
| NaturalNumbers.NaturalNumber21.MultiplyBy10 | Hw/src/MidtermCorrect.java:27-35 | the value becomes 10 * value + k and the convention is kept |
| NaturalNumbers.NaturalNumber21.DivideBy10 | Hw/src/MidtermCorrect.java:38-47 | returns value % 10, and the value becomes value / 10 |
| NaturalNumbers.NaturalNumber21.IsZero | Hw/src/MidtermCorrect.java:50-52 | true iff the value is 0 |
| BinaryTrees.Size1 | Hw/src/BinaryTreeSize.java:13-24 | the number of labels the tree's iterator yields |
| BinaryTrees.Size2 | Hw/src/BinaryTreeSize.java:36-43 | counting the iterated labels gives size1 |
| BinaryTrees.TreeToString | Hw/src/TreeToString.java:14-27 | "()" for the empty tree; every string ends with ")" |
| BinaryTrees.ParenthesesCount | Hw/src/TreeToString.java:14-27 | when no label prints a parenthesis, "(" and ")" each occur 2 * size + 1 times |
| BinaryTrees.Copy | Hw/src/TreeToString.java:37-47 | the copy equals the tree |
| BinaryTrees.SatisfiesHeapOrdering | Hw/src/Hw17.java:15-37 | true iff every node is at most its children |
| BinaryTrees.HeapRootIsLeast | Hw/src/Hw17.java:15-37 | in a heap-ordered tree the root is at most every label |
| BinaryTrees.IsGreaterThan | Hw/src/MidtermOne.java:130-145 | true iff x exceeds every label |
| BinaryTrees.IsInTree | Hw/src/MidtermOne.java:391-408 | true iff x is a label |
| SearchTrees.BstIffIncreasing | Hw/src/isInTree.java:17-34 | a tree is a binary search tree iff its in-order labels strictly increase |
| SearchTrees.BstIsInTree | Hw/src/isInTree.java:17-34 | on a binary search tree, the ordered search is true iff x is a label; Hw/src/MidtermOne.java lines 420-440 are a copy |
| SearchTrees.BstSearchAgrees | Hw/src/MidtermOne.java:391-440 | the ordered search and the search of every node agree |
| SearchTrees.RemoveSmallest | Hw/src/isInTree.java:63-80 | removes and returns the first in-order label; on a binary search tree that is the least label, and the result is a binary search tree of the others; Hw/src/BinaryTreeSearch.java lines 3-16 and Hw/src/MidtermOne.java lines 457-472 and 489-505 are copies |
| SearchTrees.RemoveFromBst | Hw/src/isInTree.java:37-61 | on a binary search tree the result is a binary search tree of the labels less x, one node smaller when x was present; an absent x leaves the tree unchanged |
| GeneralTrees.Size | Hw/src/Hw21.java:16-37 | the number of labels |
| GeneralTrees.Size2 | Hw/src/Hw21.java:49-59 | counting the iterated labels gives the same number |
| GeneralTrees.TreeHeight | Hw/src/Hw21.java:71-93 | 0 for the empty tree, otherwise 1 + the largest subtree height |
| GeneralTrees.HeightAtMostSize | Hw/src/Hw21.java:71-93 | the height is at most the size and is 0 only for the empty tree |
| GeneralTrees.Max | Hw/src/Hw21.java:107-121 | a label of the tree that is at least every label |
| GeneralTrees.TreeToString | Hw/src/Hw21.java:134-148 | the prefix string: "()" when empty, otherwise root(subtree strings) |
| GeneralTrees.PrefixStringBalanced | Hw/src/Hw21.java:134-148 | when no label prints a parenthesis, the string has as many "(" as ")" |
| ModAndHash.Mod | Hw/src/MidtermOne.java:334-356 | the result is in [0, b) and is the floored remainder of a by b |
| ModAndHash.HashCode | Hw/src/MidtermOne.java:366-375 | the sum of the character codes in 32-bit int arithmetic |
| ModAndHash.AnagramsHashAlike | Hw/src/MidtermOne.java:366-375 | strings with the same characters in any order hash alike |
| Smoothing.AverageBetween | SequenceSmooth/src/SequenceSmoothNewSeq.java:18-33 | the average of two ints lies between them and is an int; the code's sum agrees with it when it does not overflow |
| Smoothing.AverageOverflows | SequenceSmooth/src/SequenceSmoothNewSeq.java:45 | as written, MAX_VALUE averaged with itself gives -1 |
| Smoothing.SmoothedSplit | SequenceSmooth/src/SequenceSmoothNewSeq.java:18-33 | the stated contract: one entry shorter, and wherever s1 = a * <i, j> * b the result holds (i+j)/2 at index \|a\| |
| Smoothing.SmoothedAsWrittenIff | SequenceSmooth/src/SequenceSmoothNewSeq.java:42-48 | for a sequence of ints, the code's smoothed sequence (neighbours added as ints) equals the documented one if and only if no two neighbours overflow their sum |
| Smoothing.AverageAsWrittenIff | SequenceSmooth/src/SequenceSmoothNewSeq.java:45 | for two ints, `(var1 + var2) / 2` equals the exact average if and only if var1 + var2 is an int |
| Smoothing.Smooth | SequenceSmooth/src/SequenceSmoothNewSeq.java:34-50 | one entry shorter, with entry i the average of s1[i] and s1[i+1] |
| Smoothing.SmoothMain | SequenceSmooth/src/SequenceSmoothNewSeq.java:83-91 | the smoothed s1 goes in front of result's old entries; s1 is given back unchanged |
| Smoothing.Smooth2 | SequenceSmooth/src/SequenceSmoothNewSeq.java:62-69 | a fresh sequence, one entry shorter, with entry i the average of s1[i] and s1[i+1] |
| Smoothing.IntSequence.Add | SequenceSmooth/src/SequenceSmoothNewSeq.java:88-89 | x is inserted at pos |
| Smoothing.IntSequence.Remove | SequenceSmooth/src/SequenceSmoothNewSeq.java:85 | the entry at pos is returned and removed |
| WordCounter.CompareToZero | WordCounter/src/WordCounter.java:34-39 | compareTo is 0 iff the strings are equal |
| WordCounter.CompareToAntisymmetric | WordCounter/src/WordCounter.java:34-39 | compareTo changes sign when its arguments swap |
| WordCounter.CompareToTransitive | WordCounter/src/WordCounter.java:34-39 | compareTo is transitive |
| WordCounter.CompareIgnoresCase | WordCounter/src/WordCounter.java:34-39 | Compare is 0 iff the lower-cased strings are equal, and is antisymmetric and transitive: a total preorder |
| WordCounter.GenerateElements | WordCounter/src/WordCounter.java:88-99 | the set gains exactly the characters of the string |
| WordCounter.NextWordOrSeparator | WordCounter/src/WordCounter.java:112-144 | a nonempty slice of the text at the position, ending where the run of its class ends |
| WordCounter.SegmentClass | WordCounter/src/WordCounter.java:112-144 | the segment is all separators or all non-separators, and the next character is of the other class |
| WordCounter.SegmentsPartition | WordCounter/src/WordCounter.java:229-241 | the segments of a line concatenate to the line |
| WordCounter.WordsHaveNoSeparator | WordCounter/src/WordCounter.java:229-241 | the words kept hold no separator |
| WordCounter.WordsOfLine | WordCounter/src/WordCounter.java:229-241 | the loop collects the non-separator segments of the line, in order |
| WordCounter.CountWords | WordCounter/src/WordCounter.java:161-172 | each word's count grows by its number of occurrences; the keys become the old keys plus the words |
| WordCounter.TransferCounts | WordCounter/src/WordCounter.java:174-186 | every key moves to the word queue with its count kept; the map is left empty |
| PhoneNumbers.MapLetter | Hw/src/PhoneNumber.java:20-38 | a keypad digit between 2 and 9 |
| PhoneNumbers.MapLetterIsKeypad | Hw/src/PhoneNumber.java:20-38 | an upper-case letter maps to d iff it is printed on key d of the keypad |
| PhoneNumbers.PhoneNumber.HashCode | Hw/src/PhoneNumber.java:40-57 | the sum of the characters' keypad weights in 32-bit int arithmetic |
| PhoneNumbers.WeightBounds | Hw/src/PhoneNumber.java:40-57 | the unwrapped sum lies between 0 and 9 per character |
| PhoneNumbers.LettersHashAsDigits | Hw/src/PhoneNumber.java:40-57 | spelling a number with letters or with their keypad digits gives the same hash |
| Recursion.FactorialGrows | Hw/src/RecursionPractice.java:24-32 | n! is at least 1 and does not decrease |
| Recursion.NegativeArgumentRecursesDeep | Hw/src/RecursionPractice.java:24-32 | as written, factorial(n) or fib(n) with a negative n makes n + 2^32 nested calls, at least 2^31, before its argument first reaches 0, and all but one of them before it reaches 1 |
| Recursion.NestedArgumentWraps | Hw/src/RecursionPractice.java:29 | the k-th nested call gets n - k wrapped to an int |
| Recursion.FactorialExact | Hw/src/RecursionPractice.java:24-32 | whenever n! fits in an int, the int result is n! |
| Recursion.FibExact | Hw/src/RecursionPractice.java:76-86 | whenever fib(n) fits in an int, the int result is fib(n) |
| Recursion.ReverseIndex | Hw/src/RecursionPractice.java:40-48 | the reverse has the same length, with entry i the entry \|s\|-1-i |
| Recursion.ReverseInvolution | Hw/src/RecursionPractice.java:40-48 | reversing twice gives the string back |
| Recursion.FactorialTested | Hw/test/RecursionPracticeTest.java:28-41 | 5! = 120 and 7! = 5040 |
| Recursion.FibTested | Hw/test/RecursionPracticeTest.java:109-113 | fib(15) = 610 |
| Recursion.ReverseTested | Hw/test/RecursionPracticeTest.java:64-68 | the reverse of "hello" is "olleh" |
| PermutationSearch.ExtensionsShape | Hw/src/PermutationDFS.java:15-30 | every emitted sequence has length n, starts with the path, and holds distinct values in 1..n |
| PermutationSearch.EmittedArePermutations | Hw/src/PermutationDFS.java:15-30 | every emitted sequence is a permutation of 1..n |
| PermutationSearch.ExtensionsComplete | Hw/src/PermutationDFS.java:15-30 | every sequence of n distinct values in 1..n that starts with the path is emitted: no permutation is missed |
| PermutationSearch.EmitsExactly | Hw/src/PermutationDFS.java:15-30 | a sequence is emitted from the path if and only if it has n distinct values in 1..n and starts with the path; from the empty path, exactly the permutations of 1..n |
| PermutationSearch.ExtensionsSorted | Hw/src/PermutationDFS.java:21-29 | the sequences come out in strictly increasing lexicographic order, so none twice |
| PermutationSearch.Search.constructor | Hw/src/PermutationDFS.java:5-13 | no value used, the path empty, nothing emitted |
| PermutationSearch.Search.Dfs | Hw/src/PermutationDFS.java:15-30 | emits every completion of the path in order, and restores path and used |
| PermutationSearch.Search.TryValue | Hw/src/PermutationDFS.java:22-28 | one turn of the loop: an unused value is marked, searched below, and unmarked |

## Left out

- Input and output. The tokenizer, file readers and writers, the BL main
  programs and the word counter's HTML output, sorting and printing are not
  modelled. `Tokenizer.isCondition` and `isIdentifier` are given concrete
  definitions. The writer of the pretty-printer is a string that grows.
- `toStringCondition`, which the pretty-printer calls, is not part of this
  model. It is taken to print a condition the way the parser reads it.
- `RecursionPractice.printStars` and `main`, and PermutationDFS's printing.
  The permutations the search prints are kept in a ghost log.
- In-place updates of borrowed components: statements, trees, queues and
  sequences are passed as values and the updated value is returned.
  Where the source changes a borrowed value, the returned value carries the
  change. Examples are the lower-cased CALL names of generateCodeForStatement
  and the bodies `generatedCode` inlines through `context.value`. Aliasing
  between arguments is not modelled otherwise.
- BLCodeGen.GeneratedCode: the lower-casing of the inlined bodies is stated
  as a function of the body's CALL names (ContextAfter), not threaded through
  the recursion. The code does not depend on it: BLCodeGen.CodeOfRestored
  shows that an inlined body compiles alike before and after.
- Generic comparators are fixed to `int` order: the queue sort, the heap and
  the binary search tree.
- Reflection, `newInstance`, iterators, `null` and `instanceof`:
  - the iterators of trees and queues are the pre-order, in-order or queue
    order of the value;
  - `equals` compares two lines of the same type;
  - a `null` returned by `WaitingLine1.remove` is `None`.
- Java `char` case mapping and `Character.isDigit` are ASCII only.
- A Dafny string is a sequence of Unicode scalar values, while a Java
  String is a sequence of UTF-16 code units. A character outside the Basic
  Multilingual Plane is one `char` here and a surrogate pair in Java, so the
  members below are exact for Basic Multilingual Plane text only.
- ModAndHash.HashCode: sums one code per scalar value; Java sums the two
  surrogates of a supplementary character.
- PhoneNumbers.PhoneNumber.HashCode: likewise, one weight per scalar value.
- WordCounter.CompareToZero: compareTo is modelled on scalar values; Java
  compares UTF-16 code units, whose order differs for supplementary text.
- WordCounter.CompareToAntisymmetric: likewise, on scalar values.
- WordCounter.CompareToTransitive: likewise, on scalar values.
- WordCounter.CompareIgnoresCase: likewise, on scalar values.
- Recursion.ReverseIndex: reverses scalar values; Java's charAt recursion
  reverses code units and so splits surrogate pairs.
- Recursion.ReverseInvolution: likewise, on scalar values.
- Word counts and sequence lengths are unbounded integers: Java `int`
  overflow is modelled only in the hash codes, factorial, Fibonacci and the
  smoothing average (AverageAsWritten, SmoothedAsWritten).
- MidtermOne's other exercises are not modelled: the Map-backed stack
  (lines 88-104), the hash-table `removeAny` (106-114), `Set.contains`
  (216-226) and `setLengthOfLeftLengthStack` (62-77). Neither are
  MidtermTwo's duplicated helpers (622-713), or Hw29 and Hw36, which are
  not exercises of the modelled core.
- MidtermTwo leaves `heap` null in insertion mode: neither the constructor
  nor `createNewRep` assigns it, and only `changeToExtractionMode` builds an
  array. The model has no null array, so its constructor puts a fresh empty
  array in that place. CreateNewRep and Clear leave the array as it was, as
  the source does. It is never read in insertion mode, and changing to
  extraction mode replaces it.
- `SortingMachine5a.isInInsertionMode` and `order` are plain field reads
  and have no member of their own.
- GeneralTrees.Max: requires every subtree to be nonempty. The source's
  recursion reads the root of each subtree, so an empty subtree would fail.
- WaitingLines.WaitingLine1.Append: requires q's entries not to be in this
  already, because each addToLine it makes demands it.
- PermutationSearch.Search.TryValue: dfs's loop body, split into a method of
  its own so that the loop and the recursion each have a small proof.
- QueueOps.Line.ReplaceEntry: the removed entry starts from the queue's front
  entry rather than `null`, as Dafny needs a value of the entry type. The
  placeholder is always overwritten, because pos is in range.
- BLParser.ParsedStatement: its own contract says only that a successful
  parse consumes tokens and builds the statement kind of the front token.
  The consumed prefix is stated by BLUnparse.ParsedStatementSound, kept apart
  so that the grammar functions stay cheap to unfold.
- BLParser.ParsedIf: likewise; the consumed prefix is BLUnparse.IfSound.
- BLParser.ParsedWhile: likewise; the consumed prefix is BLUnparse.WhileSound.
- Smoothing.Smooth: s1 is a value, not the Sequence object, because the loop
  only reads it. It computes the corrected average of the finding below, on
  the exact sum; Smoothing.SmoothedAsWrittenIff states when the code's int sum
  gives the same sequence.
- Smoothing.SmoothMain: computes the corrected average, as Smoothing.Smooth.
- Smoothing.Smooth2: computes the corrected average, as Smoothing.Smooth.
- WordCounter.CountWords: the map is a value returned by the method.
- WordCounter.TransferCounts: the map is a value returned by the method.

## Findings

| source | as written | input that shows it | evidently intended | confidence | as-written member | corrected member |
|---|---|---|---|---|---|---|
| BLParser/src/Statement1Parse1.java:159-163 | parseWhile dequeues END and re-checks the WHILE it consumed first; the WHILE of END WHILE stays in the queue | `WHILE true DO END WHILE` read as a block fails with "Unepecting condition here" | dequeue and check the closing WHILE | not executed | BLUnparse.EmptyWhileBlockFails | BLUnparse.EmptyWhileBlockParses |
| Hw/src/Hw31.java:97-99 | a CALL of a context instruction compiles its body with `context.newInstance()`, an empty map, so a call inside it to another context instruction reaches `Instruction.valueOf` | the context {outer: CALL inner, inner: CALL move} with body CALL outer fails with "No enum constant Instruction.INNER" | inline through the whole context, as the contract at lines 19-28 promises when the context has no cycles | not executed | BLCodeGen.OneLevelOfInlining | BLCodeGen.IntendedProgramWellFormed |
| Hw/src/Hw31.java:98-104 | a CALL whose upper-cased name is JUMP or HALT compiles to that bare instruction | the program whose body is `CALL jump` compiles to [6, 5]: a JUMP whose target is HALT's opcode | only primitive instructions may be called | not executed | BLCodeGen.JumpCallIsMalformed | BLCodeGen.ProgramCodeWellFormed |
| SequenceSmooth/src/SequenceSmoothNewSeq.java:45 | `(var1 + var2) / 2` adds two ints, which overflows | smoothing <2147483647, 2147483647> gives <-1> | the average of two ints, which is always an int | not executed | Smoothing.AverageOverflows | Smoothing.AverageBetween |
| Hw/src/RecursionPractice.java:24-32 | factorial recurses on n - 1 until n == 0, and accepts any int from main (line 109) | factorial(-1): n - 1 wraps past Integer.MIN_VALUE, so the stack overflows long before 2^32 - 1 nested calls reach 0 | factorial is defined for n >= 0 only, and rejects negative n | not executed | Recursion.NegativeArgumentRecursesDeep | Recursion.FactorialExact |
| Hw/src/RecursionPractice.java:76-86 | fib recurses on n - 1 and n - 2 until n is 0 or 1, and accepts any int from main (line 115) | fib(-1): its chain of n - 1 calls first meets 1 after 2^32 - 2 nested calls, so the stack overflows | fib is defined for n >= 0 only, and rejects negative n | not executed | Recursion.NegativeArgumentRecursesDeep | Recursion.FibExact |
