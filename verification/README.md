# Bombyx in Dafny

Bombyx is a small scripting language. Its interpreter reads a program text, emits bytecode for
a stack machine while it reads, and runs the bytecode. There are no jump targets: branches and
loops are driven by a level counter, one flag and one return point a level, and a skip mode that
counts braces; definitions of blocks overwrite themselves once they have been executed. This project
models the interpreter from the text to the result, and proves that running a program's text does
what the program means. It also models the value layer (hash tables, deep copies) and the bit-level
and string algorithms of the libraries around the interpreter.

## How the model is laid out

| files | about |
|---|---|
| `Bytecode`, `Emitter` | instructions, their bytes, the growing buffer they are written to |
| `Values`, `Tables`, `HashTable`, `DeepCopy`, `Reversal` | operators, variable tables, chained nodes, copies of arrays and maps |
| `Whole`, `Exactness`, `Numerals`, `Calculation` | what operators, expressions and their texts are worth in whole numbers and texts |
| `Machine`, `Silk` | one dispatch of the machine as a function on states; the machine itself as a class, refining it |
| `Syntax`, `Semantics`, `Fragment` | program trees, the code emitted for them, their meaning, and which trees the simulation covers |
| `Skipping`, `Balance`, `Steps`, `Operands`, `Branches`, `CallRuns`, `Simulation`, `Program`, `Levels`, `Tags` | the machine, run on that code, does what the trees mean |
| `Grammar`, `Parser`, `Rendering`, `Effects`, `Expressions` | the expression reader: as a function to trees, as a class that emits in one pass; texts and back |
| `Digest`, `Larva`, `Scanning`, `Pieces`, `Layout` | the statement reader and whole program texts |
| `Chew`, `Cleaning`, `Files`, `Interpreter`, `Example`, `Remainders` | cleaning a source file, the interpreter end to end, a program that meets all conditions, and one from its characters to what it prints |
| `Nested` | blocks defined while a block runs |
| `Limits` | where the code departs from what a caller may expect, and exactly when |
| `Utf8`, `Replace`, `Challoc`, `Feistel`, `KeySetup`, `Salt` | UTF-8 length, string replacement, chunk allocation, the parts of bcrypt |

Some functions carry no contract because everything else is proved about them: `Machine.Step` and
`Machine.Run` (the machine, core/larva_silk.c), `Syntax.Compile`, `CompileStmt` and `FnCode` (what is
emitted for a tree), `Semantics.Evaluate`, `Execute` and `Invoke` (what a tree means, by recursion on it,
with fuel for calls and loop rounds), `Values.Apply` (core/operator.c; what it computes is in `Whole`), the readers of `Grammar` and
`Digest`, and `Rendering.Render` and `Layout.SourceText` (how trees are written down).

Numbers are eight bytes; arithmetic on them, conversion from and to text, and foreign functions are fields
of an arbitrary `Values.Host`, so every theorem holds for all of them. `Whole.Exact` is the host whose doubles hold
the whole numbers up to 2^53 exactly, as those of IEEE 754 do, negative zero being no whole number;
`Whole.EvaluateComputes` says what expressions are worth on it in Dafny's own integers, and
`Exactness.CalculatorIsExact` that there is one. `Remainders.InterpretDivides` takes one program, given by its
characters, from there to what it prints for all numbers. An error that the
interpreter reports is `RuntimeError`; `Undefined` is what the C language leaves undefined (a null or missing
entry written through, a token beyond the end of the buffer); `Hang` is a return that unwinds forever;
`Unmodelled` is an instruction or an inclusion named in the last section.

The chain of main results is this. `Layout.SourceRoundTrip`: a program's text is digested into exactly the code
of its tree. How many empty lines stand above each line, how lines are indented, the blanks inside expressions and
in front of conditions, whether a brace stands on its own line or on that of what is in front of it, and how many
declarations go into one list are free.
`Program.ProgramRuns`: that code, run from its first byte, ends with the variables and the output that the tree
means, or with the same error, or is still running after as many steps as the meaning had fuel.
`Program.HaltsIffMeaningful`: it halts if and only if some fuel suffices. `Interpreter.InterpretSource` composes
these with the cleaning of the source file, for the methods that do the work: `Chew.LarvaChew`, `Larva.Digester`
and `Silk.Vm`. It speaks of every file that cleaning turns into the program's text, so of any comments and
escapes; `Files.Expressible` says for which programs there is such a file.

## Model

| member | source | states |
|---|---|---|
| Bytecode.DecodeEncode | core/bytecode.c:17-55 | wherever an encodable instruction lies in a buffer, the machine's operand widths read it back, and stop right behind it |
| Bytecode.FlattenHas | core/bytecode.c:17-55 | an emitted list of instructions is read back as the same list, whatever surrounds it |
| Bytecode.HasConcat | core/larva_silk.c:34-58 | a list is in place at a position if and only if its first part is there and its second part behind it |
| Bytecode.HasLocal | core/larva_silk.c:34-58 | reading a list depends on the bytes of that list only |
| Emitter.Buffer.constructor | core/bytecode.c:4-9 | an empty buffer of the initial size |
| Emitter.Buffer.Grow | core/bytecode.c:57-61 | growth adds the step to the size and keeps contents and position |
| Emitter.Buffer.AddCmd | core/bytecode.c:17-22 | exactly one byte is appended, at any fill, and the position stays within the buffer |
| Emitter.Buffer.AddToken | core/bytecode.c:24-34 | the length byte and the token are appended if they fit behind at most one growth; the result says exactly when |
| Emitter.Buffer.AddDouble | core/bytecode.c:36-43 | the eight bytes of a number are always appended in bounds |
| Emitter.Buffer.AddString | core/bytecode.c:45-55 | two length bytes and the text cut to sixteen bits of length, in bounds exactly if one growth makes room |
| Emitter.Buffer.AddItem | core/bytecode.c:24-34 | the check of token and string compares only the item with the free room: the write is inside if and only if the item is not longer than the buffer and fits behind one growth |
| Emitter.Buffer.Emit | core/bytecode.c:17-55 | any instruction with tokens below 256 bytes and texts of at most the growth step less 2 is appended whole, growing only when needed |
| Emitter.Buffer.Ready | core/bytecode.c:63-81 | the finished code is what was emitted and one idle byte, and reading starts at its first byte |
| Emitter.EmitAll | core/bytecode.c:4-81 | a list of small instructions of any number, written to a fresh buffer, reads back from the finished code as the same list; the buffer has never grown further than its contents ask for |
| Tables.DeclareRepresents | core/var.c:74-99 | adding never overwrites: a known name leaves the map alone, a new one adds exactly one binding; names stay unique and in their buckets |
| Tables.PutRepresents | core/var.c:164-182 | writing through an entry updates exactly its binding |
| Tables.RemoveRepresents | core/map.c:80-105 | deleting removes its key and nothing else |
| Tables.FindPrefixInExact | core/var.c:61-72 | the lookup that compares as many bytes as the key has finds the key itself, or rightly nothing, if and only if no longer name starting with the key comes before it in its bucket |
| Tables.LookupPrefixExact | core/var.c:61-72 | on names none of which starts another of the same bucket, both lookups agree with the finite map |
| HashTable.HashStep | core/var.c:36-43 | the shift and the subtraction of the hash multiply by 31, wrap-around included |
| HashTable.HashTable.constructor | core/var.c:12-34 | all buckets are empty |
| HashTable.HashTable.Hash | core/var.c:36-43 | the loop computes the bucket that the finite-map theorems speak about |
| HashTable.HashTable.LookupNode | core/map.c:39-50 | the node found is the first of its bucket with that name, or none is there |
| HashTable.HashTable.LookupValue | core/var.c:45-56 | the walk along the nodes finds what the table as a value holds |
| HashTable.HashTable.LookupByPrefix | core/var.c:61-72 | the walk finds the first bucket-mate that starts with the key |
| HashTable.HashTable.Add | core/block.c:50-71 | a new node goes to the head of its bucket, a known name gets its old node; all other chains are as before |
| HashTable.HashTable.Unlink | core/block.c:83-92 | the k-th node leaves its chain, no other chain and no value changes |
| HashTable.HashTable.Delete | core/var.c:101-127 | the nodes after unlinking represent the table without the key; the result tells whether it was there |
| HashTable.HashTable.Store | core/var.c:164-182 | writing through a found node is an update of the table as a value |
| HashTable.Perform | core/map.c:55-105 | each operation on the nodes does to the finite map what its name says |
| HashTable.PerformAll | core/map.c:6-105 | after any sequence of operations from creation on, the nodes represent the finite map built by the same operations |
| Reversal.XorSwap | core/operator.c:246-251 | three exclusive-ors exchange two different bytes and touch nothing else |
| Reversal.ReverseString | core/operator.c:240-261 | walking inwards from both ends reverses the string and leaves its terminating zero |
| Reversal.ReversedTwice | core/operator.c:240-261 | minus twice gives the string back |
| Whole.OperatorComputes | core/operator.c:86-411 | every operator on numbers, texts and the unset value in any combination: the whole number, text or error in terms of integers and byte order, wherever the result is a whole number |
| Whole.TextsAreOrdered | core/operator.c:356-390 | of `<`, `==` and `>` exactly one holds between two texts |
| Whole.NegateComputes | core/operator.c:234-269 | minus negates numbers and turns texts around |
| Whole.InvertComputes | core/operator.c:271-281 | `!` is 1 for 0 and 0 for other numbers |
| Whole.TruthComputes | core/operator.c:341-351 | conditions hold for numbers other than 0 and for texts with a character in them |
| Whole.BumpComputes | core/operator.c:283-307 | counting adds or subtracts one |
| Whole.EvaluateComputes | core/operator.c:86-411 | evaluating any expression of literals, variables and operators gives the value, or the error, that a function on trees over integers and texts gives |
| Whole.CountComputes | core/operator.c:283-307 | counting a variable changes it by one and is worth the new value |
| Whole.AssignComputes | core/larva_silk.c:79-92 | an assignment gives the variable the value on its right and is worth what the variable was before |
| Exactness.CalculatorIsExact | core/operator.c:86-411 | eight bytes can hold the whole numbers up to 2^53 with all these operations: the condition on hosts can be met |
| DeepCopy.ArrayClone | core/array.c:84-108 | the clone has the same elements and holes at the same indices and consists of fresh cells only; its recorded capacity is at least 100 although only the original's capacity was set aside |
| DeepCopy.MapTableClone | core/map.c:130-152 | the clone consists of fresh nodes and values and has the same names with the same values; every chain is the original one from back to front |
| DeepCopy.CloneLooksUp | core/map.c:130-152 | a cloned map answers every lookup with the copy of what the original answers, which is the same value |
| DeepCopy.LookupMirrored | core/map.c:130-152 | turning a chain of distinct names around changes no lookup |
| DeepCopy.MirrorTwice | core/map.c:130-152 | cloning twice gives the original back, chain order included |
| DeepCopy.MirrorIsSame | core/array.c:96-104 | a copy is the same value: equal numbers and strings, arrays of the same elements and holes index by index, maps of the same names with the same values, to any depth |
| DeepCopy.FlatIsKept | core/array.c:96-104 | a value without maps is copied to the letter |
| DeepCopy.SameLooksUp | core/map.c:130-152 | buckets with the same names and values answer every lookup alike, in whatever order they keep them |
| DeepCopy.Overwrite | core/operator.c:24-46 | a destination of the same type and size ends up denoting the same value as the source, in its own cells or fresh ones |
| DeepCopy.Replace | core/operator.c:47-83 | any other destination gets a copy made of fresh cells |
| DeepCopy.OpCopy | core/operator.c:22-84 | for every tree of numbers, strings, arrays and maps and a destination apart from it: the destination denotes the same value, the source is untouched, and they share no cell |
| Skipping.SkipList | core/larva_silk.c:42-50 | skipping a list changes position, brace depth and, at block ends, the recorded parent block only; operands are never taken for opcodes |
| Skipping.SkipExactly | core/larva_silk.c:407-455 | skip mode entered before a block start ends one byte behind the matching block end, for every balanced body, with stack, variables, levels, flags and return points unchanged |
| Balance.ExprInert | core/expression.c:265-843 | code of an expression holds no brace and nothing that skip mode mistakes for one |
| Balance.StmtBalanced | core/larva.c:295-355 | code of a statement nests its braces as deep as its tree, and every instruction fits its operand widths |
| Balance.FnBalanced | core/larva.c:272-294 | so does the whole body of a block |
| Machine.RunAdd | core/larva_silk.c:34-58 | running is step by step: a run can be cut anywhere |
| Operands.SimParams | core/larva_silk.c:747-770 | the i-th parameter takes the i-th argument, and nothing else of the stack is used |
| CallRuns.SimEnter | core/larva_silk.c:274-298 | reversing, calling and taking parameters enters the block one level up with its parameters bound, the return point behind the call, and the pending operands below |
| CallRuns.FallsOff | core/larva_silk.c:416-455 | a block that ends without `return` comes back to its return point, one level down, with 0 on top |
| CallRuns.ReturnsTop | core/larva_silk.c:478-513 | a direct `return` comes back with exactly the returned value on top of the pending operands |
| CallRuns.SimForeign | core/larva_silk.c:300-365 | a foreign call consumes its arguments and leaves one result |
| Simulation.SimExpr | core/larva_silk.c:543-722 | running the code of any expression of the fragment, calls and recursion included, pushes one operand, the value, the variable and, where its tree decides it, the tag that direct evaluation gives, or faults alike, or runs at least as long as the fuel |
| Simulation.SimArgs | core/expression.c:215-263 | arguments are evaluated left to right and lie on the stack in that order |
| Simulation.SimCall | core/larva_silk.c:274-298 | with pending operands tagged at most the caller's level, a call leaves them in place and pushes exactly one result on the caller's level |
| Simulation.SimInvoke | core/larva_silk.c:478-513 | the body of a block, from its first statement to its return, does what invoking it means |
| Branches.IfTrue | core/larva_silk.c:542-561 | a condition that holds runs the first block and leaves the level behind it |
| Branches.IfFalse | core/larva_silk.c:542-561 | a condition that fails skips exactly the first block and leaves the mark that `else` looks for |
| Branches.ElseSkipped | core/larva_silk.c:530-540 | after a taken block the other one is skipped exactly |
| Branches.ElseTaken | core/larva_silk.c:530-540 | after a skipped block the other one runs |
| Branches.WhileEnds | core/larva_silk.c:542-561 | a loop whose condition fails is left behind its body, at the level in front of it |
| Branches.WhileRound | core/larva_silk.c:416-455 | after one round the machine is back at the loop's first instruction with the round's variables and output |
| Simulation.SimStmt | core/larva.c:295-371 | every statement, nested to any depth, ends where its code ends with the variables, output and level that its meaning gives, skip mode off, and the operands below shielded |
| Simulation.SimIfElse | core/larva_silk.c:523-561 | the same for both branches together |
| Simulation.SimWhile | core/larva_silk.c:515-521 | the same for loops of any number of rounds |
| Simulation.SimStmts | core/larva.c:163-371 | the same for statement lists; blocks without bare expressions leave no operand behind |
| Tags.CompletedDecides | core/stack.c:5-34 | the blocks computed from the trees are exactly those whose own return expressions ask for tag 0 |
| Tags.CompletedFits | core/stack.c:5-34 | a program covered by the simulation under any claims about tags is covered under the computed ones |
| Program.PatchedReads | core/larva_silk.c:393-396 | the rewritten bytes are read as idle instructions and one skip over the same stretch, so no boundary behind them moves |
| Program.DefineOnce | core/larva_silk.c:367-400 | a definition with a new name records the position of its block start, patches itself, and ends behind the body |
| Program.DefineAgain | core/larva_silk.c:402-405 | every later pass skips the body exactly and changes nothing, the block table included |
| Program.DefineAll | core/larva_silk.c:367-400 | passing over definitions with distinct names records each of them once, with its code in place |
| Program.ProgramRuns | core/larva_silk.c:12-827 | code of a whole program ends with the variables and output the program means, or with the same error, or runs at least as many steps as the fuel |
| Program.HaltsIffMeaningful | core/larva_silk.c:34-34 | unless the level counter overflows, the machine halts on a program if and only if some fuel gives it a meaning |
| Levels.RankedHalts | core/larva_silk.c:34-34 | for a program without recursion whose levels, counted over its trees and calls, stay within 255, no fuel drives the level counter over, and the machine halts if and only if some fuel suffices |
| Silk.Vm.constructor | core/larva_silk.c:12-30 | the state that running a finished buffer starts from |
| Silk.Vm.Clear | core/stack.c:27-34 | entries go from the top down to the first one tagged below the current level |
| Silk.Vm.ReadToken | core/larva_silk.c:60-66 | a length byte and that many bytes, or undefined behaviour behind the end |
| Silk.Vm.OnAsVar | core/larva_silk.c:60-77 | reading a variable, as the step function has it, errors included |
| Silk.Vm.OnVarx | core/larva_silk.c:723-745 | defining a variable from the top of the stack |
| Silk.Vm.OnParam | core/larva_silk.c:747-770 | taking one argument while any is left |
| Silk.Vm.OnParamx | core/larva_silk.c:772-805 | taking one argument, or the default value |
| Silk.Vm.OnCall | core/larva_silk.c:274-298 | entering a block or failing on an unknown name |
| Silk.Vm.PatchDefinition | core/larva_silk.c:394-395 | the in-place rewriting of a definition |
| Silk.Vm.OnBlockDef | core/larva_silk.c:367-400 | a definition, first or repeated, inside a block or not |
| Silk.Vm.OnText | core/larva_silk.c:186-216 | texts of any length byte pair; the JSON variant reads the same length although it copies two bytes into a wider variable |
| Silk.Vm.ReadLength | core/larva_silk.c:186-204 | the two length bytes give the true length, in both variants |
| Silk.Vm.SwapEntries | core/larva_silk.c:462-476 | exchanging pairs from the middle outwards sends every one of the top n entries to its mirror place |
| Silk.Vm.ReverseEntries | core/larva_silk.c:462-476 | the top n entries are reversed, the others stay |
| Silk.Vm.OnXcall | core/larva_silk.c:300-365 | a foreign call with its two names and its argument count |
| Silk.Vm.OnBinary | core/larva_silk.c:563-687 | binary operators: which operand keeps its reference and its tag, and what is pushed anew |
| Silk.Vm.OnSet | core/larva_silk.c:79-92 | assignment through a reference, leaving the left operand's old value on the stack |
| Silk.Vm.OnBump | core/larva_silk.c:689-697 | counting up or down the operand and the variable behind it |
| Silk.Vm.OnElse | core/larva_silk.c:530-540 | whether the second block runs, by the mark one level up |
| Silk.Vm.OnCeit | core/larva_silk.c:542-561 | the test of a condition, and what it sets when it fails |
| Silk.Vm.Unwind | core/larva_silk.c:500-509 | the loop of a return from inside a branch |
| Silk.Vm.OnReturn | core/larva_silk.c:478-513 | a return, with or without a value, direct or nested |
| Silk.Vm.OnBlockEnd | core/larva_silk.c:416-455 | a block end in skip mode, in a definition, and at the end of a block, a branch or a loop |
| Silk.DispatchSplits | core/larva_silk.c:58-58 | dispatching on the opcode and reading operands later is the same as decoding the whole instruction first |
| Silk.Vm.Step | core/larva_silk.c:34-58 | one round of the loop on fields and arrays is one step of the step function |
| Silk.Vm.Execute | core/larva_silk.c:12-827 | if the run halts, the loop ends in its last state, with the stack cleared |
| Parser.Reader.EatNumber | core/expression.c:133-195 | the characters taken for a number are those the grammar gives it |
| Parser.Reader.ReadDouble | core/expression.c:133-200 | a literal is emitted as the tree of the literal |
| Parser.Reader.ReadArguments | core/expression.c:215-263 | at most 16 arguments, emitted in order and counted |
| Parser.Reader.ReadAtom | core/expression.c:265-433 | names, calls, element access, assignments to elements and foreign calls emit the code of the tree the grammar reads |
| Parser.Reader.ReadParen | core/expression.c:435-463 | parentheses emit the code of what they enclose |
| Parser.Reader.ReadUnary | core/expression.c:465-521 | `!`, and signs that turn out to count up or down |
| Parser.Reader.ReadPower | core/expression.c:523-546 | powers group to the right |
| Parser.Reader.ReadProduct | core/expression.c:548-587 | products group to the left |
| Parser.Reader.ReadSum | core/expression.c:589-640 | sums group to the left, behind an optional leading minus |
| Parser.Reader.ReadComparison | core/expression.c:642-698 | at most one comparison |
| Parser.Reader.ReadEquality | core/expression.c:700-765 | at most one equality or assignment |
| Parser.Reader.ReadConjunction | core/expression.c:767-804 | conjunctions group to the left |
| Parser.Reader.ReadDisjunction | core/expression.c:806-843 | disjunctions group to the left |
| Parser.Reader.ParseAll | core/expression.c:81-90 | a text is accepted if and only if the grammar reads it to its end |
| Parser.ParseExpression | core/expression.c:53-79 | for any text at all, reading in one pass fails or stops, and then has appended exactly the code of the tree that the grammar reads |
| Grammar.Disjunction | core/expression.c:806-843 | an expression that is read takes up at least one character and stays in front of the terminating zero |
| Grammar.Arguments | core/expression.c:215-263 | an argument list ends at its closing parenthesis and holds at most 16 arguments |
| Rendering.RoundTrip | core/expression.c:435-843 | every printable tree, written with as few parentheses as its operators need and with any white space, is read back as itself: `^` to the right, comparisons not at all, everything else to the left |
| Rendering.RoundTripEnclosed | core/expression.c:435-463 | so is every tree in parentheses, with white space inside them |
| Effects.CompileDepth | core/expression.c:265-843 | code of a tree without `print` and block calls leaves exactly one entry more, and never looks below its starting depth |
| Effects.RunDepth | core/larva_silk.c:543-822 | the machine's stack follows those counts and keeps every entry below |
| Effects.AcceptedText | core/expression.c:265-843 | for every accepted text without `print` and block calls: at every moment of running its code nothing below the starting depth has been touched, and at the end there is one entry more, unless there was an error |
| Expressions.PureKeeps | core/larva_silk.c:563-707 | expressions without assignments, counting and calls change no variable, whatever the fuel |
| Expressions.TextToValue | core/expression.c:435-843 | parse the text of such an expression and run the bytes: one value more on the stack, the one direct evaluation gives, old stack, variables and output unchanged |
| Numerals.NumeralRead | core/expression.c:133-195 | sign, digits, point, digits, exponent: every numeral that the next character cannot go on with is read to its end |
| Numerals.NumeralFound | core/expression.c:133-195 | whatever is taken for a number is such a numeral |
| Calculation.TextComputes | core/expression.c:435-843 | parse the text of an expression and run its bytes: the value that the function over integers and texts gives is pushed, or its error comes up |
| Calculation.TwoNumbers | core/expression.c:435-843 | two decimal numbers with the characters of any operator between them push what the operator makes of the integers |
| Calculation.ThreeNumbers | core/expression.c:435-843 | three numbers and two operators in a row: which of any two operators goes first |
| Calculation.ForeignCall | core/larva_silk.c:300-365 | a foreign function gets its arguments from the first to the last |
| Digest.ReadToken | core/larva.c:373-400 | a token that was read has fewer than 256 bytes, moves the position on, and is empty only at the end of the text |
| Digest.Statement | core/larva.c:163-371 | a statement that was read moves the position on |
| Digest.JsonEndsFirst | core/larva.c:233-237 | a JSON text ends at the first zero byte, line break or closing parenthesis, whatever its quotes |
| Larva.Digester.LarvaReadToken | core/larva.c:373-400 | the loop reads the token the functional reader describes |
| Larva.Digester.Parse | core/expression.c:7-45 | the expression up to a newline, a comma or a surplus parenthesis outside quotes is emitted |
| Larva.Digester.ParseCondition | core/larva.c:297-319 | the condition up to the parenthesis that closes the first one, quotes or not, is emitted |
| Larva.Digester.ReadInitial | core/larva.c:229-263 | the value of a declaration, or its JSON text |
| Larva.Digester.ReadDeclaration | core/larva.c:177-270 | one variable or parameter, in each of its seven endings |
| Larva.Digester.ReadDeclarations | core/larva.c:173-271 | all of them up to the last comma |
| Larva.Digester.ReadReturn | core/larva.c:272-279 | the stack is cleared before the value, and the return emitted behind it |
| Larva.Digester.ReadBlock | core/larva.c:280-294 | a block's name, its start, and its parameters |
| Larva.Digester.ReadStatement | core/larva.c:163-371 | one round of the loop emits the statement's instructions and hands on whether a brace has been announced |
| Larva.Digester.LarvaDigest | core/larva.c:156-371 | the loop over any text emits what the functional reader of that text gives, or stops with its error |
| Scanning.ExprEndTracks | core/expression.c:7-45 | scanning for the end of an expression passes over any text that keeps the parenthesis level from falling |
| Scanning.CondEndTracks | core/larva.c:297-309 | the same for the scan of a condition, whose level wraps around at 64 bits and that ignores quotes |
| Scanning.RenderPasses | core/expression.c:7-45 | the text of every printable tree is such a text |
| Layout.GoesOverNewline | core/larva.c:369-369 | a newline in front of a statement makes no difference, so empty lines do not |
| Layout.DigestList | core/larva.c:173-271 | a list of declarations, with and without values, is digested into the code of the declarations one by one |
| Layout.DigestStmt | core/larva.c:295-371 | the text of any statement tree is digested into exactly the code of that tree |
| Layout.DigestDef | core/larva.c:280-294 | so is the text of a block with its parameters, body and return |
| Layout.SourceRoundTrip | core/larva.c:156-371 | a whole program, written in any style, is digested into exactly its own code |
| Layout.SourcePiece | core/larva.c:112-151 | in a program's text quotes come in pairs, no `#` and no zero byte stands outside them, and there is a backslash if and only if a quoted text of the program has one |
| Larva.Digester.LarvaInit | core/larva.c:32-109 | the search for `include` and `use` over any clean text ends as its functional form does |
| Digest.QuietPasses | core/larva.c:32-109 | the search gets through every text with a complete last line in which no token is overlong or the word `include` |
| Files.FileTerminated | console.c:70-78 | cleaning loses the terminating zero of a file if and only if the file is empty or ends inside a comment or behind an escaping backslash |
| Files.TextIsClean | core/larva.c:112-151 | a program's text, taken as a file, is clean as it stands if and only if none of its quoted texts has a backslash |
| Files.Expressible | core/larva.c:112-151 | some file has a program's text as its cleaned form if and only if none of the program's quoted texts has a backslash |
| Files.QuietSource | core/larva.c:32-109 | the search stops at no program text without overlong tokens and `include` whose braces end their lines |
| Interpreter.TextRuns | core/larva_silk.c:12-827 | run on what a clean text is digested into, the machine does what the program means |
| Interpreter.Interpret | console.c:63-117 | cleaning, searching, digesting and running any file whose run halts gives the final variables and output, or the error of the step that stops |
| Interpreter.EmitCompiled | core/bytecode.c:4-81 | when the texts in it are short enough for one growth each, the growing buffer ends up holding exactly the code the machine starts on, every write in bounds |
| Interpreter.InterpretSource | console.c:63-117 | for every file whose cleaned form is the text of a program, whatever its comments and escapes: the variables and the output that the program means, or its error, unless the search for inclusions stops first |
| Remainders.ProgramText | core/larva.c:163-371 | the characters of a program with a block, a loop, a branch and printing are the text of its tree |
| Remainders.DividesMeans | core/larva_silk.c:407-561 | that program means printing whether its second number divides its first |
| Remainders.InterpretDivides | core/larva_silk.c:12-827 | interpreting those characters prints `yes` or `no` rightly for all numbers up to 2^53 |
| Remainders.PrintsInOrder | core/larva_silk.c:807-812 | what is printed comes behind what was printed before |
| Example.RecursiveIsWritten | core/larva.c:156-371 | the conditions of these theorems can be met: a program with `f(n-1)+f(n-1)` inside f fulfils them in every style |
| Limits.NestedReturn | core/larva_silk.c:500-509 | a return from inside a branch resumes behind the outermost call on level 0, so it reaches its own caller if and only if the block was called from level 0 |
| Limits.PendingStays | core/stack.c:27-34 | calling any clean block at any level over any stack leaves the operands down from the first one tagged at most the caller's level, and the result on top; so all of them stay if and only if the topmost is tagged at most that level. The result is tagged 0 if the block is one of those computed by Tags.ZeroBlocks, and above the caller's level if not |
| Limits.SumOfCalls | core/stack.c:27-34 | an operator behind two calls of clean blocks, over any stack, finds both results if and only if the first block is in Tags.ZeroBlocks, which is computed from the trees; otherwise it takes what was pending before, or fails on an empty stack |
| Limits.SumOfLiterals | core/stack.c:27-34 | both cases occur: `f() + g()` of two literal blocks has a value, and the machine computes it if and only if f returns a number |
| Limits.LastLine | core/expression.c:7-45 | the digestion of a last line with an expression reads behind the end of the text if and only if no newline, comma or surplus parenthesis ends it |
| Limits.LateDefinition | core/larva_silk.c:383-391 | a definition becomes callable by its own name if and only if no block has been called before it |
| Limits.DefinedAfterCall | core/larva_silk.c:383-391 | once a call has been executed, whatever runs in between, no definition of a new name is callable by that name |
| Nested.NestedDefinition | core/larva_silk.c:382-391 | in every run, once block f has been called and whatever else runs without another call, a definition of g makes `f.g` callable, and a call of it goes right behind the definition |
| Nested.SameBlock | core/larva_silk.c:274-298 | only a call changes the block that definitions are named after |
| Nested.NamesStay | core/block.c:50-71 | every block is recorded under the name it carries, in every run |
| Limits.DefaultParameter | core/larva_silk.c:772-805 | a parameter with a default takes the argument if one is left and set, else the default; whatever lies below the default is lost with it, which without an argument is an operand of the caller |
| Limits.MissingArgument | core/larva_silk.c:747-770 | a parameter is refused if and only if the counter of arguments is at 0, and otherwise takes the topmost operand, whoever it belongs to |
| Limits.ArgumentCounter | core/expression.c:303-318 | a call sets the counter to the number of its arguments, but a call without arguments leaves it as it was |
| Limits.RedefinitionFaults | core/block.c:60-63 | defining a name twice ends, at the first block end of the second body, in a write through a null pointer |
| Limits.RepeatedDefinition | core/block.c:60-63 | a whole program comes through its definitions if their names are distinct, and writes through a null pointer before its first statement if they are not |
| Limits.ElementComparison | core/expression.c:350-362 | `name[i] == e` is never accepted: its first equals sign is taken for an assignment |
| Limits.GluedBrace | core/larva.c:369-369 | an opening brace directly behind a condition is swallowed, and no block start is emitted for it |
| Limits.EmptyParameters | core/larva.c:193-227 | behind an empty list of parameters, the brace of the block is refused on the same line |
| Utf8.ZeroByte | cocoons/text/text.c:181-182 | the subtraction test is nonzero if and only if one of the eight bytes is zero |
| Utf8.BlockMarks | cocoons/text/text.c:185-185 | shift and mask leave the bottom bit of exactly those bytes that continue a character |
| Utf8.ByteSum | cocoons/text/text.c:186-186 | the multiplication adds the eight bits up in the topmost byte |
| Utf8.BlockCounts | cocoons/text/text.c:184-186 | so a word contributes the number of its continuing bytes |
| Utf8.CountBlocks | cocoons/text/text.c:172-187 | the loop over words stays inside the string and counts its continuing bytes |
| Utf8.StrlenUtf8 | cocoons/text/text.c:153-203 | for every string at every alignment: the number of bytes in front of the zero that are not of the form 10xxxxxx |
| Utf8.CountsCharacters | cocoons/text/text.c:153-203 | for text that is well-formed by section 4 of RFC 3629 that is the number of characters |
| Replace.Find | core/sys.c:100-100 | the place found is an occurrence and no occurrence is before it |
| Replace.ReplacesPieces | core/sys.c:90-143 | there is one list of pieces that gives the text when joined with the old string and the result when joined with the new one, one piece more than occurrences counted |
| Replace.PiecesAreFree | core/sys.c:100-101 | no occurrence starts inside a piece, so the occurrences are the leftmost that do not overlap |
| Replace.CountOccurrences | core/sys.c:98-101 | the counting pass counts exactly the occurrences that get replaced |
| Replace.ReplacedLength | core/sys.c:103-103 | the length of the result, from the count and both lengths |
| Replace.WrappedLengthExact | core/sys.c:103-103 | the unsigned formula gives that length even where a difference or a product wraps around |
| Replace.ResultLength | core/sys.c:94-106 | on the path of equal and on that of different lengths the buffer is sized exactly |
| Replace.StrReplace | core/sys.c:90-143 | the buffer, filled to its last byte, holds the leftmost non-overlapping replacement and a terminating zero |
| Chew.SkipComment | core/larva.c:130-139 | where either kind of comment ends |
| Chew.LarvaChew | core/larva.c:112-151 | the loop writes the cleaned text into a buffer that always has room |
| Cleaning.PartsSay | core/larva.c:112-151 | a text made of letters, escapes and comments is cleaned to what these say: a newline for `\n`, a tab for `\t`, nothing for any other escape and for comments |
| Cleaning.MadeOfParts | core/larva.c:112-151 | every text is made of these, unless it ends inside a comment or an escape |
| Cleaning.CleanedIffSaid | core/larva.c:112-151 | so cleaning such a text makes of it exactly what its pieces say |
| Cleaning.ChewedConcat | core/larva.c:112-151 | two texts one behind the other are cleaned one by one, the second in the quote state that the first leaves |
| Cleaning.CommentSaysNothing | core/larva.c:130-139 | a comment of either kind, put anywhere outside quotes, takes nothing but itself away |
| Cleaning.EscapeCleaned | core/larva.c:123-129 | writing newlines and tabs inside quotes as escapes gives every text without backslashes and bare hashes back |
| Chew.ChewedIsClean | core/larva.c:112-151 | the result is no longer than the input, has no `#` outside quotes, and no backslash except as its last character |
| Chew.CleanIffFixed | core/larva.c:112-151 | the clean texts are exactly those that chewing leaves alone |
| Chew.ChewIdempotent | core/larva.c:112-151 | chewing twice is chewing once, on every input |
| Chew.QuotesAreKept | core/larva.c:121-121 | read on its own, the result has every character in the quote state in which it was copied |
| Chew.TerminatorSurvives | core/larva.c:119-146 | the zero byte behind a text is copied if and only if the text does not end inside a comment or behind an escaping backslash, and then cleaning the text does not depend on it |
| Challoc.ChunkAllocator.constructor | core/challoc.c:96-123 | every chunk of the new block is on its stack, once |
| Challoc.GetFirstAllocatorWithFreeChunk | core/challoc.c:23-45 | the block found has a free chunk; a new block is chained only if every stack was empty |
| Challoc.Challoc | core/challoc.c:64-71 | the chunk handed out was free and is live now; the partition into live and free chunks is kept |
| Challoc.Chfree | core/challoc.c:73-82 | a live chunk becomes free, in bounds if and only if the root's stack is not full; every stack but the root's is unchanged |
| Challoc.NeverTwice | core/challoc.c:23-82 | a chunk of a chained block is either live or on exactly one stack at one place, so no live chunk is handed out |
| Challoc.Conserved | core/challoc.c:23-82 | live and free chunks together are blocks times chunks a block |
| Challoc.TwoFreesOverflow | core/challoc.c:78-81 | two frees in a row can write past the root's stack: two live chunks of two one-chunk blocks |
| Feistel.RoundsAgree | cocoons/web/bcrypt/crypt_blowfish.c:455-492 | the scaled and the unscaled round look up the same entries for every word |
| Feistel.FourEntries | cocoons/web/bcrypt/crypt_blowfish.c:457-468 | a round depends on the four entries at the bytes of its half only, the topmost byte selecting from box 0 |
| Feistel.LastBoxIsAdded | cocoons/web/bcrypt/crypt_blowfish.c:470-471 | the entry of box 3 is added to what the round is without it |
| Feistel.ThirdBoxIsXored | cocoons/web/bcrypt/crypt_blowfish.c:469-469 | before that the entry of box 2 comes in by exclusive-or |
| Feistel.FirstBoxesAreSummed | cocoons/web/bcrypt/crypt_blowfish.c:468-468 | before that there is the wrapping sum of the entries of boxes 0 and 1 |
| Feistel.Round | cocoons/web/bcrypt/crypt_blowfish.c:476-492 | one round combines the other half with a key that depends on this half only |
| Feistel.Encrypt | cocoons/web/bcrypt/crypt_blowfish.c:498-518 | the unrolled sixteen rounds with their exchanges of halves are the network of EncryptsAsBlowfish |
| Feistel.EncryptsAsBlowfish | cocoons/web/bcrypt/crypt_blowfish.c:498-518 | with the subkeys mixed in one place later, the rounds compute what the textbook form of Blowfish computes: mix the subkey in, apply the round function, exchange, and undo the last exchange |
| Feistel.EncryptUndone | cocoons/web/bcrypt/crypt_blowfish.c:498-518 | for all subkeys, boxes and blocks, encrypting with the subkeys reversed takes encryption back |
| KeySetup.ReadWord | cocoons/web/bcrypt/crypt_blowfish.c:608-625 | each word packs the next four bytes of the key and its zero, repeated in a circle, in both the right and the sign-extending way, and signs are noted except in a word's first byte |
| KeySetup.Repeats | cocoons/web/bcrypt/crypt_blowfish.c:608-625 | the password and its zero byte are repeated in a circle |
| KeySetup.SignExtends | cocoons/web/bcrypt/crypt_blowfish.c:608-625 | the other variant reads bytes from 0x80 on as negative numbers |
| KeySetup.FirstSignLost | cocoons/web/bcrypt/crypt_blowfish.c:608-625 | sign extension of a word's first byte alone changes nothing |
| KeySetup.ActionDecides | cocoons/web/bcrypt/crypt_blowfish.c:626-641 | the branch-free arithmetic yields bit 16 if and only if safety is on, a sign was noted and no word differed, and otherwise 0 |
| KeySetup.SetKey | cocoons/web/bcrypt/crypt_blowfish.c:584-641 | all expanded words and all initial words for every key and flags; only the first initial word is flipped, and exactly then |
| Salt.DecodeEncode | cocoons/web/bcrypt/crypt_blowfish.c:385-439 | decoding what was encoded gives the bytes back, for every length and with anything behind the text |
| Salt.EncodeDecode | cocoons/web/bcrypt/crypt_blowfish.c:385-439 | encoding what was decoded gives the text back up to the unused bits of its last character |
| Salt.Alphabet | cocoons/web/bcrypt/crypt_blowfish.c:364-365 | the alphabet in its order |
| Salt.SameBits | cocoons/web/bcrypt/crypt_blowfish.c:409-439 | three bytes and their four sextets are the same bits in the same order |
| Salt.EncodedAt | cocoons/web/bcrypt/crypt_blowfish.c:409-439 | the i-th three bytes are the i-th four characters |
| Salt.Encode | cocoons/web/bcrypt/crypt_blowfish.c:409-439 | the loop writes the encoding at its place and no other byte |
| Salt.Decode | cocoons/web/bcrypt/crypt_blowfish.c:385-407 | the loop succeeds if and only if no character it needs is foreign, and then has the decoded bytes |
| Salt.GenSalt | cocoons/web/bcrypt/crypt_blowfish.c:876-902 | when a setting is generated, and its text; a refusal leaves an empty string |
| Salt.CostWritten | cocoons/web/bcrypt/crypt_blowfish.c:889-895 | the cost stands in the text as two decimal digits |
| Salt.FlagsMean | cocoons/web/bcrypt/crypt_blowfish.c:651-653 | which letters are in use, and which ask for bug emulation and for the safety measure |
| Salt.GeneratedPasses | cocoons/web/bcrypt/crypt_blowfish.c:673-690 | every generated setting passes the checks and yields back its cost and its salt |
| Salt.SaltAccepted | cocoons/web/bcrypt/crypt_blowfish.c:673-690 | what the generator wrote passes the checks with the minimum of 16 rounds |
| Salt.SaltTextIsCanonical | cocoons/web/bcrypt/crypt_blowfish.c:766-768 | the salt text in the output is the encoding of the salt that was decoded, however the unused bits came in |

## Left out

- Arrays, maps and JSON values at run time: ADD_ELEM, SET_ELEM, ACCESS and FROM_JSON stop the machine as unmodelled, so does MICROTIME; that they are emitted and how skip mode passes over them is modelled.
- Unbounded stack and tokens: the stack of 256 entries and the token buffers of 256 bytes inside the machine are sequences without a limit.
- A truncated last instruction counts as undefined behaviour; the last byte of every finished buffer is idle, so emitted code has none.
- Names in nested definitions: the overlapping copy that puts the outer block's name in front is taken as a plain concatenation; zero bytes inside names are not cut.
- Simulation.SimStmt: covers direct returns only; a return inside a branch, a return without a value, `else if`, parameters with default values, definitions inside blocks or behind other statements, and assignment to elements are outside the trees of `Fragment`. Limits states what nested returns, late definitions and redefinitions do.
- Simulation.SimExpr: while an operand is pending only blocks that leave nothing behind may be called, and the operand must not be the result of a block with another tag than 0; Limits.SumOfCalls and Limits.AssignmentTarget state what happens otherwise.
- Simulation.SimArgs: as SimExpr.
- Simulation.SimIfElse: as SimStmt.
- Simulation.SimWhile: as SimStmt.
- Simulation.SimStmts: as SimStmt.
- Program.ProgramRuns: as SimStmt and SimExpr, and says nothing once the level counter would pass 255.
- Program.HaltsIffMeaningful: assumes of the program that no fuel drives the level counter past 255; Levels.RankedHalts has a condition on the trees instead, for programs without recursion.
- Limits.GluedBrace: for conditions whose quoted texts have no parentheses.
- Limits.LastLine: for lines that hold an expression; what a keyword without its name reads behind the end is in the functional reader only.
- Rendering.RoundTrip: negation is written only in front of a sum's first product, and counting only in front of a product, as the reader takes any other sign for counting; element access and stores are not written.
- Effects.RunDepth: element access, stores to elements and the clock count in the depth of the code, but stop the modelled machine when it comes to them.
- Effects.AcceptedText: the same.
- Layout.SourceRoundTrip: for one style throughout a text, one statement a line apart from lists of declarations, texts below two to the 64 bytes, and conditions whose quoted texts have no parentheses, because the scan of a condition ignores quotes.
- Layout.DigestStmt: the same.
- Layout.DigestDef: the same.
- Emitter.EmitAll: for code whose length, with five growths to spare, fits the 32-bit unsigned position. The readers append to a sequence; Interpreter.EmitCompiled is the link to the buffer.
- Interpreter.EmitCompiled: the same, and for texts of at most the growth step less 2 bytes.
- Utf8.StrlenUtf8: the word that holds the terminating zero is readable memory; words are eight bytes, lowest byte first.
- Replace.StrReplace: an empty old string makes the original run forever and is excluded; texts and results are shorter than the address space.
- Chew.LarvaChew: the 32-bit loop counter is unbounded, and a place past the end counts as no match.
- Challoc: memory exhaustion, `chclear` (it resets counters without rebuilding the stacks) and `chdestroy` are left out.
- DeepCopy.OpCopy: pointer values (VAR_POINTER), sharing inside the source, and freeing of what was overwritten are left out.
- DeepCopy.ArrayClone: only elements in use are copied; that a later push can pass the room set aside for a small array is visible in its contract but not pursued.
- Silk.Vm: its variables are a table as a value, which HashTable refines, and its blocks a finite map; its stack is a sequence.
- IEEE arithmetic, `strtod`, `%.6g`, `pow` and `fmod` are arbitrary functions; two numbers are compared by such functions, too. Results on whole numbers ask of them only what `Whole.Exact` says; fractions, rounding and the sign of zero are left open there.
- Output is the sequence of printed values, not the text that printing makes of them.
- Interpreter.InterpretSource: `include` stops the search as unmodelled, and libraries named by `use` are taken as loaded. A text without its terminating zero is undefined as a whole, although an overlong token in it would be reported first.
- Interpreter.Interpret: the same. Files, shared libraries, FastCGI, MySQL, threads, the JSON library, debugging output are input and output or foreign code; a foreign call is an arbitrary function of its arguments.
- Silk.Vm.OnText: the JSON variant stops as unmodelled once its length is read.
- Silk.Vm.Execute: speaks of runs that halt; Program.HaltsIffMeaningful says which do.
- The bcrypt cost loop, its final encoding of the hash and its self test: repetition of what is modelled, without a property of its own. The alphabet tables are written as ranges of characters.
- `trim`, `array_push`, `array_set_elem`, table deletion: easy members.
- Files.QuietSource: with a brace and a space as its last characters, a text is read past its end by the search; Digest.QuietPasses has the condition on the text.
- Limits.NestedReturn: for a machine state; whole programs with nested returns are not among the trees of `Fragment`.
