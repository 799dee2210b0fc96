# A Dafny model of minipy

minipy compiles a statically checked subset of Python to the stack machine
minivm. This project models the parts of it where correctness is not obvious
from reading one function, and proves what they promise: the lowering of
structured statements to labelled stack code, the type lattice of the checker,
the lexer and the expression parser, the rewrite of keyed sorting, the numbering
of exception classes, argument binding, slices, 64-bit division, the range
iterator, and the ownership rule of the counted heap.

Verify with `dafny verify dfyconfig.toml`.

## How the model is laid out

*The lowerer.* `Syntax`, `Typing` and `Semantics` define the subset, the
checker's rules for it and what a program means (a big-step evaluator with break
and continue, loop else blocks, patterns with captures). `Machine` is minivm up
to what the emitted code uses: a program counter, an operand stack, global and
local slots, a heap of arrays and structs, labels. `ScratchPool` is the pool of
scratch slots, `Lowering` the code each construct is lowered to, as a function of
the lowerer's whole state, and `LoweringPass` the imperative emitter proved to
compute it. `Correspondence`, `ExprSimulation`, `PatternSimulation` and
`StmtSimulation` prove that the code does what the source means;
`LoweringTheorems` states the result for whole frames. `PatternMeaning` gives
patterns a meaning that does not mention how they are tested, and `ScratchRuns`
looks at all runs of the slot pool. `ListLoops` and `HandlerChain` run the
emitted loops of the list methods and the emitted chain of except clauses on the
same machine, the latter with the intervals of `ClassIntervals`.

*The checker.* `TypeLattice` and `UnionJoin` are the order on types and the
operations on it, `JoinBounds` what the join and the inferred return type are
worth in that order; `ArgBinding` binds calls; `SortedRewrite` is `sorted(key=,
reverse=)`.

*The front end.* `Layout` is the lexer as a state machine with its properties,
`StringLiteral` reads and writes string literals, `LexerPass` is the mutable
lexer proved to compute both, `PrecedenceParser` the parser below comparisons.

*The runtime.* `Ownership` and `SliceHost` work on a heap of counted cells;
`Slices`, `RangeIterator`, `Division64`, `Int64`, `IntMath` and `Boxing` are the
arithmetic; `WordCode` runs the emitted division and counting code on 64-bit
words, and `WordMachine` whole programs. `Wrappers` and `Sequences` are shared.

Where the source changes fields step by step, the model is a class or a method
with loops whose contract ties its new state to a function of the old one, and
the properties are proved of that function.

## What the proofs rest on

- The lowering theorems speak of source runs that end with a result. The fuel of
  the evaluator only bounds loop iterations, and `LoweringTheorems.MoreFuel`
  shows that more of it changes no result. Nothing is claimed of a program that
  does not end or that raises.
- Machine integers are unbounded in the lowering theorems;
  `WordMachine.ModuleOnWords` says when the same run is one on 64-bit words. Where
  a single operation can go wrong there, `Int64`, `RangeIterator`, `Slices` and
  `Division64` say exactly when it does, and `WordCode` that the emitted code
  computes it.
- minivm's boxes are not part of the repository. A box holds the low 49 bits of an
  integer, sign-extended, as hostabi/hostabi.go:117-121 describes. A host function
  reads a list that minivm keeps as 64-bit words by boxing each; the other typed
  arrays box without loss and are lists of boxes in the model, as are those that a
  host function has built.
- Allocation gives one owned reference and does not retain what is stored; the
  release of a last reference reclaims the cell and releases what it held. Freed
  addresses are not handed out again in the model.
- Go's stable sort is modelled by what it promises, and the promise is shown to
  determine the result. `strconv.Quote`, `unicode.IsLetter` and `unicode.IsDigit`
  are parameters.

## Where the code differs from its comments, or from Python

- `emitIntMod` (operator/emit.go:570-578) says the double remainder is exact for
  all signs. On 64-bit words it is exact if and only if `(a rem b) + b` fits a
  word: `Division64.EmittedModExact`, `Division64.EmittedModWraps`.
- `sliceIndexes` lets its index wrap: a slice with a step near 2^63 can walk out
  of the sequence, which ends the host call. A bound equal to the smallest 64-bit
  integer counts as omitted, so that `del xs[:-2**63]` empties the list.
  `Slices.WrittenSliceExact` has the exact condition for both.
- The range iterator keeps its current value in a box and steps in 64 bits. Outside
  49 bits it yields other values than `range`, or never ends:
  `RangeIterator.IteratorMeetsCounter`, `RangeIterator.LargeRangeNeverEnds`,
  `RangeIterator.IteratorWraps`.
- `divmod` reads its operands without looking whether they were spilled and boxes
  its results: `Division64.DivmodHost`, `Division64.BoxedQuotientLost`.
- Host functions that go through `ArrayElems` read integers of more than 49 bits
  cut short off a list that is kept as words: enumerate, zip and slices
  (`Ownership.WordReadShort` and the contracts of those functions), and `sorted`
  (`SortedRewrite.HostExact`, `SortedRewrite.LargeIntCutShort`). Slice assignment
  and deletion store the copies back.
- The parser keeps starred arguments apart from plain ones, so `f(*t, x)` binds
  `x` first: `ArgBinding.OrderKept`. A keyword that names a positional-only
  parameter is an error even when there is a `**kwargs` to take it, and keywords
  repeated into `**kwargs` are accepted: `ArgBinding.AcceptsAsPython`.
- Captures are stored while a pattern is tested, also when it fails later
  (section 8.6 of the Language Reference allows this). The checker does not
  reject a pattern that binds one name twice, against section 8.6.4; the last
  binding stays (`PatternMeaning.LastBindingWins`).
- `range(a, b, -1)` is not lowered to a counter loop: its step is a unary
  expression, not a literal (compiler/lower_stmt.go:1437-1441). A `ForRange` of the
  model is a loop that is; `emitRangeFor` and the theorems about it also provide
  for negative steps.
- Go sorts a union's members with an unstable sort; the model inserts, as Go does
  for up to twelve. Only members that print alike can tell.
- `Join` is called the least upper bound. For some literal types it is no bound,
  or not the least: `JoinBounds.JoinUpper` and `JoinBounds.JoinLeast` say for
  which. `NewUnion` depends on the order of its members when both Any and Invalid
  are among them, or different members print alike (`UnionJoin.UnionOrderFree`).
- `sorted` accepts keys and elements of literal types and unions of them, since
  `Orderable` erases them, but the host compares by the type as it stands and
  finds such values all alike. `SortedRewrite.RewriteExact` and
  `SortedRewrite.HostExact` say when that matters.
- Octal escapes other than a single `\0`, a backslash before a line end and
  `\N{...}` are kept as written; a surrogate or a number past the last code point
  becomes U+FFFD; and bytes accept an escaped non-ASCII character, unlike section
  2.4.1.1: `StringLiteral.EscapeIsReference`.
- The repr of the empty string does not read back in front of its own quote
  (`StringLiteral.EmptyBeforeQuote`).
- enumerate and zip keep their finished tuples when a later allocation fails;
  nobody releases those. The failure clause of `Ownership.Interpreter.Enumerate` says
  how many, and when none.

## Model

| member | source | states |
|---|---|---|
| LoweringTheorems.ModuleRuns | compiler/lower_stmt.go:54-125 | For every checked frame of the subset, every store and every fuel under which the source run ends: the emitted code runs from its first to its last instruction, the operand stack is what it was, and every variable's slot stands for the variable's final value. |
| LoweringTheorems.ModuleStopsThere | compiler/lower_stmt.go:54-125 | The machine has no other way out: any state in which it stops, however far it was run, is that final state. |
| WordMachine.ModuleOnWords | compiler/lower_stmt.go:54-125 | The whole run on a machine with 64-bit words: it goes through the states of the run on unbounded integers if and only if no arithmetic result on the way is cut, and then stops at the end of the code with the variables the source leaves. |
| WordMachine.RunsOnWords | compiler/lower.go:260-359 | For every program, state and number of steps: words and unbounded integers run alike exactly as long as every result fits. |
| LoweringTheorems.MoreFuel | compiler/lower_stmt.go:54-125 | The fuel of the source semantics is no bound on the result: a statement that ends under some fuel ends the same way under every larger one (by mutual induction with blocks, loops and match cases). |
| StmtSimulation.SimStmt | compiler/lower_stmt.go:54-125 | One statement: control reaches the end of its code, the loop's break label or its continue label, whichever the source outcome says, with the operand stack unchanged, all named slots as the source leaves them, and no scratch slot that was live before it disturbed. |
| StmtSimulation.SimBlock | compiler/lower.go:569-585 | The same for a block, whose statements reuse each other's scratch slots. |
| StmtSimulation.SimIf | compiler/lower_stmt.go:1275-1303 | if/elif/else takes the branch the condition's value selects and joins behind it. |
| StmtSimulation.SimWhile | compiler/lower_stmt.go:1305-1328 | while/else: every iteration count, break skips the else block, continue re-tests. |
| StmtSimulation.SimForRange | compiler/lower_stmt.go:1360-1412 | for over range: the body runs once per element of the arithmetic progression, whatever it assigns to the loop target, and nested or sibling statements never clobber the live counter or bound. |
| StmtSimulation.SimForEach | compiler/lower_stmt.go:1518-1569 | for over a list: one pass per element, with the target (a name or a flat tuple of names) bound to it. |
| StmtSimulation.SimStep | compiler/lower_stmt.go:1392-1412 | Between two passes the step adds to the counter, or the cursor, and nothing else the loop relies on changes. |
| StmtSimulation.SimTarget | compiler/lower_stmt.go:1571-1587 | Binding a loop target stores exactly the element, or its parts in order. |
| StmtSimulation.SimMatch | compiler/lower_stmt.go:259-278 | match evaluates its subject once and then behaves as the first case that is entered, or falls to the end label. |
| StmtSimulation.SimCases | compiler/lower_stmt.go:259-278 | The linear decision tree over the cases, each failing test jumping to the next case. |
| StmtSimulation.SimCaseTest | compiler/lower_stmt.go:262-275 | Pattern test and guard together fall through exactly when the case is entered. |
| StmtSimulation.SimUnpack | compiler/lower_stmt.go:974-1008 | Parallel assignment evaluates all right-hand sides before storing any. |
| StmtSimulation.SimUnpackTuple | compiler/lower_stmt.go:974-1008 | Unpacking a tuple value stores its parts in order. |
| StmtSimulation.SimChainAssign | compiler/lower_stmt.go:799-815 | A chained assignment evaluates its value once and stores it into every target from left to right. |
| StmtSimulation.SimAugAssign | compiler/lower_stmt.go:54-125 | Augmented assignment to a name reads, computes and writes back that name. |
| ExprSimulation.SimExpr | compiler/lower_expr.go:18-94 | Every typed expression that has a value leaves exactly that value on the operand stack, disturbing no live slot and no cell that existed. |
| ExprSimulation.SimBoolOp | compiler/lower_expr.go:635-656 | and/or evaluate the right operand only when the left one does not decide. |
| ExprSimulation.SimIfExp | compiler/lower_expr.go:608-624 | A conditional expression evaluates the condition and then one branch. |
| ExprSimulation.SimCompare | compiler/lower_expr.go:658-692 | A comparison, chained or not, computes section 6.10's conjunction. |
| ExprSimulation.SimChain | compiler/lower_expr.go:665-692 | The rest of a chain evaluates each operand at most once and none after the first false link, its left operand kept in a slot no operand reuses. |
| ExprSimulation.SimFloorDiv | operator/emit.go:516-568 | The emitted quotient sequence computes floored division for all signs. |
| ExprSimulation.SimModulo | operator/emit.go:580-592 | The emitted double remainder, right operand first, computes the divisor-signed remainder on unbounded integers. |
| ExprSimulation.SimListLit | compiler/lower_expr.go:96-131 | A list display builds a fresh array of the element values in order. |
| ExprSimulation.SimTupleLit | compiler/lower_expr.go:401-410 | A tuple display builds a fresh struct of the element values in order. |
| PatternSimulation.SimPat | compiler/lower_stmt.go:616-650 | The emitted test of any nested pattern falls through exactly when the pattern test succeeds, with its captures stored, and otherwise jumps to the given label. |
| PatternSimulation.SimTuplePat | compiler/lower_stmt.go:673-749 | Sequence patterns over tuples, with or without a star. |
| PatternSimulation.SimListPat | compiler/lower_stmt.go:673-749 | Sequence patterns over lists: the length test, the elements from either end, and the starred middle. |
| PatternSimulation.SimOrPat | compiler/lower_stmt.go:616-650 | An or-pattern tries its alternatives in order and keeps the first. |
| PatternSimulation.SimBindRest | compiler/lower_stmt.go:700-749 | The starred name is bound to a fresh list of exactly the middle elements. |
| LoweringPass.Lowerer.Lower | compiler/lower.go:217-239 | The emitter, which appends instructions, binds labels and pushes loop frames on fields it updates, produces the program the simulation is about. |
| LoweringPass.Lowerer.EmitStmt | compiler/lower_stmt.go:54-125 | Emitting one statement, inside its own scratch scope takes the whole state of the lowerer (code, labels, loop frames, scratch pool) to the one the specification gives. |
| LoweringPass.Lowerer.EmitIf | compiler/lower_stmt.go:1275-1303 | Emitting if takes the whole state of the lowerer (code, labels, loop frames, scratch pool) to the one the specification gives. |
| LoweringPass.Lowerer.EmitWhile | compiler/lower_stmt.go:1305-1328 | Emitting while takes the whole state of the lowerer (code, labels, loop frames, scratch pool) to the one the specification gives. |
| LoweringPass.Lowerer.EmitRangeFor | compiler/lower_stmt.go:1360-1412 | Emitting for over range takes the whole state of the lowerer (code, labels, loop frames, scratch pool) to the one the specification gives. |
| LoweringPass.Lowerer.EmitIterableFor | compiler/lower_stmt.go:1518-1569 | Emitting for over a list takes the whole state of the lowerer (code, labels, loop frames, scratch pool) to the one the specification gives. |
| LoweringPass.Lowerer.EmitMatch | compiler/lower_stmt.go:259-278 | Emitting match takes the whole state of the lowerer (code, labels, loop frames, scratch pool) to the one the specification gives. |
| LoweringPass.Lowerer.EmitPatternTest | compiler/lower_stmt.go:616-650 | Emitting a pattern test takes the whole state of the lowerer (code, labels, loop frames, scratch pool) to the one the specification gives. |
| LoweringPass.Lowerer.EmitTupleTest | compiler/lower_stmt.go:673-749 | Emitting a tuple pattern takes the whole state of the lowerer (code, labels, loop frames, scratch pool) to the one the specification gives. |
| LoweringPass.Lowerer.EmitListTest | compiler/lower_stmt.go:673-749 | Emitting a list pattern takes the whole state of the lowerer (code, labels, loop frames, scratch pool) to the one the specification gives. |
| LoweringPass.Lowerer.EmitUnpack | compiler/lower_stmt.go:974-1008 | Emitting parallel assignment takes the whole state of the lowerer (code, labels, loop frames, scratch pool) to the one the specification gives. |
| LoweringPass.Lowerer.EmitChain | compiler/lower_stmt.go:799-815 | Emitting chained assignment takes the whole state of the lowerer (code, labels, loop frames, scratch pool) to the one the specification gives. |
| LoweringPass.Lowerer.EmitExpr | compiler/lower_expr.go:18-94 | Emitting an expression takes the whole state of the lowerer (code, labels, loop frames, scratch pool) to the one the specification gives. |
| LoweringPass.Lowerer.EmitCompare | compiler/lower_expr.go:658-692 | Emitting a comparison chain takes the whole state of the lowerer (code, labels, loop frames, scratch pool) to the one the specification gives. |
| LoweringPass.Lowerer.EmitBoolOp | compiler/lower_expr.go:635-656 | Emitting and/or takes the whole state of the lowerer (code, labels, loop frames, scratch pool) to the one the specification gives. |
| LoweringPass.Lowerer.EmitIfExp | compiler/lower_expr.go:608-624 | Emitting a conditional expression takes the whole state of the lowerer (code, labels, loop frames, scratch pool) to the one the specification gives. |
| LoweringPass.Lowerer.EmitFloorDiv | operator/emit.go:516-568 | Emitting floored division takes the whole state of the lowerer (code, labels, loop frames, scratch pool) to the one the specification gives. |
| LoweringPass.Lowerer.EmitModulo | operator/emit.go:580-592 | Emitting remainder takes the whole state of the lowerer (code, labels, loop frames, scratch pool) to the one the specification gives. |
| LoweringPass.Lowerer.ReserveTmp | compiler/lower.go:434-447 | Reserving a scratch slot: the slot returned and the pool left behind. |
| LoweringPass.Lowerer.Reuse | compiler/lower.go:449-468 | The search for a reusable slot takes the most recently freed one of the requested kind, or reports that there is none. |
| LoweringPass.Lowerer.LeaveScratch | compiler/lower.go:478-495 | Closing a scope frees what was reserved in it and no more. |
| ScratchRuns.LiveAndFreePartition | compiler/lower.go:434-495 | After every run of enter/reserve/leave events: the live slots are pairwise distinct, every slot is live or free and not both, and each free list holds slots of its own kind. |
| ScratchRuns.OuterSlotsKept | compiler/lower.go:434-495 | Inside an open scope no reservation is ever answered with a slot held outside it, and those stay held with their kinds. |
| ScratchRuns.PoolIsTight | compiler/lower.go:434-495 | Tightness: the number of slots of each kind a frame declares equals the peak number live at once. |
| ScratchPool.TmpValid | compiler/lower.go:434-468 | A reservation keeps the pool well formed, reuses only a slot of the requested kind, and otherwise appends one. |
| ScratchPool.LeaveFrees | compiler/lower.go:478-495 | Leaving a scope puts exactly the slots reserved in it on the free lists. |
| Correspondence.RepKept | compiler/lower.go:298-313 | A value that lives in the heap keeps its representation as long as the cells it is made of are kept. |
| Machine.HaltsInOneState | compiler/lower.go:260-359 | The machine is deterministic: two runs that stop, stop in the same state. |
| ListLoops.ListInsertWorks | compiler/lower_expr.go:1086-1176 | insert leaves xs[:k] + [v] + xs[k:] in the array for the negative-normalised and clamped k, with nothing else on heap, stack or live slots changed. |
| ListLoops.ListExtendWorks | compiler/lower_expr.go:1178-1215 | extend terminates with xs + ys, also when both operands are the same list. |
| ListLoops.ListReverseWorks | compiler/lower_expr.go:1217-1273 | reverse terminates with the reversal. |
| HandlerChain.SimHandlers | compiler/lower_stmt.go:316-344 | The emitted handler chain runs the body of the first clause whose class is the thrown one's or an ancestor; without one it throws the original error again, with nothing changed. |
| HandlerChain.SimClauses | compiler/lower_stmt.go:316-338 | The clauses in order, each failing test going on to the next. |
| HandlerChain.RunTest | compiler/lower_stmt.go:459-470 | The emitted range test falls through exactly when the class number lies in the interval. |
| ClassIntervals.IntervalsDecide | compiler/check_decl.go:161-184 | low(C) <= id(D) <= high(C) holds exactly when D is C or inherits from it, for every class table and every D reachable from the root. |
| ClassIntervals.Walker.ComputeIntervals | compiler/check_decl.go:161-184 | The walk over mutable class records terminates and leaves a numbering with both properties. |
| ClassIntervals.Walker.Dfs | compiler/check_decl.go:171-180 | One class: its subtree gets the next block of numbers and no other class is touched. |
| ClassIntervals.Walker.FindChildren | compiler/check_decl.go:162-169 | The children lists are exactly the table's subclasses in table order. |
| TypeLattice.EqualRefl | types/types.go:368-378 | Equal is reflexive, |
| TypeLattice.EqualSym | types/types.go:368-378 | symmetric, |
| TypeLattice.EqualTrans | types/types.go:368-378 | and transitive, on all types, unions and literals included. |
| TypeLattice.AssignableRefl | types/types.go:380-425 | Every type but Invalid is assignable to itself. |
| TypeLattice.AssignableTrans | types/types.go:380-435 | Assignability is transitive on well-formed types, through unions, Any, literal refinements and int-to-float widening. |
| TypeLattice.AssignableRespectsEqual | types/types.go:380-435 | Assignability does not tell equal types apart on either side. |
| TypeLattice.AnyIsTop | types/types.go:380-425 | Every well-formed type is assignable to Any. |
| UnionJoin.UnionNormal | types/types.go:207-255 | NewUnion is flat, sorted and free of duplicates, covers exactly its members, and is Any when Any is among them. |
| UnionJoin.BuildUnion | types/types.go:207-255 | The loops that flatten, deduplicate and sort compute NewUnion. |
| UnionJoin.CollectMembers | types/types.go:209-240 | The recursive collection flattens nested unions in order. |
| UnionJoin.IsAmong | types/types.go:207-255 | The duplicate search answers whether an equal member is already there. |
| UnionJoin.NewLiteralWellFormed | types/types.go:172-196 | NewLiteral builds a well-formed literal of exactly the given values, each once. |
| UnionJoin.BuildLiteral | types/types.go:172-196 | The loops that deduplicate and sort compute NewLiteral. |
| PrecedenceParser.BinarySound | parser/parser.go:1506-1541 | What parseBinary(p) returns: its in-order yield is the tokens consumed, every left child binds at least as tightly and every right child strictly tighter than its parent, and the next token cannot continue it. |
| PrecedenceParser.RightTreeIsFound | parser/parser.go:1506-1541 | Conversely every such tree is the one parseBinary finds for its tokens. |
| PrecedenceParser.RightTreeUnique | parser/parser.go:46-59 | No two such trees have the same tokens, unary operators and right-associative ** included. |
| PrecedenceParser.ParsesMaximalPrefix | parser/parser.go:1506-1519 | parseBinary consumes the longest prefix that has such a tree. |
| PrecedenceParser.PrintParse | parser/parser.go:1724-1751 | Printing any tree with the parentheses those rules require and reparsing it gives the tree back, everything consumed. |
| PrecedenceParser.Parser.ParseBinaryExpr | parser/parser.go:1506-1519 | The loop that rebinds the tree so far computes ParseBinary on the tokens it consumes. |
| PrecedenceParser.Parser.ParseFactorExpr | parser/parser.go:1521-1530 | Unary operators. |
| PrecedenceParser.Parser.ParsePowerExpr | parser/parser.go:1532-1541 | The power operator, whose right operand is a factor. |
| PrecedenceParser.Parser.ParseGroup | parser/parser.go:1724-1751 | Parenthesised groups. |
| Layout.LayoutBalanced | lexer/lexer.go:129-276 | On every input every prefix of the token stream has at least as many INDENTs as DEDENTs, the totals agree, and the stream ends in its only EOF. |
| Layout.StackIsSurplus | lexer/lexer.go:234-276 | After any number of steps the indent stack is strictly increasing from 0 and its height is the surplus of INDENTs so far. |
| Layout.TokensBalanced | lexer/lexer.go:129-276 | From any state no prefix closes more blocks than are open, and in the end all are closed. |
| Layout.OneEnd | lexer/lexer.go:218-232 | EOF is produced once, last. |
| Layout.NoLayoutInBrackets | lexer/lexer.go:156-216 | Inside brackets and before the end of input no NEWLINE, INDENT or DEDENT is produced. |
| Layout.StepSmaller | lexer/lexer.go:156-216 | Scanning terminates: every step lowers (runes left, at-line-start, not done). |
| LexerPass.NextToken | lexer/lexer.go:129-141 | Next hands out the stream in order and keeps answering EOF after it. |
| LexerPass.LexAll | lexer/lexer.go:116-127 | Draining the lexer gives the whole stream. |
| LexerPass.Lexer.StepOnce | lexer/lexer.go:156-216 | One step on the mutable lexer queues and changes what Step says. |
| LexerPass.Lexer.ScanIndent | lexer/lexer.go:234-276 | Blanks at the start of a line push or pop the indent stack and queue the tokens due; blank lines do neither. |
| LexerPass.Lexer.FinishInput | lexer/lexer.go:218-232 | What is still owed at the end of input. |
| LexerPass.Lexer.DecodeEscapeSequence | lexer/lexer.go:459-514 | Each escape computes DecodeEscape. |
| StringLiteral.EscapeIsReference | lexer/lexer.go:459-535 | An escape is decoded as section 2.4.1.1 says, errors included, if and only if it is no line end, octal number other than a single nought, \N{...}, code point that cannot be encoded, or (in bytes) non-ASCII character. |
| LexerPass.Lexer.DecodeHexDigits | lexer/lexer.go:516-535 | Hex escapes, too short or out of range ones included. |
| StringLiteral.EmptyBeforeQuote | lexer/lexer.go:368-400 | That exception is real: it opens a triple-quoted literal. |
| StringLiteral.ReprInjective | hostabi/format.go:487-531 | repr is injective under either setting. |
| StringLiteral.ReprPrintable | hostabi/format.go:515-531 | repr writes no control character, and only ASCII with ascii set. |
| StringLiteral.WriteRepr | hostabi/format.go:487-531 | The builder loop writes repr. |
| StringLiteral.RuneReads | lexer/lexer.go:459-535 | Each written code point, escaped or not, reads back as itself. |
| Ownership.Interpreter.AllocArray | hostabi/hostabi.go:162-174 | A new array over borrowed elements: on success every count still is the number of slots that point at the cell plus its outside owners, the caller owning one more reference; on a failed allocation nothing has changed. |
| Ownership.Interpreter.Enumerate | builtins/host.go:145-184 | enumerate returns [(0, x0), (1, x1), ...] in new cells behind the old heap, over the elements as read, which are the list's own if and only if each fits a box; and every count balances with the result as the only new outside reference: the tuples are neither leaked nor under-counted. When it fails, it has made as many tuples as there was room for, owned by nobody, and has left the heap alone if and only if that is none. |
| Ownership.Interpreter.Zip | builtins/host.go:186-234 | The same for zip, up to the length of the shorter list. |
| Ownership.Interpreter.RetainBoxes | hostabi/hostabi.go:179-188 | One reference more per counted element, None and scalars left alone; stops at the first element that names no live cell. |
| Ownership.Interpreter.ReleaseBoxes | hostabi/hostabi.go:192-201 | One reference less per counted element; nothing is reclaimed when every cell keeps a reference, and the rule holds again whatever is reclaimed. |
| Ownership.Interpreter.Release | hostabi/hostabi.go:192-201 | The last reference reclaims a cell and what only it held, and the rule holds again. |
| Ownership.Interpreter.ArrayElems | hostabi/hostabi.go:208-262 | Reading elements takes no reference. Of a list kept as words exactly the elements that fit a box are read as they are. |
| Ownership.WordReadShort | hostabi/hostabi.go:237-242 | An element that is not: reading [2**48] gives -2^48. |
| Ownership.EnumeratesExactly | builtins/host.go:155-161 | What enumerate pairs are the positions and elements of the list if and only if each element is a box or fits one, and so does each position. |
| Ownership.RetainKeeps | hostabi/hostabi.go:8-16 | Retaining moves the rule to one where the caller owns the elements too. |
| Ownership.AllocKeeps | hostabi/hostabi.go:162-174 | Allocating turns the references in the slots and one new outside reference into a balanced heap. |
| Ownership.ReleaseKeeps | hostabi/hostabi.go:192-201 | Releasing one owned reference keeps the rule, the slots of a freed cell being what is left to release. |
| Ownership.OwnedIsLive | hostabi/hostabi.go:8-16 | Nothing an outside owner can reach is reclaimed. |
| RangeIterator.IteratorWraps | builtins/host.go:65-77 | An input with small values: range(1, 2, 2**63 - 1) yields 1 and then 0. |
| RangeIterator.MakeIterator | builtins/host.go:117-143 | range rejects a zero step and otherwise gives an iterator over boxed values, whose first is the box of the start. |
| RangeIterator.Iterator.Next | builtins/host.go:65-77 | Advancing drops the current value off what is yet to be yielded, or ends; the stop is compared before boxing. |
| Int64.LoopIsRange | builtins/host.go:65-77 | A wrapping 64-bit counting loop visits the arithmetic progression exactly when the step past its last value does not wrap. |
| Int64.RangeAt | compiler/lower_stmt.go:1392-1412 | The k-th value of the progression is start + k*step, present exactly while it has not passed stop. |
| Slices.NormalizeSliceRange | compiler/runtime.go:2004-2041 | With step 1 the contiguous range is exactly the indices the slice selects; any other step is an error. |
| Slices.SelectedAt | compiler/runtime.go:2043-2110 | The k-th selected index is k steps after the first, is in range, and exists exactly while the walk has not passed the stop. |
| Slices.SelectedInRange | compiler/runtime.go:2043-2110 | No selected index is out of range. |
| Slices.SelectedMonotone | compiler/runtime.go:2043-2110 | The indices climb or fall strictly. |
| Slices.SliceLoopWraps | compiler/runtime.go:2078-2082 | xs[1::2**63-1] on two elements: the loop goes on past index 1. |
| Slices.WholeSlice | compiler/runtime.go:409-434 | xs[:] copies and xs[::-1] reverses. |
| Slices.CutAndJoin | compiler/runtime.go:409-434 | xs[:k] + xs[k:] is xs for every k, negative and out of range included. |
| Slices.ReadAndDeletePartition | compiler/runtime.go:477-506 | What a slice read returns and what the slice delete leaves are together the whole list. |
| Slices.WithoutInterval | compiler/runtime.go:499-500 | Deleting the contiguous range removes exactly the selected positions. |
| Slices.OverwrittenInterval | compiler/runtime.go:466-468 | Overwriting the contiguous range writes exactly the selected positions. |
| Slices.OverwrittenOnce | compiler/runtime.go:466-468 | There is one such result. |
| SliceHost.ListSliceAssign | compiler/runtime.go:436-475 | In place on the counted heap: the selected positions hold the values read and the others the elements read, which are the lists' own if and only if every element kept and every value fits a box; cells lose exactly the references overwritten, nothing held is reclaimed (a list may be assigned from itself), and each error leaves the heap alone. |
| SliceHost.ListSliceDelete | compiler/runtime.go:477-506 | In place on the counted heap: what the slice read would return is gone, with the list's references to it, and the rule is kept; what is left is the list's own if and only if every element kept fits a box. |
| Division64.PyFloorDiv | operator/dynamic.go:664-671 | Python's quotient, if and only if not MinInt64 // -1. |
| Division64.PyMod | operator/dynamic.go:674-680 | Python's remainder, for all words and non-zero divisors. |
| Division64.DivmodHost | builtins/host.go:678-688 | divmod divides what the two boxes hold, reads no spilled operand, and boxes the results. With an inline divisor the pair is Python's if and only if the dividend is inline too and not -2^48 divided by -1; a zero divisor is an error. |
| Division64.BoxedDivision | operator/dynamic.go:308-318 | Boxing quotient and remainder of inline operands, as divmod and dynamic division do, keeps Python's law if and only if not -2^48 by -1. |
| Division64.BoxedQuotientLost | operator/dynamic.go:308-313 | That quotient, 2^48, comes back as -2^48. |
| Division64.EmittedQuotientExact | operator/emit.go:516-561 | The emitted quotient on 64-bit words is Python's if and only if not MinInt64 // -1. |
| Division64.EmittedModExact | operator/emit.go:570-592 | The emitted double remainder is Python's if and only if (a rem b) + b fits a word. |
| Division64.SmallDivisorsFit | operator/emit.go:570-592 | It always is for divisors up to 2^62 in magnitude. |
| Division64.EmittedModWraps | operator/emit.go:570-592 | (2^63 - 2) % (2^63 - 1) comes out as -3. |
| Division64.DivisionsAgree | operator/emit.go:516-592 | Quotient and remainder of every form satisfy the same division law. |
| IntMath.SignCorrectedQuotient | operator/emit.go:543-561 | The truncated quotient less the sign adjustment is the floored quotient. |
| IntMath.DoubleRemainder | operator/emit.go:570-578 | ((a rem b) + b) rem b is the floored remainder on unbounded integers. |
| IntMath.FloorDivisionUnique | operator/dynamic.go:663-680 | Quotient and remainder are determined by Python's law. |
| ArgBinding.ResolveFunctionArgs | compiler/check_expr.go:897-1003 | For every parameter list and call whose starred arguments are tuples of known size: binding succeeds exactly when the arity, keyword and missing-argument rules allow, else reports the fault of the first rule broken; on success every slot holds what the rules give it and the expressions in the slots are, with multiplicity, the call's own. |
| ArgBinding.BindArguments | compiler/check_expr.go:919-996 | The same for settled positional arguments. |
| ArgBinding.CorrectAccepts | compiler/check_expr.go:897-1003 | Success is exactly acceptance by the rules. |
| ArgBinding.PositionalLands | compiler/check_expr.go:919-943 | Each positional argument lands in the parameter of its rank, or among *args in its turn. |
| ArgBinding.KeywordLands | compiler/check_expr.go:945-967 | Each keyword argument lands in the parameter of its name, which nothing else fills, or among **kwargs. |
| ArgBinding.PlacePositional | compiler/check_expr.go:922-943 | The positional loop fills the parameters before *args in order and spills the rest. |
| ArgBinding.PlaceKeywords | compiler/check_expr.go:945-967 | The keyword loop stops at the first faulty keyword, or fills the named parameters and keeps the surplus in order. |
| ArgBinding.FillDefaults | compiler/check_expr.go:989-998 | Only parameters no argument filled take their defaults; one without is the missing-argument error. |
| ArgBinding.OrderKept | parser/parser.go:1590-1641 | Positional arguments are bound in the order written if and only if no plain one follows a starred one that has elements. |
| ArgBinding.PlainOvertakes | parser/parser.go:1590-1641 | f(*t, x) binds x before the elements of t, unlike section 6.3.4. |
| PatternMeaning.MatchSucceeds | compiler/lower_stmt.go:616-749 | Independent meaning of a pattern: for every pattern and value, the test succeeds exactly on the values the pattern describes. |
| PatternMeaning.MatchMeans | compiler/lower_stmt.go:616-749 | For a pattern that binds no name twice it then binds every captured name, the starred middle included, to its own part of the value and no name outside the pattern. |
| PatternMeaning.LastBindingWins | compiler/lower_stmt.go:616-749 | For a pattern without alternatives, however often it binds a name, the store is the old one with the bindings added in order, the last one of a name staying. |
| PatternMeaning.FirstCaseRuns | compiler/lower_stmt.go:259-278 | The case that runs is the first whose pattern matches and whose guard holds; without one the statement ends. |
| PatternMeaning.PassedOver | compiler/lower_stmt.go:259-278 | A case is passed over if and only if its pattern does not match or its guard is false. |
| ClassIntervals.IntervalsNumberOnce | compiler/check_decl.go:161-184 | No two reachable classes share a number. |
| ClassIntervals.IntervalsCount | compiler/check_decl.go:161-184 | The numbers are 1 to the number of reachable classes, each of them some class's, and the root's interval ends at that number. |
| UnionJoin.UnionOrderFree | types/types.go:207-255 | NewUnion gives equal types for every order, grouping and repetition of the members if and only if not both Any and Invalid are among them and, with neither there, different members print differently. |
| UnionJoin.SameMembersSameUnion | types/types.go:207-255 | The half of this that normal forms give: one sorted form for one set of members that print differently. |
| UnionJoin.NewUnionIdempotent | types/types.go:207-255 | Normalising a union again changes nothing, for any members. |
| UnionJoin.AnyAndInvalidDoNotCommute | types/types.go:207-255 | An input of the one kind of failure: Any and Invalid in both orders. |
| UnionJoin.AlikeNamesDoNotCommute | types/types.go:207-255 | An input of the other: int and a class that prints as int, in both orders. |
| JoinBounds.JoinUpper | types/types.go:327-345 | For all well-formed types: both operands are assignable to their join if and only if not a union of int and its literals meets float. |
| JoinBounds.JoinLeast | types/types.go:327-345 | The join is assignable to every common upper bound if and only if the operands are equal, or are neither two literals nor a literal and its base. |
| JoinBounds.JoinOfLiteralUnionNotUpper | types/types.go:327-345 | An input on which it is no bound: Literal[1] | Literal[2] and float. |
| JoinBounds.JoinOfLiteralsNotLeast | types/types.go:327-345 | An input on which it is not least: Literal[1] and Literal[2] both flow into Literal[1, 2], their join does not. |
| JoinBounds.FoldBounds | compiler/check_decl.go:920-931 | For all well-formed return types: every return is assignable to the inferred type if and only if they are not all numbers with float and a union of int literals among them. |
| JoinBounds.FoldLeast | compiler/check_decl.go:920-931 | The inferred type is below every type that bounds the returns if and only if the returns are equal, or are neither all literals nor all one primitive type and literals of it. |
| JoinBounds.FoldOrderFree | compiler/check_decl.go:920-931 | The inferred type does not depend on the order or repetition of the returns up to mutual assignability, for all well-formed return types. |
| JoinBounds.InferReturn | compiler/check_decl.go:920-931 | The loop over the returns computes that fold; no return gives None. |
| JoinBounds.ErasesTo | types/types.go:304-325 | A type erases to a primitive exactly when each of its parts is that primitive or a literal of it. |
| SortedRewrite.RewriteExact | compiler/sorted_key.go:94-179 | For every key type the checker accepts: the rewritten call is the stable sort by key, on all lists, both ways of writing reverse and both directions, if and only if no component of the key's type hides two values behind a literal type or a union. |
| SortedRewrite.RewriteIsStableSort | compiler/sorted_key.go:94-179 | For every key type whatever: the rewritten call is the stable sort by what the type lets the host see of the keys. |
| SortedRewrite.RewriteSorts | compiler/sorted_key.go:94-179 | Where it sorts, the result is a permutation, ordered by key (descending when reversed), in which equal keys keep their original order in both directions. |
| SortedRewrite.LiteralKeysNotSorted | compiler/sorted_key.go:78-81 | A key type the checker accepts and the host does not sort: keys 2 and 1 of type Literal[1, 2] stay as they are. |
| SortedRewrite.HostExact | builtins/host.go:353-380 | Sorting without a key is exact under the same condition on the element type; and under it a list of ints kept as words is returned sorted if and only if each fits a box. |
| SortedRewrite.CopiesSorted | builtins/host.go:353-380 | The order that condition is about is the one that the host's stable sort promises for the copies it reads. |
| SortedRewrite.LargeIntCutShort | builtins/host.go:353-380 | sorted([2**48, 1]) returns [-2^48, 1]. |
| SortedRewrite.BlursIsHides | builtins/host.go:832-888 | Read off the type: for types as the checker builds them, that condition fails exactly when a component is a union or a literal of several values. |
| SortedRewrite.HostSorts | builtins/host.go:353-380 | One order alone keeps the promise of the host's stable sort: the stable order of what is visible. |
| SortedRewrite.SeesVisible | builtins/host.go:832-888 | The host's comparison by static type is Python's order of the visible part of the keys. |
| SortedRewrite.ErasesToTuple | builtins/host.go:832-834 | Erasing the element type, as the host does to find tuples, never makes or unmakes one. |
| SortedRewrite.StableOrderUnique | builtins/host.go:353-380 | A stable order is unique, so the sort is determined by its promise whatever the library does. |
| SortedRewrite.DecoratedLess | builtins/host.go:832-854 | Decorated pairs compare as their keys do, and by position when those compare neither way. |
| StringLiteral.ReprReads | hostabi/format.go:487-531 | Round trip: for every sequence of Unicode scalar values, both settings of ascii and whatever follows, scanning the repr gives the string back, with no diagnostic and exactly the literal consumed, if and only if not the string is empty and its quote follows. |
| Layout.ReprIsOneToken | lexer/lexer.go:368-446 | Within a line, that repr is one STRING token of the string, without a diagnostic and with nothing behind it consumed, under the same condition and no other. |
| Layout.ReprLexes | lexer/lexer.go:116-127 | A source that is the repr of a string alone lexes to that one STRING token, NEWLINE and EOF. |
| LexerPass.Lexer.ReadString | lexer/lexer.go:368-446 | The scanning loop over a literal, all prefixes and triple quotes included, computes ScanString. |
| LexerPass.Lexer.ScanNameOrString | lexer/lexer.go:280-297 | A word is a name, or the prefix of the string literal that follows it, whose token has its decoded text. |
| RangeIterator.IteratorMeetsCounter | builtins/host.go:39-77 | The iterator yields exactly Python's progression if and only if it is empty, or its first and last values fit a box and stepping past the last stays within 64 bits. |
| RangeIterator.LargeRangeNeverEnds | builtins/host.go:39-77 | An input with short steps: range(2**48, 2**48 + 1) starts at -2^48 and never ends, while the counter loop visits its one value. |
| WordCode.CounterOnWords | compiler/lower_stmt.go:1392-1406 | The emitted test and step, on a machine with 64-bit words and with any loop body that leaves counter and bound alone, bind the values of the wrapping 64-bit loop. |
| WordCode.QuotientOnWords | operator/emit.go:516-561 | The emitted quotient code on 64-bit words leaves the quotient that Division64 is about. |
| WordCode.ModuloOnWords | operator/emit.go:580-592 | The emitted remainder code on 64-bit words leaves the double remainder that Division64 is about. |
| Slices.SliceIndexes | compiler/runtime.go:2043-2110 | For every length a slice in memory can have, bounds present or omitted and every non-zero step, the loops end, and collect what a wrapping 64-bit loop between Python's adjusted bounds visits; a zero step is an error. |
| Slices.SliceLoopExact | compiler/runtime.go:2078-2106 | For bounds as the code takes them, that is Python's list of indices if and only if the step is negative, nothing is selected, or stepping past the last index stays in 64 bits; and otherwise it leaves the sequence. |
| Slices.WrittenSliceExact | compiler/runtime.go:2043-2110 | For every slice as written, its bounds words: the indices are Python's if and only if the loop stays in range and no bound or step equal to the smallest word is taken for an omitted one to any effect. |
| Slices.SelectionTaken | compiler/runtime.go:2004-2041 | The same for the selection alone, which is what assignment and deletion go by: the smallest word as a stop (as a start, going down) matters if and only if otherwise something is selected; as a step, unless both walks are empty or visit one same index. |
| Slices.SmallestStopTakesAll | compiler/runtime.go:2004-2041 | xs[:-2**63] selects nothing, and is taken for xs[:]. |
| SliceHost.ArraySlice | compiler/runtime.go:409-434 | On the counted heap, for every bounds and step: a new array of the elements read at the selected indices, which are the list's own if and only if each of them fits a box, with the rule kept; or an out-of-range index if and only if the loop wraps around; each error leaves the heap alone. |
| ArgBinding.AcceptsAsPython | compiler/check_expr.go:919-996 | The code's acceptance of a call is Python's if and only if the call breaks another rule, or departs in both ways or in neither: a keyword with a positional-only name that **kwargs would take, and a surplus keyword repeated. |
| ArgBinding.AcceptedIs | compiler/check_expr.go:919-996 | The code accepts exactly the calls that meet Python's other rules and have no keyword of the first kind. |
| ArgBinding.PosOnlyRefused | compiler/check_expr.go:956-959 | def f(a, /, **kw) called as f(1, a=2): Python accepts, the code does not. |
| ArgBinding.RepeatAccepted | compiler/check_expr.go:945-953 | def f(**kw) called as f(x=1, x=2): the code accepts, Python does not. |

## Left out

- LoweringTheorems.ModuleRuns: says nothing of runs that raise or do not end, because the model has neither traps nor exceptions beyond the handler chain. Its machine is unbounded; `WordMachine.ModuleOnWords` is about 64-bit words.
- StmtSimulation.SimForRange: on unbounded integers; `WordCode.CounterOnWords` and `Int64.LoopIsRange` say what the 64-bit counter does.
- ExprSimulation.SimFloorDiv: on unbounded integers; `WordCode.QuotientOnWords` and `Division64.EmittedQuotientExact` are about 64-bit words.
- ExprSimulation.SimModulo: on unbounded integers; `WordCode.ModuloOnWords` and `Division64.EmittedModExact` are about 64-bit words.
- LoweringTheorems.ModuleStopsThere: the same machine as ModuleRuns, unbounded and without traps.
- WordMachine.ModuleOnWords: the condition is on the machine's run, whose intermediate results (a double remainder's sum, a counter past its end) can be cut where no source value is.
- StmtSimulation.SimIf: the conditions the lowerer folds, `isinstance` calls and tests against None (compiler/check.go:458-502), are no expressions of the subset, so pruned branches do not occur in it.
- UnionJoin.SameMembersSameUnion: for members that print differently; `UnionJoin.UnionOrderFree` has both directions.
- PatternMeaning.MatchMeans: for patterns that bind no name twice; in others a name may keep what an alternative stored before it failed. `PatternMeaning.MatchSucceeds` has no such condition.
- HandlerChain.SimHandlers: covers the dispatch over the clauses only; the protected region, finalizers and the binding of the caught name are not modelled.
- Division64.DivmodHost: with a spilled divisor the pair is only said to be the division of what the boxes hold, which is the address of the cell and not the number.
- SortedRewrite.RewriteExact: takes an integer in a tuple back as it was stored; how minivm's structs keep one that does not fit a box is not part of the repository.
- PrecedenceParser.RightTreeIsFound: trees over operand tokens, an operand standing for an atom with its trailers; calls, subscripts and attributes behind an atom are not parsed.
- Ownership.Interpreter.Release: asks that the caller own the reference it releases, as the ownership rule does; unbalanced releases are not modelled.
- try/finally, with, generators, and captured and boxed variables are not lowered in the model.
- Floats, strings as run-time values, dicts, sets, classes with attributes and calls are not expressions of the lowered subset.
- Loops over iterators (the iterator protocol, enumerate and zip targets) are not lowered; loops over lists and over range are.
- Mapping and class patterns, and subjects of dynamic type.
- Unpacking with a star and unpacking a list value, whose length is checked at run time.
- emitTry's catch entry, the construction of exception instances and tracebacks.
- Number tokens: the lexer model skips over them as the code does, but their values and diagnostics are not modelled; neither are source positions.
- Token texts other than those of string literals, and positions.
- Bytes literals are read as single bytes and their diagnostics reduced to a flag.
- Statements, comparisons, lambdas and comprehensions in the parser: they sit above the precedence levels modelled.
- Host functions over dicts and sets: they depend on minivm's maps, which are not part of the repository.
- The checking of argument types after binding, and specialisation of calls.
- Callable, Iterator, Class and Module types are compared as the code compares them; their virtual-machine layouts are not modelled.
