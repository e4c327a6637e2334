# Crypti: a verified model

Crypti is a small interpreter for a calculator language with big numbers, octet strings, arrays, functions
and cryptographic hashes.  This project models its hard parts in Dafny and proves what they promise.

* **Expression and statement parser** (`Ast`, `Syntax`, `Statements`, `Expressions`, `Errors`, `Placement`, `Blocks`,
  `Parser`, `Printer`, `StatementPrinter`, `Coverage`, `Refusals`).  The class `Parser.Parser` is the recursive descent on the token stream of `Parser.Tokens`, with its lookahead,
  pushback and counters; each method is proved to do what a grammar function of `Syntax` or `Statements` says.
  `Printer` prints expression trees with parentheses where an operand binds looser than its place in the precedence
  chain, or a name would touch a `(`, `StatementPrinter` prints statements and definitions, and parsing undoes both;
  `Coverage` shows that they print whatever the parser builds without an error.  `Blocks` is what the statements of a
  block become when they are linked.
* **Tree evaluator** (`Semantics`, `Evaluator`, `Fuel`, `Denotation`, `Assignments`, `Updates`, `Control`, `Frames`,
  `Calls`, `ValueStack`, `Programs`).  The class `Evaluator.Interp` runs trees with the program's counters (`is_break`,
  `is_continue`, `is_return`, `is_cycle`, `is_call`), its error count, its value stack of 128 slots and its stack of
  scopes.  `Semantics` is a structured big-step semantics with four outcomes, errors and what operands still push after
  them included; the machine refines it (`Fuel` shows that its bound on loops and calls never changes a result).
  `Denotation` gives expressions a value,
  or the error they come to and what it leaves, without any stack, and says exactly how much stack they take;
  `Assignments` does so for parallel and chained assignment.  `Updates`, `Control` and `Calls` say what assigning
  operators, elements, loops and calls do in terms of their parts alone.
* **Lists and sorting** (`StableSort`, `LinkedList`, `BinaryRuns`, `ListSort`).  The bottom-up merge sort relinks
  nodes in place; its run stack is the binary form of the number of items consumed.
* **Hash table and associative array** (`Primes`, `HashSlots`, `HashChains`, `HashTable`, `HashRefinement`,
  `HashOrder`, `AssocArray`).  Chains of buckets are relinked in place, also when the table grows; runs of operations refine a multimap.
* **Streaming hashes** (`Arith`, `Streaming`, `Md5`, `Sha`, `Whirlpool`, `CryptHashes`).  Partial-block buffers, split
  64-bit counters, padding, and the registry of named contexts.  The compression functions are parameters.  SHA-1 and
  SHA-256 differ only in them, in the initial values and in the number of words, so `Sha.Context` is both.
* **Buffer, strings, literals** (`Buffer`, `Literals`, `Spelling`, `Strings`, `Lexer`).  The compacting and doubling byte
  buffer, the printers of numbers and octet strings, the lexer functions that read them back, and every way to spell a
  literal.

The usual shape is: a class or an in-place method whose contract ties its new state to a specification function,
and lemmas that prove what the program promises about that function.  The table below names the methods and the lemmas;
the grammar functions of `Syntax` and `Statements`, the functions of `Semantics`, and the functions on slots, lists and
contexts are the specifications these members are proved against.

Where the code and its comments differ, the model follows the code:

* `include/hash.h` promises `ret_not_found` from a lookup or a replacement of a missing key; a missed lookup is only
  some code other than `ret_ok`, and `hash_table_replace` answers TRUE or FALSE.  Contracts speak of the outcome.
* `hash_ctx_table_insert` refuses the 33rd context, but `generic_hash_init` still answers success; the model keeps that.
* The comment above `stack_item_sort` speaks of two lists of equal length; the final merges join runs of any lengths.
* Chained assignment to several names reverses the values from list to list (`Assignments.ChainReverses`); it agrees with
  simultaneous assignment exactly for palindromes (`Assignments.ChainAgrees`).
* An assignment whose first list is not as long as its right sides leaves values on the stack, or takes some that were
  there (`Assignments.ChainLeaves`).
* Operands are visited after an error and what they push stays until the flush; enough of them end the process by the
  stack's assertion (`Denotation.OnesPileUp`, `Denotation.LineIsExact`).
* A bare block inside a block is lost, or runs twice (`Blocks.LinkedSame` says when a tree runs as it was written).
* `for`, `while` and an assignment without `=` that go wrong are stubs, and no error is counted
  (`Errors.LoopsRefuseSilently`, `Refusals`).
* Octet strings holding the bytes 0x5C or 0x60 are printed unescaped and do not read back (`Literals.OctetsReadBack`);
  `buffer_copy` of a buffer onto itself yields zeros (`Buffer.Buf.Copy`); source lengths beyond 32 bits are cut before
  hashing (`CryptHashes.OneShotBlocksExact`).

## Model

| member | source | states |
|---|---|---|
| Parser.Tokens.TokNext | src/syntax.c:126-139 | Moves to the next token of the stream, from the pushed-back one if there is any, and remembers the old one; TOK_EOF repeats for ever |
| Parser.Tokens.TokPop | src/syntax.c:145-154 | Puts the previous token back in front: the remaining stream is that token followed by what remained |
| Parser.Parser.Match | src/syntax.c:156-165 | Consumes the current token exactly when it is the expected one, whatever the name of an expected identifier, otherwise changes nothing |
| Parser.Parser.SyncStream | src/syntax.c:178-199 | After an error the stream stands at the end of the line or of the input |
| Parser.Parser.Expr | src/syntax.c:369-398 | Tree, tokens left and error count are those of the grammar function for an expression, assignments included |
| Parser.Parser.OpWithAssign | src/syntax.c:400-467 | An assigning operator: one lvalue on the left, one expression on the right, as the grammar function says |
| Parser.Parser.GetRval | src/syntax.c:469-493 | An array initialiser or a ternary expression, a missing one counted as an error |
| Parser.Parser.GetSeq | src/syntax.c:496-519 | The comma list after its first item, as the grammar function says |
| Parser.Parser.Assign | src/syntax.c:537-578 | Chained assignments nest to the right; a list without `=` after it, or with no list of lvalues before it, gives a stub that counts as no error |
| Parser.Parser.IsLvalueSeq | src/syntax.c:521-530 | True exactly for lists of names and array elements |
| Parser.Parser.TrenaryOp | src/syntax.c:580-610 | The ternary operator over the ten binary levels, right side recursive |
| Parser.Parser.Level | src/syntax.c:612-955 | Each of the ten levels, from logical or to multiplication, builds the left-associative tree of its grammar function |
| Parser.Parser.Term | src/syntax.c:957-978 | A signed, a negated or a plain power |
| Parser.Parser.UnaryNot | src/syntax.c:980-1000 | A run of `!` becomes one node, its operator given by the parity of the run |
| Parser.Parser.UnaryPlus | src/syntax.c:1002-1022 | A run of signs becomes one node, its sign given by the parity of the minus signs |
| Parser.Parser.Power | src/syntax.c:1024-1055 | Exponentiation associates to the right |
| Parser.Parser.Concatenation | src/syntax.c:1057-1093 | Juxtaposed factors and `#` build a left-associative concatenation |
| Parser.Parser.Factor | src/syntax.c:1095-1129 | Parentheses, names and literals, as the grammar function says |
| Parser.Parser.Identifier | src/syntax.c:1131-1144 | A name followed by `(` is a call, by `[` an access, otherwise itself |
| Parser.Parser.FunctionCall | src/syntax.c:1746-1788 | The arguments of a call up to its `)`, with the error cases of the grammar function |
| Parser.Parser.ArrayAccess | src/syntax.c:1790-1835 | The indices of an access up to its `]`, with the error cases of the grammar function |
| Parser.Parser.ArrayInit | src/syntax.c:1842-1887 | The items of an array literal, with the error cases of the grammar function |
| Parser.Parser.Statement | src/syntax.c:332-366 | Tree, tokens left and error count are those of the statement grammar, and the nesting counters end as they began |
| Parser.Parser.Block | src/syntax.c:287-330 | The statements up to the closing brace, as the grammar function says |
| Parser.Parser.ProcessScope | src/syntax.c:1449-1468 | A braced block as the grammar function says, counters restored |
| Parser.Parser.ProcessIf | src/syntax.c:1146-1217 | `if` with the optional `else` after an optional end of line, which is pushed back when no `else` follows |
| Parser.Parser.ProcessFor | src/syntax.c:1219-1280 | `for` with its three optional parts; the loop counter is raised for the body only |
| Parser.Parser.ProcessWhile | src/syntax.c:1335-1380 | `while`; the loop counter is raised for the body only |
| Parser.Parser.ProcessDo | src/syntax.c:1282-1333 | `do` ... `while`; the loop counter is raised for the body only |
| Parser.Parser.ProcessDel | src/syntax.c:1382-1408 | `del` of a name or an array element, as the grammar function says |
| Parser.Parser.ProcessBreak | src/syntax.c:1410-1422 | `break` outside every loop is an error |
| Parser.Parser.ProcessContinue | src/syntax.c:1424-1434 | `continue` outside every loop is an error |
| Parser.Parser.ProcessReturn | src/syntax.c:1436-1447 | `return` outside every function is an error |
| Parser.Parser.GetNameArr | src/syntax.c:1584-1626 | Names separated by commas up to the closing token, at most the limit; otherwise the place of the error |
| Parser.Parser.ProcessFunction | src/syntax.c:1628-1709 | A definition with results, name, parameters and body as the grammar function says; the function counter is restored when no error was counted |
| Parser.Parser.FunctionBody | src/syntax.c:1711-1744 | The body is parsed one function deeper; any error turns the definition into a stub |
| Parser.Parser.GlobalExpr | src/syntax.c:258-275 | A definition after its keyword, otherwise a statement, as the grammar function says |
| Parser.Parser.ProgramStart | src/syntax.c:234-256 | The counters start at zero; the next statement or definition is accepted exactly when no error was counted; the stream stands where its parsing ended |
| Printer.ParsingUndoesPrinting | src/syntax.c:369-1144 | For every expression, assignment to lists of names and elements (chained, with array literals) and assigning operator, the printed tokens followed by any token that does not continue it parse back to exactly that tree, with no error counted and nothing else consumed |
| Printer.PrintInjective | src/syntax.c:369-1144 | Different trees print differently |
| Printer.UnguardedIsCall | src/syntax.c:1131-1144 | A name directly followed by a parenthesised expression is a call of that name, so a concatenation must guard its left name |
| Printer.LevelReads | src/syntax.c:612-955 | A tree printed for level k is read back by level k, at all ten levels |
| Printer.TermReads | src/syntax.c:957-1022 | Printed unary and tighter trees are read back by the unary level, `!!` included |
| Printer.PowerReads | src/syntax.c:1024-1055 | Printed powers are read back, nested to the right |
| Printer.ConcatenationReads | src/syntax.c:1057-1093 | Printed concatenations are read back nested to the left, guarded names included |
| Printer.ArgsRead | src/syntax.c:1746-1788 | A printed argument list of any length is read back by the call parser |
| Printer.IndicesRead | src/syntax.c:1790-1835 | A printed index list of any positive length is read back by the access parser |
| Printer.TrenaryReads | src/syntax.c:580-610 | Every printed tree is read back by the ternary level |
| Printer.SignsRead | src/syntax.c:1002-1022 | A run of signs of any length is read as one sign: minus for an odd number of minus signs, else plus |
| Printer.NotsRead | src/syntax.c:980-1000 | A run of `!` of any length is read as one or two, by its parity |
| StatementPrinter.StmtReads | src/syntax.c:332-367 | For every statement the grammar builds where loops and functions are around it as it needs, and any tokens that do not continue it (no `else` behind an open `if`), the printed tokens parse back to exactly that tree: each part in its place, missing parts missing |
| StatementPrinter.FunctionReads | src/syntax.c:1628-1742 | A printed definition is read back, name, results, parameters and body each in its place, if and only if it has at most 256 results and 256 parameters; otherwise an error is counted |
| StatementPrinter.LineReads | src/syntax.c:234-283 | A printed line, statement or definition, is accepted as the tree that was printed, and what follows is left |
| StatementPrinter.LineInjective | src/syntax.c:234-283 | Different lines print differently |
| Coverage.AcceptedPrints | src/syntax.c:234-283 | The printer covers the grammar: every accepted tree without a stub or a missing operand can be printed, and what is printed is accepted as this tree |
| Coverage.StatementBuilt | src/syntax.c:332-367 | Whatever the tokens, a statement is one that the printer knows, stubs apart, and if it ends with an `if` without `else` no `else` follows |
| Errors.ExprCounts | src/syntax.c:369-1144 | No error of an expression goes uncounted: where the error count has not moved the tree has no stub and misses nothing, but for assignments refused without counting |
| Errors.StatementCounts | src/syntax.c:332-367 | A block, `if` or `del` is what it says or an error is counted; `break`, `continue` and `return` count one exactly outside loops and functions |
| Errors.LoopsRefuseSilently | src/syntax.c:1219-1241 | `for` and `while` without their parenthesis give a stub that counts as no error, `if` counts one |
| Refusals.NothingStarts | src/syntax.c:332-367 | A line that starts with what starts no statement counts an error and is skipped |
| Refusals.OpenGroup | src/syntax.c:1097-1115 | A group that is not closed counts an error, and its expression stands |
| Refusals.OpenCall | src/syntax.c:1746-1788 | A call that is neither closed nor goes on counts an error |
| Refusals.OpenAccess | src/syntax.c:1790-1835 | So does an access |
| Refusals.NoColon | src/syntax.c:580-610 | A condition with a branch but no colon counts an error |
| Refusals.NoTarget | src/syntax.c:400-467 | An assigning operator behind what is no name and no element counts an error |
| Refusals.ListAlone | src/syntax.c:537-578 | A list without `=` gives a stub that counts as no error |
| Refusals.NoTargets | src/syntax.c:537-578 | An assignment to a list that is not all names and elements gives a stub that counts as no error, and the parser goes on behind its `=` |
| Refusals.OpenCondition | src/syntax.c:1146-1380 | A condition that is not closed counts an error for `if` and none for `while` |
| Refusals.OpenFor | src/syntax.c:1219-1241 | A `for` that breaks off behind its first expression gives a stub that counts as no error |
| Refusals.OpenTest | src/syntax.c:1241-1255 | Nor does one that breaks off behind its condition |
| Refusals.OpenStep | src/syntax.c:1255-1271 | Nor does one that breaks off behind its third expression |
| Refusals.OpenDo | src/syntax.c:1283-1333 | A `do` without its `while` gives a stub that counts as no error, and an end of line behind its body is gone |
| Refusals.OpenDoCondition | src/syntax.c:1283-1333 | Nor does one with an open condition |
| Refusals.OpenBlock | src/syntax.c:287-330 | In a block a statement that is not at its end counts an error and the rest of its line is skipped; a block that is not closed counts one |
| Refusals.NothingToDelete | src/syntax.c:1382-1408 | `del` of anything but a name or an element counts an error |
| Refusals.OpenDefinition | src/syntax.c:1628-1742 | A definition that breaks off counts an error, two where its body should start, and the rest of the line is skipped |
| Expressions.ExprShape | src/syntax.c:369-398 | Whatever the tokens, what the expression parser builds is made of expression nodes only |
| Placement.StatementPlaced | src/syntax.c:332-366 | Whatever the tokens, a parsed statement has break and continue only in loops and return only in functions, counted from the current nesting |
| Placement.FunctionBodyPlaced | src/syntax.c:1711-1744 | The body of a parsed definition is placed one function deeper: return is allowed, break and continue as where the definition stands |
| Placement.AcceptedIsPlaced | src/syntax.c:234-256 | In every tree that is accepted break and continue stand in loops only and return in functions only |
| Programs.PlacedFits | src/traverse.c:360-379 | A well placed tree meets what the evaluator relies on, so the unexpected break and continue of a function body never occur; one that keeps to a mode does so when run |
| Blocks.LinkedSame | src/syntax.c:287-330 | The links of a block lead the evaluator through the tree as it was written if and only if every bare block repeats what follows it in its block |
| Blocks.NoBareIsUnbroken | src/traverse.c:636-642 | A tree with no bare block directly in a block is one of those |
| Blocks.BareBlockExample | src/traverse.c:631-656 | A bare block before a statement is lost and the statement runs twice; at the end of its block it runs twice itself |
| Programs.LinkedPlaced | src/syntax.c:287-330 | Linking moves no break or continue out of a loop, no return out of a function, and adds no assignment, deletion or call |
| Programs.AcceptedFits | src/traverse.c:587-629 | Every accepted tree, as its blocks are linked, can be run: the branches for signals outside loops and calls are unreachable |
| Programs.RunLine | src/crypti.c:103-112 | A line that is not accepted changes nothing in the interpreter; an accepted one ends where the meaning of its linked tree ends, its values shown last first, or flushed after an error, an assertion of the stack included exactly when one fires; the interpreter is ready for the next line; a quiet line leaves all outer scopes, one without assignments every scope, error or not |
| Evaluator.Interp.constructor | src/crypti.c:71-81 | One empty scope, an empty stack, no functions: ready for the first line |
| Evaluator.Interp.Traverse | src/traverse.c:1370-1382 | Ends where the structured semantics ends: same state, value stack included, and same outcome as the one pending signal; after an error, or when one has been counted before, with exactly the values on the stack that are still pushed; by an assertion of the stack exactly where the semantics is; counters, current function and number of scopes are restored |
| Evaluator.Interp.TraverseId | src/traverse.c:70-107 | Pushes the value of the innermost binding of the name, or counts an error |
| Evaluator.Interp.LookupAll | src/id_table.c:232-250 | The innermost scope that binds the name, None exactly when no scope does |
| Evaluator.Interp.PushEval | src/stack.c:49-62 | Pushes, or ends the process when the assertion on the stack size fails |
| Evaluator.Interp.PopEval | src/stack.c:78-90 | Pops the top, or yields nothing on an empty stack, or ends the process when the assertion fails |
| Evaluator.Interp.TraverseArr | src/traverse.c:109-160 | An array literal: items evaluated in order and stored under their numbers; after an error in an item the array is pushed as far as it has come |
| Evaluator.Interp.CreateIndex | src/traverse.c:163-213 | Indices evaluated in order give the key of the element |
| Evaluator.Interp.TraverseAccess | src/traverse.c:215-265 | Pushes the element found in the innermost binding, or fails as the semantics does |
| Evaluator.Interp.TraverseFuncDef | src/traverse.c:267-299 | A definition enters the function table and leaves everything else |
| Evaluator.Interp.PushReturnArgs | src/traverse.c:301-342 | All results bound in the current scope: pushed last first; otherwise nothing is pushed and the call fails |
| Evaluator.Interp.ExecFunction | src/traverse.c:344-390 | Runs a body to its outcome; a return is consumed, falling off the end pushes the results; current function and call depth are restored |
| Evaluator.Interp.AddArgsToScope | src/traverse.c:505-527 | Arguments are evaluated in the scopes of the caller, in order, and bound to the parameters in a new scope; after an error the list is over with the argument at hand |
| Evaluator.Interp.CallBody | src/traverse.c:557-575 | Runs a body under its own scope and removes that scope; if the functions it can reach by calls neither delete nor write array elements, every scope ends as it was, error or not, whatever other functions are defined |
| Evaluator.Interp.TraverseFuncCall | src/traverse.c:529-575 | A call of any arity ends as the semantics says; error or not the scopes are as many as before, and unchanged when the arguments assign nothing and the functions reached neither delete nor write array elements |
| Evaluator.Interp.TraverseBody | src/traverse.c:577-629 | Names the outcome of a body: error, normal, break, continue or return, exactly as the semantics does |
| Evaluator.Interp.TraverseScope | src/traverse.c:631-656 | A block stops at the first signal and passes it on |
| Evaluator.Interp.TraverseCond | src/traverse.c:658-694 | Evaluates a condition and takes its truth off the stack; a missing value is an error |
| Evaluator.Interp.TraverseIf | src/traverse.c:696-716 | Refines the conditional, passing on signals |
| Evaluator.Interp.TraverseFor | src/traverse.c:718-775 | Refines the for loop: break and continue are consumed, return is passed on, loop depth restored |
| Evaluator.Interp.TraverseWhile | src/traverse.c:777-824 | Refines the while loop: break and continue are consumed, return is passed on, loop depth restored |
| Evaluator.Interp.TraverseDo | src/traverse.c:826-875 | Refines the do loop, in which continue starts the body again without testing the condition |
| Evaluator.Interp.TraverseDel | src/traverse.c:877-936 | Deletes the innermost binding or one element of it |
| Evaluator.Interp.SetValueNodeAccess | src/traverse.c:963-1006 | Writes one element of the innermost binding and nothing else |
| Evaluator.Interp.SetValueNode | src/traverse.c:1008-1043 | Binds a name in the current scope or writes an array element |
| Evaluator.Interp.SetValueNodeN | src/traverse.c:1045-1055 | Sets several targets one after the other, from the first |
| Evaluator.Interp.TraverseAsRest | src/traverse.c:1058-1109 | Right side first, then pop, store and push again, for every nesting of assignments |
| Evaluator.Interp.TraverseAs | src/traverse.c:1111-1127 | A whole assignment; the values it leaves for an outer one are removed |
| Evaluator.Interp.TraverseSeq | src/traverse.c:1129-1139 | The items of a list are evaluated last first, the rest of them even after an error, with what they then push |
| Evaluator.Interp.TraverseTrenary | src/traverse.c:1141-1159 | Evaluates the chosen branch only |
| Evaluator.Interp.TraverseUnary | src/traverse.c:1161-1197 | Operand, then operator, replacing the top of the stack |
| Evaluator.Interp.TraverseOp | src/traverse.c:1199-1239 | Left operand, right operand, operator, as the semantics says; after an error in the left one the right one is still traversed, and what it pushes stays on the stack or its assertion fires |
| Evaluator.Interp.TraverseOpAs | src/traverse.c:1241-1279 | Reads the target, combines, and stores the result; after an error in the target the right side still leaves what it pushes |
| Evaluator.Interp.TraverseReturn | src/traverse.c:1281-1292 | Pushes the results of the current function and raises the return signal |
| Evaluator.Interp.TraverseProg | src/traverse.c:1384-1404 | A program that runs without error ends in the state of the semantics with no signal and no depth left; after an error in the state of the error with the stack emptied, unless fewer than two slots are free, when the assertion of the flush ends the process |
| Evaluator.Interp.TraverseResult | src/traverse.c:1406-1415 | Takes every value off the stack, the last one first |
| Denotation.AfterRuns | src/traverse.c:1199-1239 | A side-effect-free expression traversed after an error pushes its literals, bound names and those of its operands that are still visited, in order, or the stack assertion fires when these do not fit |
| Denotation.StackEvaluation | src/traverse.c:1141-1239 | Every side-effect-free expression in every state: without the slots its evaluation asks for an assertion of the stack ends it; with them it pushes exactly its denoted value above an untouched stack, or counts an error and leaves exactly the values the error leaves, or ends the process otherwise |
| Denotation.RoomIsExact | src/stack.c:49-90 | An assertion of the stack ends a traverse, before or after an error, if and only if the slots asked for are not there, ternaries included; with them it succeeds, fails or dies if and only if the expression does |
| Denotation.LineIsExact | src/stack.c:127-139 | A line that is an expression ends by an assertion of the stack, that of the flush or of the showing included, if and only if the slots asked for or one slot above what is left are missing |
| Denotation.SuccessPushesValue | src/traverse.c:1141-1239 | Whenever a traverse succeeds the expression has a value and exactly that was pushed |
| Denotation.NeedSuffices | src/stack.c:49-90 | With depth plus need at most 126 an expression that has a value gets it, whatever the scopes |
| Denotation.NeedIsExact | src/stack.c:49-90 | Without ternaries the need computed from the tree alone is the number of slots really asked for, a leaf asking for one less |
| Denotation.PeakSuffices | src/stack.c:49-139 | With depth plus the peak of the tree at most 126 no assertion of the stack ends the line, neither in the traverse nor in the flush, errors or not, whatever the scopes |
| Denotation.OnesPileUp | src/traverse.c:1199-1239 | The need of values is not enough for errors: u + 1 + ... + 1 with u unbound needs 2 slots, yet leaves every 1 on the stack, asserts from 128 ones and at the flush from 127; from 3 ones on its peak is what it asks for |
| Denotation.FoundIs | src/id_table.c:232-250 | The scope found for a name is the innermost that binds it |
| Assignments.RightSides | src/traverse.c:1129-1139 | The right sides, evaluated last first, end with all values on the stack and the first on top, or with exactly what the first error from the right leaves, or by the assertion if and only if their slots are missing |
| Assignments.ParallelAssignment | src/traverse.c:1045-1139 | An unchained assignment to distinct names succeeds if and only if every side has a value and there is room; then every name has the value of its side in the original environment and no other name, scope or stack slot has changed |
| Assignments.ChainRuns | src/traverse.c:1058-1127 | An assignment of side-effect-free expressions to lists of names of any lengths, chained to any length, ends, in success, error and assertion alike, as storing into the lists from right to left and dropping as many values as the first list has names |
| Assignments.ChainSucceeds | src/traverse.c:1058-1127 | It succeeds if and only if all sides have values, with the slots for them and one more, and no list is longer than the stack is then high |
| Assignments.ChainLeaves | src/traverse.c:1111-1127 | The height of the stack moves by the difference of right sides and first list; when no list is longer than the right sides, what was on the stack stays, and the stack is unchanged if and only if the first list is as long as the right sides |
| Assignments.SingleLeaves | src/traverse.c:1111-1127 | A list shorter than its right sides takes the first values and leaves the others on the stack |
| Assignments.ShortExample | src/traverse.c:1111-1127 | `a = 1, 2` leaves 1 in a and the 2 on the stack |
| Assignments.EqualChain | src/traverse.c:1058-1127 | A chain of lists as long as the right sides binds them from right to left, the values reversed each time, and leaves the stack as it was |
| Assignments.ChainReverses | src/traverse.c:1058-1109 | In a chain of equal lists the list k places from the right holds the values reversed k times |
| Assignments.ChainAgrees | src/traverse.c:1058-1109 | A chain of equal lists gives all its names the values they stand over if and only if it has one list or the values are a palindrome |
| Assignments.ChainExample | src/traverse.c:1058-1109 | `a, b = c, d = 1, 2` leaves 2 in a and 1 in b |
| Updates.SetRuns | src/traverse.c:938-1043 | Setting a name binds it in the current scope, setting an element writes it under its key into the innermost array of the name, or into a new one in the current scope; a scalar in its place is an error |
| Updates.WrittenReads | src/traverse.c:938-1043 | After setting, the stack is as before, the name has the value or an array with it, and no other name has changed |
| Updates.ElementReads | src/traverse.c:215-265 | An element that has been set reads as its value while its indices mean the same |
| Updates.AssignOne | src/traverse.c:1058-1127 | An assignment of a side-effect-free expression to one name or element sets it to the value of the expression, in every state and with every end |
| Updates.OpAssignIsAssign | src/traverse.c:1241-1279 | `x op= e` is `x = x op e`, for names and elements and side-effect-free e, in every state and with every end |
| Updates.OpAssignCombines | src/traverse.c:1241-1279 | With a the value of the name and b that of the expression it succeeds if and only if the operator has a value for a and b, in this order, and the slots are there; then the current scope binds the name to that value and nothing else has changed |
| Updates.DeleteRuns | src/traverse.c:877-936 | Deleting takes out the innermost binding of a name, or one key of its innermost array; a missing name or key is an error |
| Updates.ArrayLiteral | src/traverse.c:109-160 | An array literal of side-effect-free items, errors included: the values in order under the index strings of their numbers |
| Updates.LiteralItems | src/traverse.c:109-160 | If different numbers have different index strings, item j is found under number j and nothing under any number past the items |
| Control.IfChooses | src/traverse.c:696-716 | The branch that the value of a side-effect-free condition chooses is run, on an untouched state, and nothing if it is a missing else |
| Control.BlockRuns | src/traverse.c:631-656 | A block is its first part and, if and only if that ends normally, its second |
| Control.LoopsAreRounds | src/traverse.c:718-875 | Each of the three loops succeeds with a state and an outcome if and only if rounds lead from the state before it to a last one: a round goes on after a body that ends normally or by continue, through the third expression of for, and without the test of do after continue; the last one finds the condition false, or breaks, or returns |
| Control.RoundGoes | src/traverse.c:718-875 | A round that goes on makes the loop equal to itself run from there |
| Control.RoundEnds | src/traverse.c:718-875 | A false condition or a break ends the loop normally where it is found, a return with return |
| Control.EndsFalseOrBroken | src/traverse.c:718-875 | A loop that ends normally ends where its condition has been found false, or was broken |
| Control.ForStarts | src/traverse.c:718-735 | The first expression of for is run once, before the loop |
| Control.CountedRuns | src/traverse.c:718-775 | `for (i = 0; i < n; i += 1) body` runs a body that leaves i alone and ends normally or by continue exactly n times, with i from 0 to n - 1, and ends with i at n |
| Control.BreakEnds | src/traverse.c:777-824 | `while (1) break` ends at once |
| Control.ContinueCounts | src/traverse.c:718-775 | `for (i = 0; i < n; i += 1) continue` ends with i at n |
| Frames.ExecKeeps | src/traverse.c:344-390 | Whatever succeeds leaves the current function as it was, and without a return in it succeeds alike in every function |
| Calls.CallsAreBodies | src/traverse.c:301-390 | A call with evaluated arguments succeeds if and only if its body, run in a scope of its own with each parameter bound to its argument, comes to an end or a return in a scope that gives a scalar to every result; then exactly these values are left above the stack of that end, the first on top, and the scope of the body is gone |
| Calls.ReturnLeaves | src/traverse.c:1281-1292 | Whatever ends by return has left on the stack what the scope at the return gives to the results of the current function |
| Calls.DefinedCall | src/traverse.c:267-299 | A definition makes a function of its name: a call of it binds its parameters, runs its statements and yields its results, whatever the name meant before |
| Calls.ResultsAssigned | src/traverse.c:1058-1127 | `x1, ..., xk = f(...)` gives each name the value of its result, in the scope of the caller |
| Calls.AppendedReturn | src/traverse.c:344-390 | A return appended to a body without one changes no success of a call |
| Calls.TwiceYields | src/traverse.c:344-390 | After `def [r] f(a) { r = a * 2 }` the call `f(3)` leaves the value of `3 * 2` |
| ValueStack.Stack.Push | src/stack.c:49-62 | Appends one element, and fails exactly when fewer than two slots are free; the same step as the push of the evaluator |
| ValueStack.Stack.Pop | src/stack.c:78-90 | Takes the last element off; nothing on an empty stack; the assertion is about free slots here too; the same step as the pop of the evaluator |
| ValueStack.Stack.PushN | src/stack.c:65-75 | Appends all elements in order, exactly when they fit |
| ValueStack.Stack.PopN | src/stack.c:92-99 | Yields the top n, topmost first, nothing where the stack has run out |
| ValueStack.Stack.RemoveN | src/stack.c:109-125 | Drops the top n, exactly when there are as many |
| ValueStack.Stack.Flush | src/stack.c:127-139 | Empties the stack |
| StableSort.SortedIsOrderedPermutation | src/list.c:228-275 | The sorting function yields a descending permutation |
| StableSort.SortedIsStable | src/list.c:228-275 | Elements that compare equal keep their order |
| StableSort.StablePermutationUnique | src/list.c:228-275 | There is only one descending stable permutation, so any two such sorts agree |
| StableSort.MergeSorted | src/list.c:155-208 | Merging the sorted halves of a list is sorting the list |
| LinkedList.MergeLists | src/list.c:155-208 | Relinks the nodes of two lists into their merge, the left node first when equal |
| ListSort.StackItemSort | src/list.c:155-208 | The two topmost runs become one, all other runs stay as they are |
| BinaryRuns.Lb | src/list.c:210-220 | The rounded-down binary logarithm |
| BinaryRuns.RunsAreOnes | src/list.c:248-262 | Between merges there are as many runs as the number of items consumed has one bits |
| BinaryRuns.RoomOnStack | src/list.c:240-262 | Strictly decreasing powers of two that sum to less than n are fewer than lb(n) + 1 |
| BinaryRuns.MergeKeepsShape | src/list.c:258-261 | Merging two equal topmost runs leaves powers of two, strictly decreasing but for the topmost two |
| ListSort.PushAll | src/list.c:248-262 | Every item finds a free slot; at the end the runs are sorted chunks of the list in order |
| ListSort.MergeAll | src/list.c:264-269 | The remaining merges leave one run, the whole list sorted |
| ListSort.SortNodes | src/list.c:228-275 | Relinks the same nodes into the sorted list; the run stack never exceeds the slots allocated |
| ListSort.List.Sort | src/list.c:228-275 | The list becomes the sorted sequence of its own nodes, lists below two elements included |
| ListSort.List.SortSimple | src/list.c:277-319 | On two or more elements ends, with exactly the node sequence of the merge sort |
| ListSort.Pass | src/list.c:295-313 | One pass keeps the sorted result and, unless it finds everything after the head in order, removes inversions |
| ListSort.HeadAndPass | src/list.c:287-314 | The swap at the head and the pass together: if the pass found no pair to exchange, the whole list is in order although the head swap never clears `end` |
| ListSort.List.ReverseInPlace | src/list.c:74-89 | The list becomes its reverse |
| ListSort.List.ItemAdd | src/list.c:37-50 | The item becomes the first of the list |
| HashTable.Table.constructor | src/hash.c:56-87 | A valid table without entries, of 31 slots or of the nearest size to the hint |
| HashTable.Table.Resize | src/hash.c:123-182 | The array of the next table size holds the old entries, inserted one by one in the old order; the collision counter is exact again |
| HashTable.Repopulate | src/hash.c:133-180 | The new array holds the old entries, each in its slot, and the collisions counted on the way are those of the new array |
| HashTable.Table.HashInsert | src/hash.c:114-217 | Inserts into the slot of the key, behind its head, after a resize exactly when the table is crowded; slots, count and collision stay consistent |
| HashTable.Table.HashInsertUnique | src/hash.c:219-238 | Refuses a present key and changes nothing, otherwise inserts |
| HashTable.Table.HashRemove | src/hash.c:240-293 | Takes out the first entry of the key, moving the next bucket into the head when the head goes; says whether there was one |
| HashTable.Table.HashClean | src/hash.c:295-320 | No entry is left and both counters are zero |
| HashTable.Table.HashReplace | src/hash.c:322-344 | Replaces the data of the first entry of the key; says whether there was one |
| HashTable.Table.HashLookup | src/hash.c:346-369 | The data of the first entry of the key |
| HashTable.Iterator.constructor | src/hash.c:371-390 | A new iteration has all entries still to come |
| HashTable.Iterator.Next | src/hash.c:401-440 | Yields the first entry still to come and leaves the others; FALSE exactly when none is left |
| HashRefinement.StepRefines | src/hash.c:114-369 | Every operation, resizing or not, does to the bag of entries what a multimap does and answers alike, and keeps each entry in its slot |
| HashRefinement.RunRefines | src/hash.c:114-369 | Every run from an empty table refines a run of the multimap, whatever triggers resizes and whatever sizes they pick |
| HashRefinement.MapRunRefines | src/hash.c:219-369 | While keys are only added through the unique insert, every run answers like a map and leaves its contents |
| HashRefinement.MapSize | src/hash.c:219-238 | Then the number of entries is the number of keys |
| HashSlots.RehashKeeps | src/hash.c:135-182 | A resize keeps the bag of entries and puts each into its slot |
| HashSlots.LookupFinds | src/hash.c:346-369 | A lookup finds an entry of the key, and fails only when there is none in the whole table |
| HashSlots.InsertCounts | src/hash.c:184-205 | One more entry, and one more collision exactly when the slot was taken |
| HashSlots.RemoveCounts | src/hash.c:240-293 | One entry less, and one collision less unless the slot becomes empty |
| HashOrder.KeysAreLists | src/hash.c:184-369 | Entries with equal keys are a list: an insert puts the data first, or second if the key is that of the head of its chain; a remove takes the first out, a replace exchanges it, a lookup answers it; other keys keep theirs |
| HashOrder.RehashOrders | src/hash.c:135-182 | A resize leaves in each slot the entries that hash to it: the first in the order of iteration at its head, and behind it the others from the last to the second |
| HashChains.ChainRemove | src/hash.c:240-293 | Unlinks the first bucket of the key from its chain in place |
| HashChains.ChainMove | src/hash.c:142-174 | A bucket of the old table becomes the head or the second of its new chain |
| Primes.PrimeNearest | src/primes.c:47-57 | The smallest size of the table that is at least what is asked for, the largest one if there is none |
| AssocArray.Array.constructor | src/array.c:74-86 | An array without items |
| AssocArray.Array.SetItem | src/array.c:116-138 | The map is updated at the key, whether it was present or not |
| AssocArray.Array.GetItem | src/array.c:140-151 | The value of the key, None exactly when it is absent |
| AssocArray.Array.RemoveItem | src/array.c:153-171 | The key is gone from the map, nothing else; says whether it was there |
| AssocArray.Array.CountsKeys | src/array.c:153-171 | `nitems` is the number of keys |
| AssocArray.Array.Dup | src/array.c:88-113 | A fresh array with an equal map and the same count, sharing nothing |
| AssocArray.UniqueIsGraph | src/array.c:116-138 | Entries without a repeated key are the graph of a map with as many keys |
| Streaming.FoldResume | lib/crypto/sha256.c:293-331 | Compressing two parts one after the other, through the pending bytes, is compressing them together |
| Streaming.AbsorbAppend | lib/crypto/sha256.c:293-331 | update(a) then update(b) leaves the state, the counter and the pending bytes of update(a + b) |
| Streaming.ChunkingIrrelevant | lib/crypto/sha1.c:288-327 | After any list of updates the context is that of the whole message |
| Streaming.FeedBlocks | lib/crypto/sha256.c:309-330 | Fills the buffer, compresses whole blocks and keeps the rest at the front |
| Streaming.PaddingIsShortest | lib/crypto/sha256.c:357-376 | The padding is the shortest 0x80 and zeros that make message, padding and length field whole blocks |
| Streaming.Padded | lib/crypto/sha256.c:349-386 | The padded message extends the message and is a whole number of 64-byte blocks |
| Streaming.FinishIsStandard | lib/crypto/sha256.c:349-386 | Finishing a context that holds a message compresses exactly the padded message |
| Md5.BitCounterExact | lib/crypto/md5.c:242-247 | The two-word bit counter is addition modulo 2 to the 64, wrap and carry included |
| Md5.Context.Update | lib/crypto/md5.c:228-272 | State, counter and pending bytes become those after the message |
| Md5.Context.Final | lib/crypto/md5.c:274-292 | Writes the words, low byte first, left by the padding and the little-endian bit length |
| Md5.ResultIsDigest | lib/crypto/md5.c:274-292 | The digest of a context that was given a message is the standard one: sections 3.1 and 3.2 of RFC 1321 |
| Md5.Uint32ToBytes | lib/crypto/md5.c:93-109 | Words as bytes, low byte first |
| Sha.ByteCounterExact | lib/crypto/sha256.c:304-308 | The two-word byte counter is addition modulo 2 to the 64, wrap and carry included |
| Sha.BitsOfBytes | lib/crypto/sha256.c:360-362 | Shifting the two words gives eight times the counter modulo 2 to the 64 |
| Sha.Context.Update | lib/crypto/sha256.c:293-331 | State, counter and pending bytes become those after the message |
| Sha.Context.Final | lib/crypto/sha256.c:349-386 | Writes the words, high byte first, left by the padding and the big-endian bit length |
| Sha.ResultIsDigest | lib/crypto/sha1.c:345-382 | The digest of a context that was given a message is the standard one: section 5.1.1 of FIPS 180-2, section 4 of RFC 3174 |
| Sha.Uint32ToBytes | lib/crypto/sha256.c:335-346 | Words as bytes, high byte first |
| Whirlpool.Context.Update | lib/crypto/whirlpool.c:506-544 | State, counter and pending bytes become those after the message |
| Whirlpool.Context.LengthBytes | lib/crypto/whirlpool.c:560-585 | The length field is 256 bits wide and holds eight times the byte counter |
| Whirlpool.Context.Final | lib/crypto/whirlpool.c:560-585 | Writes the state left by the padding and the 256-bit length |
| Whirlpool.ResultIsDigest | lib/crypto/whirlpool.c:560-585 | The digest of a message below 2 to the 64 bytes is the standard one: Dedicated Hash-Function 7 of ISO/IEC 10118-3 |
| Whirlpool.LengthFieldExact | lib/crypto/whirlpool.c:568-578 | The length field is right if and only if the message is shorter than 2 to the 64 bytes |
| CryptHashes.OneShotIsStandard | src/crypt_hashes.c:150-167 | The one-shot hash is the standard digest of the source, cut to 32 bits of length |
| CryptHashes.OneShotBlocksExact | src/crypt_hashes.c:150-167 | For each algorithm, with its own length field, the blocks hashed are those of the source if and only if its length fits 32 bits |
| CryptHashes.Registry.Insert | src/crypt_hashes.c:82-103 | Registers a context unless 32 are registered |
| CryptHashes.Registry.HashInit | src/crypt_hashes.c:195-216 | Registers a context under a free name; a taken name is an error |
| CryptHashes.Registry.HashUpdate | src/crypt_hashes.c:218-244 | Feeds the named context if its type matches, and otherwise changes nothing |
| CryptHashes.Registry.HashFinalize | src/crypt_hashes.c:246-273 | Answers the digest of the named context and removes it if its type matches, and otherwise changes nothing |
| CryptHashes.StepMatches | src/crypt_hashes.c:195-273 | One call answers as the log of given messages does, and the registry keeps matching the log |
| CryptHashes.RegistryIsLog | src/crypt_hashes.c:82-147 | Over any run of interleaved calls every answer is that of the log: a finalize yields the standard digest of everything given to its name since its init; the count is the number of live contexts and at most 32 |
| CryptHashes.OtherNamesUndisturbed | src/crypt_hashes.c:195-273 | A run that never mentions a name leaves its session as it was |
| CryptHashes.RunCounts | src/crypt_hashes.c:82-147 | Over any run the count is the number of live contexts and at most 32 |
| CryptHashes.InitRegisters | src/crypt_hashes.c:82-103 | After any run an init of a name that is not live answers success, and makes it live if and only if fewer than 32 contexts are |
| Buffer.DoubledIsLeast | src/buffer.c:175-180 | The new size is the old one doubled the least number of times, at least once, that makes room |
| Buffer.Buf.Ensure | src/buffer.c:163-185 | Compaction keeps the contents and makes room, doubling does with the least doubled size that suffices; it fails exactly when the buffer is static and too small or would pass the limit |
| Buffer.Buf.Put | src/buffer.c:274-288 | Appends the bytes, or fails and keeps the contents |
| Buffer.Buf.PutChar | src/buffer.c:251-261 | Appends one byte |
| Buffer.Buf.Advance | src/buffer.c:187-197 | Appends zeros |
| Buffer.Buf.Zero | src/buffer.c:263-272 | Ends the contents with a zero that is not part of them |
| Buffer.Buf.Get | src/buffer.c:379-396 | Splits a prefix off the contents |
| Buffer.Buf.Consume | src/buffer.c:147-161 | Drops a prefix of the contents, exactly when it is not longer than they are |
| Buffer.Buf.Trim | src/buffer.c:128-145 | Drops and zeroes a suffix of the contents, exactly when it is not longer than they are |
| Buffer.Buf.Append | src/buffer.c:509-522 | Appends a prefix of another buffer, or of itself, even when making room moves the source |
| Buffer.Buf.Copy | src/buffer.c:524-531 | Copies a prefix of another buffer; onto itself it yields zeros, so it copies if and only if the buffers differ or the prefix was zero |
| Buffer.Buf.Dup | src/buffer.c:533-542 | A fresh buffer with the same contents |
| Literals.NumberReadsBack | src/lex.c:207-292 | The printed digits of every number from 0 on, followed by any text, are read back as the number with that text left over if and only if the text does not continue the number |
| Literals.NumberTextInjective | src/type_convertions.c:302-358 | Different integers, negative ones included, print differently |
| Literals.OctetsReadBack | src/lex.c:94-148 | The printed text of an octet string between backquotes is read back as the same octets if and only if none of them is 0x5C or 0x60 |
| Spelling.OctetsAreSpelled | src/lex.c:46-148 | An octet string literal is read as the octets s, with the rest of the text left, if and only if it is a spelling of s and a backquote: every octet as itself, behind a backslash, or as an escape of two hexadecimal digits of either case |
| Spelling.OctetsAreSpoiled | src/lex.c:46-148 | A literal is refused, with this rest of the text left, if and only if spelled octets are followed by the end or by a bad escape that leaves it |
| Spelling.EscapedReadsBack | src/lex.c:67-148 | Every octet string can be written and is read back: a backslash before each 0x5C and 0x60, printable octets as they are, escapes for the rest |
| Spelling.PrintedSpells | src/type_convertions.c:192-224 | The printed text of an octet spells it if and only if it is neither 0x5C nor 0x60; escapes have upper-case digits |
| Spelling.NumbersRead | src/lex.c:207-292 | Decimal digits without a leading 0, octal digits after 0 and hexadecimal digits of either case after 0x or 0X are read as the number of their place values, with the rest of the text left, if and only if no digit of the base follows |
| Strings.BignumToString | src/type_convertions.c:302-358 | Divide, append and reverse write the decimal text of the number, unless the string can hold no more |
| Strings.OctstringToString | src/type_convertions.c:192-224 | Printable octets as they are, the others as escapes |
| Strings.StrReverse | src/str.c:90-106 | The bytes are reversed in place, the terminator stays |
| Strings.StrPutc | src/str.c:173-182 | Appends one byte and keeps the terminator behind the string |
| Lexer.GetDigitBase | src/lex.c:230-253 | Reads the longest run of digits of the base and leaves the rest to be read |
| Lexer.GetDigit | src/lex.c:255-292 | Reads a decimal, octal or hexadecimal number by its prefix, 0 through the octal branch |
| Lexer.GetHexChar | src/lex.c:46-65 | Reads two hexadecimal digits as one byte, or fails where the first bad one stands |
| Lexer.GetUnescapedChar | src/lex.c:67-92 | Reads one character or escape |
| Lexer.GetOctstring | src/lex.c:94-148 | Reads octets up to the closing backquote, or fails at a bad escape or the end of the input |

## Left out

- Compression rounds, S-boxes and tables: each hash's block function is an arbitrary function on state and block.
- Memory: allocation failure, freeing, leaks, double frees, and the guards against NULL arguments.
- Files, terminal, random numbers and time: all of `src/crypti.c` but the main loop, the printing of results, `src/crypti_io.c`, `src/random.c`, `buffer_read_fd`, `buffer_write_fd`.
- `import`: `process_import` and `traverse_import` read another file; programs here have none.
- Library functions (`src/libcall.c`, `exec_library_function`) and the tables that hold them.
- The `mpl` numbers are mathematical integers; its division and remainder appear only for digits of a number.
- Conversions other than number to text and octets to text, and casts of composite values.
- Calls.CallsAreBodies: arguments with side effects are left to the semantics.
- Operators, truth of a value and index strings are parameters of the evaluator; that `!!a` is evaluated as `!a` is thus not visible, nor is the reading of a number slot for values of other types.
- String literals, comments, identifiers and keywords of the lexer; the parser starts from tokens.
- Syntax trees are values; the `child` link that strings the statements of a block is the function `Blocks.Linked`, and no node is freed.
- Reading an array element of something that is no array, and returning an array, use memory the program has not set; both end the process here.
- Scopes are maps from names to values in the evaluator; that they are hash tables is not repeated there.
- The value stack is a sequence in `Evaluator.Interp`; the array with its index is `ValueStack.Stack`, whose methods meet the same functions of `Semantics`.
- `Semantics.Exec` bounds nested loops and calls by fuel; `Fuel.ExecMore` shows that more fuel never changes a result, but runs that never end have no result.
- Wrap-around of the table's counters, of list lengths and of the 32-bit error counter.
- Comparison callbacks of the hash table are equality of keys; the hash function is an arbitrary parameter, that of arrays included.
- The collision rate is a quotient of reals, not of `float`s.
- The registry of hash contexts stores context values; the contexts that update in place are `Md5.Context`, `Sha.Context` and `Whirlpool.Context`, proved against the same functions.
- The context that an init past the limit allocates and forgets.
- `list_sort_simple` reads through NULL below two elements; its contract starts at two.
- Static buffers sharing one array, `buffer_peek`, `buffer_poke`, `buffer_printf_append` and the typed put and get of the buffer.
- `str_substr`, `str_snprintf` and the other string functions not used by the printers.
- Big-endian hosts, where the hashes copy words instead of converting them.
- Evaluator.Interp.TraverseFuncCall: leaves library functions out; outer bindings are claimed unchanged for code that reaches no `del` and no write to an array element, as either can reach an outer scope.
- Evaluator.Interp.TraverseFuncDef: leaves out the refusal to redefine a library function, as those are left out.
- Parser.Parser.ProgramStart: lines that start with `import` are left out, as they read another file; so does Programs.RunLine.
- Denotation.StackEvaluation: expressions with calls are left to the semantics, as calls have effects.
- CryptHashes.RegistryIsLog: bounds the bytes of a run by 2 to the 64, beyond which the Whirlpool length field is provably wrong.
- Printer.ParsingUndoesPrinting: number, text and octet literals are tokens here; that no pair of parentheses could be left out is not claimed.
