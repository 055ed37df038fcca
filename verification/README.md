# A verified model of a small Thompson-NFA regular-expression engine

This project models `src/regex.cpp`, a small sequential regular-expression
engine built in three stages, and proves properties of each stage.

1. **Parser.** A recursive-descent parser walks a cursor over the pattern.
   It appends the nodes of the parse tree to an append-only arena, so the
   operands of a node always come before the node itself. It also sets the
   two anchor flags, `^` (begin) and `$` (end). The grammar, from loosest to
   tightest binding:
   - alternation `|`;
   - concatenation;
   - one postfix quantifier `?`, `*` or `+`;
   - a unit: a letter, digit or `_`, or a parenthesised group.
2. **Compiler.** Thompson's construction. The compiler walks the tree
   recursively:
   - Each node appends exactly two states, its entry and its exit.
   - It wires empty (epsilon, symbol -1) or symbol transitions between them
     and its operands.
   - It pushes the pair (entry, exit) on a stack.
   - For an unanchored pattern, a scan state is added. It loops on every
     byte and moves to the root's entry, so a match may start anywhere.
   - A single accepting state closes the automaton. It is reached from the
     root's exit by an empty transition, or on the terminator 0 when the
     pattern is anchored at the end.
3. **Engine.** A frontier simulation with two frontiers of state indices.
   Each step:
   - expands the current frontier in place with the targets of its empty
     transitions;
   - collects the targets on the symbol under the cursor into the other
     frontier, stamping each collected state with the step counter so that
     it is collected once.

   The run stops when the current frontier holds an accepting state or the
   next frontier is empty.

## Modules

**Syntax** (`syntax.dfy`): the node datatype. It also defines the
predicates `Postorder` (operands come first) and `Spans` (a range of the
arena is exactly one tree rooted at its last node).

**Parsing** (`parser.dfy`):
- Pure reference functions (`Group`, `Unit`, `Quantified`, `Concatenation`,
  `Alternation`, `Body`, `ParsePattern`). Each returns the success flag, the
  new cursor and the new arena, exactly as the C++ member of the same level
  leaves them.
- The classes `ParseTree` and `Parser`. Each parser method is proved to
  have the effect of its reference function.
- The reference functions take a flag, `rejectPartial`. It selects the
  corrected concatenation loop described under Findings. The class uses the
  loop as written.

**Automaton** (`automaton.dfy`):
- Transitions and states, as values.
- `State::find` and `State::get`.
- The class `NFA`: the state arena, the per-state stamps and the start
  state.

**Compiler** (`compiler.dfy`):
- `Thompson(nodes, i, base)` is the block of states that emitting node `i`
  appends. `Compiled` is the whole result of `compile_tree`.
- The class `NFACompiler` (`EmitNode`, `CompileTree`) builds exactly those
  states in an `NFA`, with the stack of (entry, exit) pairs.

**Engine** (`engine.dfy`):
- A set-based reference semantics:
  - `Closure`: the states reachable by empty transitions, as the least
    closed superset;
  - `Move`: the targets on one symbol;
  - `Run`: the verdict of the whole loop.
- The class `NFAEngine` (`Accepting`, `Step`, `Execute`). `Execute` is
  proved to return `Run` of the automaton and the text, whatever state an
  earlier run left behind.

**Search** (`search.dfy`): what the scan state does during a run, for both
readings of a byte: plain `char` signed or unsigned.

## Model

| member | source | states |
|---|---|---|
| Parsing.ParseTree.constructor | src/regex.cpp:26-34 | a new tree has no flags set and no nodes |
| Parsing.Parser.constructor | src/regex.cpp:41-42 | the parser starts at the first character of the pattern, writing into the given tree |
| Parsing.Group | src/regex.cpp:158-168 | the cursor never moves back and the arena only grows; a group that fails without consuming leaves the arena untouched; a successful group consumes input and appends nodes |
| Parsing.Unit | src/regex.cpp:142-156 | as for `Group`; in addition, the unit fails without consuming input exactly when the character under the cursor is neither a word character nor `(` |
| Parsing.UnitShape | src/regex.cpp:142-156 | a successful unit either consumes exactly one character, which is a word character, and appends one atom holding it; or it consumes a group of at least two characters that starts with `(` and ends with `)` |
| Parsing.Quantified | src/regex.cpp:105-140 | as for `Unit`: it fails without consuming exactly when no unit can start at the cursor |
| Parsing.QuantifierShape | src/regex.cpp:105-140 | a successful quantified unit is a successful unit; when it ends with `?`, `*` or `+`, that character is the one right after the unit, exactly one node is added after the unit's nodes, and it is `Opt`, `Star` or `Plus` respectively, wrapping the unit's last node; otherwise the result is the unit's own and the character after it is not a quantifier, so a quantifier right after a unit is always consumed, and at most one is |
| Parsing.ConcatLoop | src/regex.cpp:91-100 | the cursor never moves back, the arena only grows, and a failure without consuming leaves the arena untouched |
| Parsing.Concatenation | src/regex.cpp:87-103 | as for `Group`: success consumes input and appends nodes; a failure without consuming leaves the arena untouched |
| Parsing.AltLoop | src/regex.cpp:71-82 | the cursor never moves back, the arena only grows, and a failure without consuming leaves the arena untouched |
| Parsing.Alternation | src/regex.cpp:67-85 | as for `Concatenation` |
| Parsing.Body | src/regex.cpp:50-60 | the cursor stays within the pattern; the arena only grows; the top-level loop leaves the begin anchor as it found it |
| Parsing.ParsePattern | src/regex.cpp:44-61 | the begin anchor is set exactly when the pattern starts with `^` |
| Parsing.BodyAnchors | src/regex.cpp:50-60 | the end anchor is set only by a successful parse that stopped right after a `$`; a successful parse without it stopped at the terminator |
| Parsing.ParseAnchors | src/regex.cpp:44-61 | for the whole pattern: the begin anchor is set exactly for a leading `^`; the end anchor means the parse succeeded and stopped right after a top-level `$`; otherwise a successful parse reached the terminator |
| Parsing.GroupFragment | src/regex.cpp:158-168 | every node a group appends refers only to nodes appended after the given point and before itself |
| Parsing.UnitFragment | src/regex.cpp:142-156 | the same for a unit |
| Parsing.QuantifiedFragment | src/regex.cpp:105-140 | the same for a quantified unit: the quantifier node wraps the node just appended |
| Parsing.ConcatLoopFragment | src/regex.cpp:91-100 | the same for the concatenation loop |
| Parsing.ConcatenationFragment | src/regex.cpp:87-103 | the same for a concatenation |
| Parsing.AltLoopFragment | src/regex.cpp:71-82 | the same for the alternation loop |
| Parsing.AlternationFragment | src/regex.cpp:67-85 | the same for an alternation |
| Parsing.BodyPostorder | src/regex.cpp:50-58 | the top-level loop keeps the arena in postorder |
| Parsing.GroupAgree | src/regex.cpp:158-168 | a group reads the pattern only up to where it stops: any pattern that agrees with it up to there parses alike |
| Parsing.UnitAgree | src/regex.cpp:142-156 | the same for a unit |
| Parsing.QuantifiedAgree | src/regex.cpp:105-140 | the same for a quantified unit |
| Parsing.ConcatLoopAgree | src/regex.cpp:91-100 | the same for the concatenation loop |
| Parsing.ConcatenationAgree | src/regex.cpp:87-103 | the same for a concatenation |
| Parsing.AltLoopAgree | src/regex.cpp:71-82 | the same for the alternation loop |
| Parsing.AltRoundAgree | src/regex.cpp:72-81 | the same for one round of the alternation loop, which starts with the alternation bar |
| Parsing.AlternationAgree | src/regex.cpp:67-85 | the same for an alternation |
| Parsing.BodyAgree | src/regex.cpp:50-58 | a top-level loop that ends at a `$` reads the pattern only up to that `$` |
| Parsing.EndAnchorIgnoresRest | src/regex.cpp:50-58 | once a top-level `$` ends the parse, any text may follow it: the parse, the arena and both anchors come out the same |
| Parsing.ParsePostorder | src/regex.cpp:44-61 | every node of a parsed pattern refers only to nodes with smaller indices, whether or not the parse succeeds |
| Parsing.GroupSpans | src/regex.cpp:158-168 | corrected parser: a successful group appends exactly one tree, rooted at its last node |
| Parsing.UnitSpans | src/regex.cpp:142-156 | corrected parser: the same for a unit |
| Parsing.QuantifiedSpans | src/regex.cpp:105-140 | corrected parser: the same for a quantified unit |
| Parsing.ConcatLoopSpans | src/regex.cpp:91-100 | corrected parser: the concatenation loop keeps the appended nodes one tree, and it stops at a character that cannot start a unit |
| Parsing.ConcatenationSpans | src/regex.cpp:87-103 | corrected parser: a successful concatenation appends one tree and stops where no unit can start |
| Parsing.AltLoopSpans | src/regex.cpp:71-82 | corrected parser: the alternation loop keeps the appended nodes one tree and stops at a character that is neither a unit start nor `|` |
| Parsing.AlternationSpans | src/regex.cpp:67-85 | corrected parser: a successful alternation appends one tree and stops at a character that is neither a unit start nor `|` |
| Parsing.BodySpans | src/regex.cpp:50-58 | corrected parser: the top-level loop calls `parse` at most once with success, so the arena is empty or one tree |
| Parsing.StrictParseSpans | src/regex.cpp:44-61 | corrected parser: a successfully parsed pattern with any node is exactly one tree whose root is the last node, which is the node the compiler starts from |
| Parsing.UnclosedGroupAccepted | src/regex.cpp:91 | as written, "a(b" parses successfully to the arena [a, b], which is not one tree; the corrected parser rejects it |
| Parsing.Parser.BuildParseTree | src/regex.cpp:44-61 | the cursor, the arena and both flags end as the reference `Body` after an optional `^` says; on a fresh parser and tree, the result is `ParsePattern` |
| Parsing.Parser.Parse | src/regex.cpp:63-65 | the success flag, cursor and arena are those of the reference `Alternation` |
| Parsing.Parser.ParseAlternation | src/regex.cpp:67-85 | the success flag, cursor and arena are those of the reference `Alternation` |
| Parsing.Parser.ParseAlternatives | src/regex.cpp:71-82 | the loop over `|` alternatives: the success flag, cursor and arena are those of the reference `AltLoop` from the first operand's root |
| Parsing.Parser.ParseConcatenation | src/regex.cpp:87-103 | the success flag, cursor and arena are those of the reference `Concatenation` |
| Parsing.Parser.ParseFactors | src/regex.cpp:91-100 | the loop over further factors: the success flag, cursor and arena are those of the reference `ConcatLoop` from the first factor's root |
| Parsing.Parser.ParseQuantifier | src/regex.cpp:105-140 | the success flag, cursor and arena are those of the reference `Quantified` |
| Parsing.Parser.ParseUnit | src/regex.cpp:142-156 | the success flag, cursor and arena are those of the reference `Unit` |
| Parsing.Parser.ParseGroup | src/regex.cpp:158-168 | the success flag, cursor and arena are those of the reference `Group` |
| Automaton.Find | src/regex.cpp:196-202 | none is found exactly when no transition has the symbol; otherwise the result is the first transition that has it |
| Automaton.Get | src/regex.cpp:186-194 | the result is a transition on the symbol; the list grows by one fresh, empty transition exactly when none had the symbol, and is unchanged otherwise; no symbol is ever duplicated |
| Automaton.FindBySymbols | src/regex.cpp:196-202 | `find` depends only on the symbols of the list, not on the targets |
| Automaton.FindAppendOther | src/regex.cpp:191-193 | appending a transition on another symbol does not change what `find` returns |
| Automaton.AddTarget | src/regex.cpp:186-194 | `get(sym)` followed by `push_back(target)` appends the target to the state's targets on that symbol, leaves every other symbol's targets and the accepting flag alone, and keeps the symbols unique |
| Automaton.AddTargetIn | src/regex.cpp:186-194 | adding a target inside a range keeps all of the state's targets inside that range |
| Automaton.NFA.constructor | src/regex.cpp:209-210 | a new automaton has no states |
| Automaton.NFA.AddState | src/regex.cpp:306-307 | `states.emplace_back()` appends one fresh state, with its stamp 0, at index `size()` |
| Automaton.NFA.AddEdge | src/regex.cpp:309-311 | only the source state changes, exactly as `AddTarget` says |
| Compiler.Thompson | src/regex.cpp:292-439 | emitting a node appends at least its own entry and exit, and the last state appended (the node's exit) is still fresh, with no transition |
| Compiler.ThompsonSize | src/regex.cpp:292-439 | emitting a node appends exactly two states per node of its subtree, one pair per `emit_node` call |
| Compiler.ThompsonSound | src/regex.cpp:292-439 | every state of a node's block is non-accepting, has at most one transition per symbol, and targets only states of the same block |
| Compiler.AtomEdges | src/regex.cpp:424-437 | an atom's block is an entry whose only transition is on its character, to its exit, and a fresh exit |
| Compiler.AltEdges | src/regex.cpp:294-323 | an alternation's entry has one empty transition to the left and right entries, in that order; both operand exits go to the node's exit; the rest of the operand blocks is unchanged |
| Compiler.CatEdges | src/regex.cpp:325-353 | a concatenation's entry goes to the left entry, the left exit to the right entry and the right exit to the node's exit; the rest of the operand blocks is unchanged |
| Compiler.UnaryEdges | src/regex.cpp:355-422 | the empty transitions of one-or-more, zero-or-more and optional nodes, as `emit_node` wires them, with their targets in order |
| Compiler.ScanState | src/regex.cpp:253-268 | the scan state is not accepting and has 257 transitions, one per byte value and a last one on the empty symbol; each targets only the scan state itself or the root's entry |
| Compiler.ScanTargets | src/regex.cpp:262-268 | the scan state has one self-loop for each symbol 0..255, one empty transition to the root's entry, nothing on any other symbol, and no duplicated symbol |
| Compiler.Compiled | src/regex.cpp:241-286 | `compile_tree` appends at least three states, the last of which is the accepting state with no transitions; the start state is one of the appended states other than the accepting one |
| Compiler.CompiledAccepting | src/regex.cpp:275-277 | `compile_tree` appends the root's block, the scan state when unanchored, and the accepting state; the accepting state is the last state and the only accepting one |
| Compiler.CompiledStart | src/regex.cpp:253-273 | the start is the root's entry when anchored at the beginning; otherwise it is the scan state, appended right after the root's block |
| Compiler.CompiledExit | src/regex.cpp:279-285 | the root's exit has exactly one transition to the accepting state: on symbol 0 when anchored at the end, an empty one otherwise; the rest of the root's block is unchanged |
| Compiler.CompiledWellFormed | src/regex.cpp:241-286 | in a fresh automaton every transition targets an existing state, no state has two transitions on one symbol, and the start state exists |
| Compiler.NFACompiler.constructor | src/regex.cpp:232-239 | a new compiler has an empty stack |
| Compiler.NFACompiler.EmitNode | src/regex.cpp:292-439 | appends exactly the node's block; the stack grows by exactly one entry, the new node's entry and exit (the two states just appended); the start state is untouched; the old stamps are kept and each new state's stamp is 0 |
| Compiler.NFACompiler.EmitBinary | src/regex.cpp:294-353 | the same for an alternation or concatenation node |
| Compiler.NFACompiler.WrapBinary | src/regex.cpp:304-353 | after both operands are emitted, the node's entry and exit are appended and wired as an alternation or a concatenation block; the start state is untouched; old stamps are kept and new ones are 0 |
| Compiler.NFACompiler.WrapUnary | src/regex.cpp:361-422 | after the operand is emitted, the node's entry and exit are appended and wired as the quantifier's block; the start state is untouched; old stamps are kept and new ones are 0 |
| Compiler.NFACompiler.EmitUnary | src/regex.cpp:355-422 | the same for a quantifier node |
| Compiler.NFACompiler.AddScanState | src/regex.cpp:253-268 | appends exactly the scan state for the given root entry; old stamps are kept and the new one is 0 |
| Compiler.NFACompiler.CompileTree | src/regex.cpp:241-286 | the automaton gains exactly the states of `Compiled`, its start state is the one `Compiled` chooses, and the stack ends as it started; old stamps are kept and every new state's stamp is 0 |
| Engine.Symbol | src/regex.cpp:504 | the symbol under the cursor: 0 at the terminator; the byte itself when it is below 0x80 or `char` is unsigned; the byte minus 256, a negative value, when `char` is signed |
| Engine.Edges | src/regex.cpp:498-504 | the adjacency list on one symbol holds, for every state, exactly its targets on that symbol |
| Engine.Move | src/regex.cpp:504-516 | the targets of a frontier on one symbol; in a well-formed graph they are existing states |
| Engine.Closure | src/regex.cpp:492-502 | the expansion of a frontier contains the frontier; `ClosureClosed` and `ClosureLeast` characterise it as the set of states reachable by empty transitions |
| Engine.Iterate | src/regex.cpp:492-502 | the rounds of expansion never lose a state |
| Engine.ClosureClosed | src/regex.cpp:492-502 | the expanded frontier has no empty transition leaving it |
| Engine.ClosureLeast | src/regex.cpp:492-502 | every set that contains the frontier and has no empty transition leaving it contains the expansion, which is therefore the set of states reachable by empty transitions |
| Engine.ClosureIdempotent | src/regex.cpp:492-502 | expanding an expanded frontier changes nothing |
| Engine.ClosureWithin | src/regex.cpp:492-502 | expanding a frontier of existing states yields existing states |
| Engine.EdgesWellFormed | src/regex.cpp:498-510 | in a well-formed automaton every edge ends at an existing state |
| Engine.Run | src/regex.cpp:466-476 | the verdict of the loop of `execute`: `Accept` only when the automaton has an accepting state; never `PastEnd` when the next frontier is empty. `PastEnd` arises only after the step with the cursor past the terminator, when the expansion of the next frontier does not accept |
| Engine.RunUnfold | src/regex.cpp:470-474 | when the frontier does not accept and the next one is not empty, one round of the loop leads to the run on the expanded frontier and its targets on the current symbol |
| Engine.ExpandDecreases | src/regex.cpp:492-502 | appending a state's empty-transition targets and moving past it decreases the work left, when the empty transitions have no cycle |
| Engine.NFAEngine.constructor | src/regex.cpp:442-447 | a new engine has a zero counter, empty frontiers and its cursor at the start |
| Engine.NFAEngine.Accepting | src/regex.cpp:479-487 | true exactly when the current frontier holds an accepting state |
| Engine.NFAEngine.PushFutures | src/regex.cpp:509-516 | the targets are pushed, each state at most once per step; the states pushed are exactly the ones now stamped with the counter; no other stamp changes |
| Engine.NFAEngine.Visit | src/regex.cpp:493-517 | one round of the walk appends the state's empty-transition targets to the current frontier and, when a symbol is given, pushes its targets on it; without one, the next frontier and the stamps are unchanged |
| Engine.NFAEngine.Step | src/regex.cpp:489-521 | the counter and cursor advance by one; the current frontier grows to hold exactly its closure under empty transitions; the states pushed are exactly the targets of that closure on the symbol under the cursor, with no state pushed twice, and they are exactly the states stamped with the new counter |
| Engine.NFAEngine.Walk | src/regex.cpp:492-518 | the current frontier ends as its closure under empty transitions, keeping its old entries as a prefix; when a symbol is given, the states pushed onto the next frontier are exactly the targets of that closure on it, and without one nothing is pushed; stamps never exceed the counter |
| Engine.NFAEngine.Reset | src/regex.cpp:450-461 | the counter is 0, both frontiers are empty and every stamp is 0 |
| Engine.NFAEngine.Loop | src/regex.cpp:468-476 | the verdict of the loop is `Run` of the frontiers and cursor it starts from |
| Engine.NFAEngine.Overrun | src/regex.cpp:470-474 | the round with the cursor past the terminator: the verdict is `Accept` exactly when the expansion of the next frontier holds an accepting state, `PastEnd` otherwise |
| Engine.NFAEngine.Advance | src/regex.cpp:470-474 | swapping the frontiers, clearing the new next frontier and stepping moves the cursor by one and leaves `Run` of the state unchanged |
| Engine.NFAEngine.Execute | src/regex.cpp:449-477 | the verdict is `Run` of the automaton and the text, started from the start state; it depends on nothing an earlier run left behind (counter, frontiers, stamps) |
| Search.ScanAlive | src/regex.cpp:262-268 | with bytes read as unsigned, a run whose next frontier holds the scan state never rejects |
| Search.UnsignedSearchNeverRejects | src/regex.cpp:253-268 | with bytes read as unsigned, an unanchored compiled pattern never rejects a text: it accepts, or it steps past the terminator without accepting (`PastEnd`) |
| Search.SearchACompiled | src/regex.cpp:241-286 | the pattern `a`, unanchored, compiles to its entry, exit, scan state and accepting state |
| Search.SignedHighByteRejects | src/regex.cpp:504 | as written with signed `char`: the pattern `a` rejects the text 0xC3 0x61, although the text contains `a` |
| Search.UnsignedHighByteAccepts | src/regex.cpp:504 | with the byte read as unsigned: the same search accepts |
| Search.AnchoredACompiled | src/regex.cpp:241-286 | the pattern `^a$` compiles to its entry, its exit wired on symbol 0 to the accepting state, and the accepting state |
| Search.EndAnchoredAccepts | src/regex.cpp:466-476 | the pattern `^a$` accepts the text "a", with either reading of `char`: the accepting state, reached on the terminator, is accepted after the step past it |

## Left out

- `main` and `debug_print_states`. The first is a hard-coded driver; the
  second only prints.
- The global `g_id` counter. It never takes part in indexing; states are
  referred to by their position in the arena.
- The `reserve` calls. They are performance hints only.
- Integer widths. Node indices, state indices and the step counter are
  unbounded. The 32-bit wrap of `counter` would need more than 2^32 steps
  of a single run.
- Pointers and aliasing:
  - The frontier buffers `a` and `b` and the pointers that swap them are
    two sequences that the model exchanges.
  - `last_exec` is kept beside the states, in `NFA.lastExec`.
  - The parser's `nodes` reference is the tree's own `nodes` field.
- The text. It is a sequence of bytes without a zero byte, read as a C
  string whose terminator is at its length.
- Epsilon cycles. The empty-transition graph has cycles for nested
  nullable loops such as `(a*)*` or `(a?)+`, and on those the in-place
  expansion of `step` never ends.
- Engine.NFAEngine.Step: requires a numbering of the states under which
  every empty transition goes to a higher number, that is, no cycle of
  empty transitions. The behaviour on such cycles (it never ends)
  is not modelled.
- Engine.NFAEngine.Execute: requires the same acyclicity witness as
  `Step`. The step with the cursor past the terminator is modelled without
  its pushes, which depend on the byte after the terminator; its expansion
  and the `accepting()` check that follows are modelled. When that check
  fails, the source goes on reading memory beyond the string, and the
  model stops with `PastEnd`. That happens, for example, for an unanchored
  pattern with no match, because the scan state also loops on symbol 0.
- Compiler.NFACompiler.CompileTree: requires a non-empty tree. On an empty
  tree (the patterns "", "^" and "^$") the source computes the root index
  as `size() - 1` and underflows.
- Compiler.NFACompiler.EmitNode: requires the arena in postorder, which
  `Parsing.ParsePostorder` proves for every parsed pattern.
- Language equivalence. The model proves the shape of the automaton and
  that the engine computes the reference `Run`. It does not prove that the
  automaton accepts exactly the language the pattern denotes.

## Findings

| source | as written | input that shows it | evidently intended | confidence | as-written member | corrected member |
|---|---|---|---|---|---|---|
| src/regex.cpp:91 | a unit that fails after consuming input (an unclosed group) merely ends the concatenation; the cursor is not rewound and the group's nodes stay in the arena | the pattern "a(b" is accepted with the arena [a, b]; the compiler takes the last node, the atom `b`, as the root, so `a` is silently dropped | the parse fails, so that a successful parse leaves exactly one tree rooted at the last node | high; not executed | Parsing.UnclosedGroupAccepted | Parsing.StrictParseSpans |
| src/regex.cpp:504 | `find(*ptr)` looks up a plain `char`; where `char` is signed, as on x86-64, the bytes 0x80 to 0xFF become -128 to -1 and match none of the scan state's self-loops on 0..255 (0xFF even matches the empty transition, -1) | the unanchored pattern `a` on the text 0xC3 0x61: after 0xC3 the frontier is empty and the run rejects, although the text contains `a` | the byte is read as `unsigned char`, so the scan state survives every byte and a match may start at any position | high; not executed | Search.SignedHighByteRejects | Search.UnsignedSearchNeverRejects |
