/**
 * What the scan state of an unanchored pattern does during a run, for both
 * readings of a text byte (plain `char` signed or unsigned).
 */
module Search {
  import opened Syntax
  import opened Wrappers
  import opened Automaton
  import opened Compiler
  import opened Engine

  /**
   * With bytes read as unsigned, a frontier holding the scan state keeps it
   * on every symbol, so the run never gives up: it accepts, or it steps
   * past the terminator without accepting (`PastEnd`).
   */
  lemma {:induction false} ScanAlive(states: seq<State>, scan: nat, entry: nat, text: seq<byte>,
                                     cur: set<nat>, next: set<nat>, pos: nat)
    requires scan < |states| && states[scan] == ScanState(scan, entry) && scan in next
    ensures Run(states, false, text, cur, next, pos) != Reject
    decreases |text| + 1 - pos
  {
    if !AnyAccepting(states, cur) && pos <= |text| {
      var c := Closure(Edges(states, Epsilon), next);
      var sym := Symbol(false, text, pos);
      ScanTargets(scan, entry);
      assert Edges(states, sym)[scan] == [scan];
      assert scan in c && scan < |Edges(states, sym)| && scan in Edges(states, sym)[scan];
      ScanAlive(states, scan, entry, text, c, Move(Edges(states, sym), c), pos + 1);
    }
  }

  /**
   * With bytes read as unsigned, an unanchored search never rejects: the
   * scan state lets a match start at every position of the text.
   */
  lemma UnsignedSearchNeverRejects(nodes: seq<Node>, endAnchored: bool, text: seq<byte>)
    requires Postorder(nodes) && |nodes| > 0
    ensures var m := Compiled(nodes, false, endAnchored, 0);
      Run(m.states, false, text, {}, {m.start}, 0) != Reject
  {
    var m := Compiled(nodes, false, endAnchored, 0);
    var n := |Thompson(nodes, |nodes| - 1, 0)|;
    CompiledStart(nodes, false, endAnchored, 0);
    CompiledWellFormed(nodes, false, endAnchored);
    ScanAlive(m.states, m.start, n - 2, text, {}, {m.start}, 0);
  }

  // ---------------------------------------------------------------------
  // The pattern `a` searched in the two bytes 0xC3 0x61 ("Ã" then "a" in
  // Latin-1)
  // ---------------------------------------------------------------------

  /** The unanchored automaton of the pattern `a`: entry 0, exit 1, scan state 2, accepting state 3. */
  function SearchA(): seq<State> {
    [Edge('a' as int, [1]), Edge(Epsilon, [3]), ScanState(2, 0), State(true, [])]
  }

  lemma SearchACompiled()
    ensures Postorder([Atom('a')])
    ensures Compiled([Atom('a')], false, false, 0) == Machine(SearchA(), 2)
  {
    assert Postorder([Atom('a')]);
    assert Thompson([Atom('a')], 0, 0) == [Edge('a' as int, [1]), Blank];
  }

  /** The edges of `SearchA` on the symbols the two runs read. */
  lemma SearchAEdges()
    ensures Edges(SearchA(), Epsilon) == [[], [3], [0], []]
    ensures Edges(SearchA(), 0xC3 - 0x100) == [[], [], [], []]
    ensures Edges(SearchA(), 0xC3) == [[], [], [2], []]
    ensures Edges(SearchA(), 'a' as int) == [[1], [], [2], []]
    ensures Edges(SearchA(), 0) == [[], [], [2], []]
  {
    ScanTargets(2, 0);
    var t0 := [Transition('a' as int, [1])];
    var t1 := [Transition(Epsilon, [3])];
    assert Find(t0, 'a' as int) == Some(0);
    assert Find(t1, Epsilon) == Some(0);
    forall sym | sym != 'a' as int ensures TargetsOf(t0, sym) == [] {
      assert Find(t0[1..], sym) == None;
    }
    forall sym | sym != Epsilon ensures TargetsOf(t1, sym) == [] {
      assert Find(t1[1..], sym) == None;
    }
    assert Find([], 0xC3) == None;
  }

  lemma MovePair(g: seq<seq<nat>>, a: nat, b: nat)
    requires a < |g| && b < |g|
    ensures Move(g, {a, b}) == Elems(g[a]) + Elems(g[b])
  {
    assert {a, b} == {} + {a} + {b};
    MoveAddOne(g, {}, a);
    MoveAddOne(g, {a}, b);
  }

  /** From the scan state alone, empty transitions reach the pattern's entry. */
  lemma ClosureFromScan()
    ensures Closure(Edges(SearchA(), Epsilon), {2}) == {0, 2}
  {
    SearchAEdges();
    ClosureFromScanIn(Edges(SearchA(), Epsilon));
  }

  lemma ClosureFromScanIn(g: seq<seq<nat>>)
    requires g == [[], [3], [0], []]
    ensures Closure(g, {2}) == {0, 2}
  {
    MovePair(g, 0, 2);
    assert Elems([0]) == {0} && Elems([]) == {};
    ClosureLeast(g, {2}, {0, 2});
    ClosureClosed(g, {2});
    MoveAddOne(g, {}, 2);
    MoveMonotone(g, {2}, Closure(g, {2}));
  }

  /** From the scan state and the pattern's exit, they reach every state. */
  lemma ClosureFromExit()
    ensures Closure(Edges(SearchA(), Epsilon), {1, 2}) == {0, 1, 2, 3}
  {
    SearchAEdges();
    ClosureFromExitIn(Edges(SearchA(), Epsilon));
  }

  lemma ClosureFromExitIn(g: seq<seq<nat>>)
    requires g == [[], [3], [0], []]
    ensures Closure(g, {1, 2}) == {0, 1, 2, 3}
  {
    var X := {0, 1, 2, 3};
    MoveEverything(g);
    ClosureLeast(g, {1, 2}, X);
    ClosureClosed(g, {1, 2});
    MovePair(g, 1, 2);
    assert Elems([0]) == {0} && Elems([3]) == {3};
    MoveMonotone(g, {1, 2}, Closure(g, {1, 2}));
  }

  /** The empty transitions of `SearchA` lead from all its states to the entry and the accepting state. */
  lemma MoveEverything(g: seq<seq<nat>>)
    requires g == [[], [3], [0], []]
    ensures Move(g, {0, 1, 2, 3}) == {0, 3}
  {
    assert Elems(g[0]) == {} && Elems(g[1]) == {3} && Elems(g[2]) == {0} && Elems(g[3]) == {};
    MovePair(g, 0, 1);
    MovePair(g, 2, 3);
    assert {0, 1, 2, 3} == {0, 1} + {2, 3};
    forall t ensures t in Move(g, {0, 1, 2, 3}) <==> t in Move(g, {0, 1}) + Move(g, {2, 3}) {
    }
  }

  /**
   * As written, with `char` signed: the byte 0xC3 reads as -61, on which the
   * scan state has no transition, so the frontier empties and the run
   * rejects although the text contains `a`.
   */
  lemma SignedHighByteRejects()
    ensures var m := Compiled([Atom('a')], false, false, 0);
      Run(m.states, true, [0xC3, 0x61], {}, {m.start}, 0) == Reject
  {
    SearchACompiled();
    SearchAEdges();
    ClosureFromScan();
    var text: seq<byte> := [0xC3, 0x61];
    assert Symbol(true, text, 0) == 0xC3 - 0x100;
    RunUnfold(SearchA(), true, text, {}, {2}, 0);
    MovePair(Edges(SearchA(), 0xC3 - 0x100), 0, 2);
    assert Elems([]) == {};
    assert !AnyAccepting(SearchA(), {0, 2});
  }

  /**
   * With `char` read as unsigned: the scan state survives 0xC3, the pattern
   * consumes `a`, and at the terminator the accepting state is reached.
   */
  lemma UnsignedHighByteAccepts()
    ensures var m := Compiled([Atom('a')], false, false, 0);
      Run(m.states, false, [0xC3, 0x61], {}, {m.start}, 0) == Accept
  {
    SearchACompiled();
    UnsignedFirstByte(SearchA(), [0xC3, 0x61]);
    UnsignedSecondByte(SearchA(), [0xC3, 0x61]);
    UnsignedTerminator(SearchA(), [0xC3, 0x61]);
  }

  lemma UnsignedFirstByte(states: seq<State>, text: seq<byte>)
    requires states == SearchA() && text == [0xC3, 0x61]
    ensures Run(states, false, text, {}, {2}, 0) == Run(states, false, text, {0, 2}, {2}, 1)
  {
    SearchAEdges();
    ClosureFromScan();
    var c := Closure(Edges(states, Epsilon), {2});
    assert c == {0, 2};
    var g := Edges(states, Symbol(false, text, 0));
    assert g == [[], [], [2], []];
    MovePair(g, 0, 2);
    assert Elems(g[0]) == {} && Elems(g[2]) == {2};
    assert Move(g, c) == {2};
    RunUnfold(states, false, text, {}, {2}, 0);
  }

  lemma UnsignedSecondByte(states: seq<State>, text: seq<byte>)
    requires states == SearchA() && text == [0xC3, 0x61]
    ensures Run(states, false, text, {0, 2}, {2}, 1) == Run(states, false, text, {0, 2}, {1, 2}, 2)
  {
    SearchAEdges();
    ClosureFromScan();
    var c := Closure(Edges(states, Epsilon), {2});
    assert c == {0, 2};
    var g := Edges(states, Symbol(false, text, 1));
    assert g == [[1], [], [2], []];
    MovePair(g, 0, 2);
    assert Elems(g[0]) == {1} && Elems(g[2]) == {2};
    assert Move(g, c) == {1, 2};
    assert !AnyAccepting(states, {0, 2});
    RunUnfold(states, false, text, {0, 2}, {2}, 1);
  }

  lemma UnsignedTerminator(states: seq<State>, text: seq<byte>)
    requires states == SearchA() && text == [0xC3, 0x61]
    ensures Run(states, false, text, {0, 2}, {1, 2}, 2) == Accept
  {
    ClosureFromExit();
    assert !AnyAccepting(states, {0, 2});
    RunUnfold(states, false, text, {0, 2}, {1, 2}, 2);
    var c := {0, 1, 2, 3};
    var next := Move(Edges(states, Symbol(false, text, 2)), c);
    assert AnyAccepting(states, c) by {
      assert 3 in c && states[3].accepting;
    }
    assert Run(states, false, text, c, next, 3) == Accept;
  }

  // ---------------------------------------------------------------------
  // The pattern `^a$` on the text "a": the accepting state is reached only
  // by the expansion after the step past the terminator
  // ---------------------------------------------------------------------

  /** The anchored automaton of `^a$`: entry 0, exit 1 wired on symbol 0 to the accepting state 2. */
  function AnchoredA(): seq<State> {
    [Edge('a' as int, [1]), Edge(0, [2]), State(true, [])]
  }

  lemma AnchoredACompiled()
    ensures Postorder([Atom('a')])
    ensures Compiled([Atom('a')], true, true, 0) == Machine(AnchoredA(), 0)
  {
    assert Postorder([Atom('a')]);
    assert Thompson([Atom('a')], 0, 0) == [Edge('a' as int, [1]), Blank];
  }

  /** The edges of `AnchoredA` on the symbols the run reads. */
  lemma AnchoredAEdges()
    ensures Edges(AnchoredA(), Epsilon) == [[], [], []]
    ensures Edges(AnchoredA(), 'a' as int) == [[1], [], []]
    ensures Edges(AnchoredA(), 0) == [[], [2], []]
  {
    var t0 := [Transition('a' as int, [1])];
    var t1 := [Transition(0, [2])];
    assert Find(t0, 'a' as int) == Some(0);
    assert Find(t1, 0) == Some(0);
    forall sym | sym != 'a' as int ensures TargetsOf(t0, sym) == [] {
      assert Find(t0[1..], sym) == None;
    }
    forall sym | sym != 0 ensures TargetsOf(t1, sym) == [] {
      assert Find(t1[1..], sym) == None;
    }
  }

  /** Without edges, the closure adds nothing. */
  lemma ClosureNoEdges(g: seq<seq<nat>>, S: set<nat>)
    requires forall s | 0 <= s < |g| :: g[s] == []
    ensures Closure(g, S) == S
  {
    assert Move(g, S) == {};
    ClosureLeast(g, S, S);
  }

  /** A one-state frontier moves to the targets of that state. */
  lemma MoveOne(g: seq<seq<nat>>, s: nat)
    requires s < |g|
    ensures Move(g, {s}) == Elems(g[s])
  {
    assert {s} == {} + {s};
    MoveAddOne(g, {}, s);
  }

  /**
   * The run of `^a$` on "a" accepts, with either reading of `char`: it
   * consumes `a`, moves from the exit on the terminator's symbol 0 to the
   * accepting state, and accepts once the cursor is past the terminator.
   */
  lemma EndAnchoredAccepts(signedChar: bool)
    ensures var m := Compiled([Atom('a')], true, true, 0);
      Run(m.states, signedChar, [0x61], {}, {m.start}, 0) == Accept
  {
    AnchoredACompiled();
    AnchoredAByte(AnchoredA(), signedChar, [0x61]);
    AnchoredATerminator(AnchoredA(), signedChar, [0x61]);
    AnchoredAPastEnd(AnchoredA(), signedChar, [0x61]);
  }

  lemma AnchoredAByte(states: seq<State>, signedChar: bool, text: seq<byte>)
    requires states == AnchoredA() && text == [0x61]
    ensures Run(states, signedChar, text, {}, {0}, 0) == Run(states, signedChar, text, {0}, {1}, 1)
  {
    AnchoredAEdges();
    ClosureNoEdges(Edges(states, Epsilon), {0});
    var g := Edges(states, Symbol(signedChar, text, 0));
    assert g == [[1], [], []];
    MoveOne(g, 0);
    assert Elems(g[0]) == {1};
    RunUnfold(states, signedChar, text, {}, {0}, 0);
  }

  lemma AnchoredATerminator(states: seq<State>, signedChar: bool, text: seq<byte>)
    requires states == AnchoredA() && text == [0x61]
    ensures Run(states, signedChar, text, {0}, {1}, 1) == Run(states, signedChar, text, {1}, {2}, 2)
  {
    AnchoredAEdges();
    ClosureNoEdges(Edges(states, Epsilon), {1});
    var g := Edges(states, Symbol(signedChar, text, 1));
    assert g == [[], [2], []];
    MoveOne(g, 1);
    assert Elems(g[1]) == {2};
    assert !AnyAccepting(states, {0});
    RunUnfold(states, signedChar, text, {0}, {1}, 1);
  }

  lemma AnchoredAPastEnd(states: seq<State>, signedChar: bool, text: seq<byte>)
    requires states == AnchoredA() && text == [0x61]
    ensures Run(states, signedChar, text, {1}, {2}, 2) == Accept
  {
    AnchoredAEdges();
    ClosureNoEdges(Edges(states, Epsilon), {2});
    assert !AnyAccepting(states, {1});
    assert AnyAccepting(states, {2}) by {
      assert states[2].accepting;
    }
  }
}
