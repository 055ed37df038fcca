/**
 * Thompson's construction (`NFACompiler` in src/regex.cpp).
 *
 * `Thompson(nodes, i, base)` is the block of states that emitting node `i`
 * appends when the arena already holds `base` states: the states of its
 * operands (in operand order), then its own entry and exit. `Compiled` adds
 * the scan state and the accepting state around the root's block. The class
 * `NFACompiler` builds the same states imperatively, with the stack of
 * (entry, exit) pairs the source uses.
 */
module Compiler {
  import opened Syntax
  import opened Wrappers
  import opened Automaton
  import Parsing

  /** The number of `emit_node` calls node `i` gives rise to (operands shared in the arena count once per use). */
  function Size(nodes: seq<Node>, i: nat): (n: nat)
    requires Postorder(nodes) && i < |nodes|
    ensures n >= 1
    decreases i
  {
    match nodes[i]
    case Atom(_) => 1
    case Alt(l, r) => 1 + Size(nodes, l) + Size(nodes, r)
    case Cat(l, r) => 1 + Size(nodes, l) + Size(nodes, r)
    case Plus(c) => 1 + Size(nodes, c)
    case Star(c) => 1 + Size(nodes, c)
    case Opt(c) => 1 + Size(nodes, c)
  }

  /** A freshly appended state: not accepting, no transitions. */
  const Blank := State(false, [])

  /** A non-accepting state whose only transition is on `sym`, to `targets`. */
  function Edge(sym: int, targets: seq<nat>): State {
    State(false, [Transition(sym, targets)])
  }

  /** A state whose only transition is an epsilon transition to `targets`. */
  function EpsilonState(targets: seq<nat>): State {
    Edge(Epsilon, targets)
  }

  /**
   * The block's exit, a fresh state, after `get(sym)` and `push_back` of each
   * of `targets` on it: one transition on `sym` to `targets`, in order.
   */
  function Wire(frag: seq<State>, sym: int, targets: seq<nat>): (r: seq<State>)
    requires |frag| > 0
    ensures |r| == |frag|
  {
    frag[|frag| - 1 := Edge(sym, targets)]
  }

  // The block of each node kind, given the blocks of its operands. `base` is
  // the index of the block's first state; the node's own entry and exit are
  // the block's last two states, and each operand's exit is its block's last
  // state.

  function AtomBlock(c: char, base: nat): (frag: seq<State>)
    ensures |frag| == 2
  {
    [Edge(c as int, [base + 1]), Blank]
  }

  function AltBlock(L: seq<State>, R: seq<State>, base: nat): (frag: seq<State>)
    requires |L| >= 2 && |R| >= 2
    ensures |frag| == |L| + |R| + 2
  {
    var entry := base + |L| + |R|;
    Wire(L, Epsilon, [entry + 1]) + Wire(R, Epsilon, [entry + 1]) + [EpsilonState([base + |L| - 2, entry - 2]), Blank]
  }

  function CatBlock(L: seq<State>, R: seq<State>, base: nat): (frag: seq<State>)
    requires |L| >= 2 && |R| >= 2
    ensures |frag| == |L| + |R| + 2
  {
    var entry := base + |L| + |R|;
    Wire(L, Epsilon, [entry - 2]) + Wire(R, Epsilon, [entry + 1]) + [EpsilonState([base + |L| - 2]), Blank]
  }

  function PlusBlock(C: seq<State>, base: nat): (frag: seq<State>)
    requires |C| >= 2
    ensures |frag| == |C| + 2
  {
    var entry := base + |C|;
    Wire(C, Epsilon, [entry - 2, entry + 1]) + [EpsilonState([entry - 2]), Blank]
  }

  function StarBlock(C: seq<State>, base: nat): (frag: seq<State>)
    requires |C| >= 2
    ensures |frag| == |C| + 2
  {
    var entry := base + |C|;
    Wire(C, Epsilon, [entry]) + [EpsilonState([entry - 2, entry + 1]), Blank]
  }

  function OptBlock(C: seq<State>, base: nat): (frag: seq<State>)
    requires |C| >= 2
    ensures |frag| == |C| + 2
  {
    var entry := base + |C|;
    Wire(C, Epsilon, [entry + 1]) + [EpsilonState([entry - 2, entry + 1]), Blank]
  }

  /** The states appended by `emit_node(nodes, i)` when the arena holds `base` states. */
  function Thompson(nodes: seq<Node>, i: nat, base: nat): (frag: seq<State>)
    requires Postorder(nodes) && i < |nodes|
    ensures |frag| >= 2
    ensures frag[|frag| - 1] == Blank
    decreases i, 1
  {
    match nodes[i]
    case Atom(c) => AtomBlock(c, base)
    case Alt(_, _) => BinaryNode(nodes, i, base)
    case Cat(_, _) => BinaryNode(nodes, i, base)
    case Plus(_) => UnaryNode(nodes, i, base)
    case Star(_) => UnaryNode(nodes, i, base)
    case Opt(_) => UnaryNode(nodes, i, base)
  }

  /** An alternation or concatenation: its operands' blocks, one after the other, then its own. */
  function BinaryNode(nodes: seq<Node>, i: nat, base: nat): (frag: seq<State>)
    requires Postorder(nodes) && i < |nodes| && (nodes[i].Alt? || nodes[i].Cat?)
    ensures |frag| >= 2
    ensures frag[|frag| - 1] == Blank
    decreases i, 0
  {
    var L := Thompson(nodes, nodes[i].first, base);
    var R := Thompson(nodes, nodes[i].second, base + |L|);
    if nodes[i].Alt? then AltBlock(L, R, base) else CatBlock(L, R, base)
  }

  /** A quantifier node: its operand's block, then its own states. */
  function UnaryNode(nodes: seq<Node>, i: nat, base: nat): (frag: seq<State>)
    requires Postorder(nodes) && i < |nodes| && (nodes[i].Plus? || nodes[i].Star? || nodes[i].Opt?)
    ensures |frag| >= 2
    ensures frag[|frag| - 1] == Blank
    decreases i, 0
  {
    var C := Thompson(nodes, nodes[i].child, base);
    match nodes[i]
    case Plus(_) => PlusBlock(C, base)
    case Star(_) => StarBlock(C, base)
    case Opt(_) => OptBlock(C, base)
  }

  /** A node's block holds two states per `emit_node` call it gives rise to. */
  lemma {:induction false} ThompsonSize(nodes: seq<Node>, i: nat, base: nat)
    requires Postorder(nodes) && i < |nodes|
    ensures |Thompson(nodes, i, base)| == 2 * Size(nodes, i)
    decreases i
  {
    if nodes[i].Alt? || nodes[i].Cat? {
      var L := Thompson(nodes, nodes[i].first, base);
      ThompsonSize(nodes, nodes[i].first, base);
      ThompsonSize(nodes, nodes[i].second, base + |L|);
      BinarySize(nodes, i, base, L, Thompson(nodes, nodes[i].second, base + |L|));
    } else if !nodes[i].Atom? {
      ThompsonSize(nodes, nodes[i].child, base);
      UnarySize(nodes, i, base);
    }
  }

  lemma BinarySize(nodes: seq<Node>, i: nat, base: nat, L: seq<State>, R: seq<State>)
    requires Postorder(nodes) && i < |nodes| && (nodes[i].Alt? || nodes[i].Cat?)
    requires L == Thompson(nodes, nodes[i].first, base) && R == Thompson(nodes, nodes[i].second, base + |L|)
    requires |L| == 2 * Size(nodes, nodes[i].first) && |R| == 2 * Size(nodes, nodes[i].second)
    ensures |Thompson(nodes, i, base)| == 2 * Size(nodes, i)
  {
    BinaryUnfold(nodes, i, base, L, R);
  }

  lemma UnarySize(nodes: seq<Node>, i: nat, base: nat)
    requires Postorder(nodes) && i < |nodes| && (nodes[i].Plus? || nodes[i].Star? || nodes[i].Opt?)
    requires |Thompson(nodes, nodes[i].child, base)| == 2 * Size(nodes, nodes[i].child)
    ensures |Thompson(nodes, i, base)| == 2 * Size(nodes, i)
  {
    UnaryUnfold(nodes, i, base, Thompson(nodes, nodes[i].child, base));
  }

  /** The scan state at index `self`: a self-loop on every symbol 0..255 and an epsilon transition to `entry`. */
  function ScanState(self: nat, entry: nat): (st: State)
    ensures !st.accepting && |st.transitions| == 257 && st.transitions[256].symbol == Epsilon
    ensures forall j, t | 0 <= j < |st.transitions| && t in st.transitions[j].futures :: t == self || t == entry
  {
    State(false, seq(256, k => Transition(k, [self])) + [Transition(Epsilon, [entry])])
  }

  /** The states `compile_tree` appends, and the start state it chooses. */
  datatype Machine = Machine(states: seq<State>, start: nat)

  /**
   * `compile_tree` on an arena of `base` states: the root's block; then,
   * unless the pattern is anchored at the beginning, the scan state; then
   * the accepting state. The root's exit is wired to the accepting state on
   * symbol 0 (the end of the text) when the pattern is anchored at the end,
   * and by an epsilon transition otherwise.
   */
  function Compiled(nodes: seq<Node>, beginAnchored: bool, endAnchored: bool, base: nat): (m: Machine)
    requires Postorder(nodes) && |nodes| > 0
    ensures |m.states| >= 3 && m.states[|m.states| - 1] == State(true, [])
    ensures base <= m.start < base + |m.states| - 1
  {
    var T := Thompson(nodes, |nodes| - 1, base);
    var entry := base + |T| - 2;
    var sym := if endAnchored then 0 else Epsilon;
    if beginAnchored then
      Machine(Wire(T, sym, [base + |T|]) + [State(true, [])], entry)
    else
      Machine(Wire(T, sym, [base + |T| + 1]) + [ScanState(base + |T|, entry), State(true, [])], base + |T|)
  }

  // ---------------------------------------------------------------------
  // Soundness of the blocks: every state a block holds is non-accepting,
  // has at most one transition per symbol, and targets only states of the
  // block itself.
  // ---------------------------------------------------------------------

  predicate Sound(st: State, lo: nat, hi: nat) {
    !st.accepting && TargetsIn(st, lo, hi) && UniqueSymbols(st.transitions)
  }

  predicate AllSound(frag: seq<State>, lo: nat, hi: nat) {
    forall k | 0 <= k < |frag| :: Sound(frag[k], lo, hi)
  }

  lemma EdgeSound(sym: int, targets: seq<nat>, lo: nat, hi: nat)
    requires forall t | t in targets :: lo <= t < hi
    ensures Sound(Edge(sym, targets), lo, hi)
  {
  }

  lemma WireSound(frag: seq<State>, sym: int, targets: seq<nat>, lo: nat, hi: nat)
    requires |frag| > 0 && AllSound(frag, lo, hi) && forall t | t in targets :: lo <= t < hi
    ensures AllSound(Wire(frag, sym, targets), lo, hi)
  {
    EdgeSound(sym, targets, lo, hi);
  }

  lemma Widen(frag: seq<State>, lo: nat, hi: nat, lo': nat, hi': nat)
    requires AllSound(frag, lo, hi) && lo' <= lo && hi <= hi'
    ensures AllSound(frag, lo', hi')
  {
  }

  lemma AppendSound(a: seq<State>, b: seq<State>, lo: nat, hi: nat)
    requires AllSound(a, lo, hi) && AllSound(b, lo, hi)
    ensures AllSound(a + b, lo, hi)
  {
    forall k | 0 <= k < |a + b| ensures Sound((a + b)[k], lo, hi) {
      if k < |a| { assert (a + b)[k] == a[k]; } else { assert (a + b)[k] == b[k - |a|]; }
    }
  }

  /** A block made of two wired operand blocks, an entry and a fresh exit. */
  lemma BinarySound(L: seq<State>, R: seq<State>, base: nat, entry: State, t1: seq<nat>, t2: seq<nat>, frag: seq<State>)
    requires |L| >= 2 && |R| >= 2
    requires AllSound(L, base, base + |L|) && AllSound(R, base + |L|, base + |L| + |R|)
    requires var hi := base + |L| + |R| + 2;
      Sound(entry, base, hi) && (forall t | t in t1 :: base <= t < hi) && (forall t | t in t2 :: base <= t < hi)
    requires frag == Wire(L, Epsilon, t1) + Wire(R, Epsilon, t2) + [entry, Blank]
    ensures AllSound(frag, base, base + |L| + |R| + 2)
  {
    var hi := base + |L| + |R| + 2;
    Widen(L, base, base + |L|, base, hi);
    Widen(R, base + |L|, base + |L| + |R|, base, hi);
    WireSound(L, Epsilon, t1, base, hi);
    WireSound(R, Epsilon, t2, base, hi);
    AppendSound(Wire(L, Epsilon, t1), Wire(R, Epsilon, t2), base, hi);
    AppendSound(Wire(L, Epsilon, t1) + Wire(R, Epsilon, t2), [entry, Blank], base, hi);
  }

  /** A block made of one wired operand block, an entry and a fresh exit. */
  lemma UnarySound(C: seq<State>, base: nat, entry: State, t: seq<nat>, frag: seq<State>)
    requires |C| >= 2 && AllSound(C, base, base + |C|)
    requires var hi := base + |C| + 2; Sound(entry, base, hi) && forall x | x in t :: base <= x < hi
    requires frag == Wire(C, Epsilon, t) + [entry, Blank]
    ensures AllSound(frag, base, base + |C| + 2)
  {
    var hi := base + |C| + 2;
    Widen(C, base, base + |C|, base, hi);
    WireSound(C, Epsilon, t, base, hi);
    AppendSound(Wire(C, Epsilon, t), [entry, Blank], base, hi);
  }

  lemma AltSound(L: seq<State>, R: seq<State>, base: nat)
    requires |L| >= 2 && |R| >= 2
    requires AllSound(L, base, base + |L|) && AllSound(R, base + |L|, base + |L| + |R|)
    ensures AllSound(AltBlock(L, R, base), base, base + |L| + |R| + 2)
  {
    var entry := base + |L| + |R|;
    EdgeSound(Epsilon, [base + |L| - 2, entry - 2], base, entry + 2);
    BinarySound(L, R, base, EpsilonState([base + |L| - 2, entry - 2]), [entry + 1], [entry + 1], AltBlock(L, R, base));
  }

  lemma CatSound(L: seq<State>, R: seq<State>, base: nat)
    requires |L| >= 2 && |R| >= 2
    requires AllSound(L, base, base + |L|) && AllSound(R, base + |L|, base + |L| + |R|)
    ensures AllSound(CatBlock(L, R, base), base, base + |L| + |R| + 2)
  {
    var entry := base + |L| + |R|;
    EdgeSound(Epsilon, [base + |L| - 2], base, entry + 2);
    BinarySound(L, R, base, EpsilonState([base + |L| - 2]), [entry - 2], [entry + 1], CatBlock(L, R, base));
  }

  lemma BinaryNodeSound(nodes: seq<Node>, i: nat, base: nat)
    requires Postorder(nodes) && i < |nodes| && (nodes[i].Alt? || nodes[i].Cat?)
    requires var L := Thompson(nodes, nodes[i].first, base); AllSound(L, base, base + |L|)
    requires var L := Thompson(nodes, nodes[i].first, base); var R := Thompson(nodes, nodes[i].second, base + |L|);
      AllSound(R, base + |L|, base + |L| + |R|)
    ensures var frag := BinaryNode(nodes, i, base); AllSound(frag, base, base + |frag|)
  {
    var L := Thompson(nodes, nodes[i].first, base);
    var R := Thompson(nodes, nodes[i].second, base + |L|);
    if nodes[i].Alt? { AltSound(L, R, base); } else { CatSound(L, R, base); }
  }

  lemma UnaryNodeSound(nodes: seq<Node>, i: nat, base: nat)
    requires Postorder(nodes) && i < |nodes| && (nodes[i].Plus? || nodes[i].Star? || nodes[i].Opt?)
    requires var C := Thompson(nodes, nodes[i].child, base); AllSound(C, base, base + |C|)
    ensures var frag := UnaryNode(nodes, i, base); AllSound(frag, base, base + |frag|)
  {
    var C := Thompson(nodes, nodes[i].child, base);
    var entry := base + |C|;
    match nodes[i]
    case Plus(_) =>
      EdgeSound(Epsilon, [entry - 2], base, entry + 2);
      UnarySound(C, base, EpsilonState([entry - 2]), [entry - 2, entry + 1], PlusBlock(C, base));
    case Star(_) =>
      EdgeSound(Epsilon, [entry - 2, entry + 1], base, entry + 2);
      UnarySound(C, base, EpsilonState([entry - 2, entry + 1]), [entry], StarBlock(C, base));
    case Opt(_) =>
      EdgeSound(Epsilon, [entry - 2, entry + 1], base, entry + 2);
      UnarySound(C, base, EpsilonState([entry - 2, entry + 1]), [entry + 1], OptBlock(C, base));
  }

  /**
   * Every state of a node's block is non-accepting, has at most one
   * transition per symbol, and targets only states of the same block.
   */
  lemma {:induction false} ThompsonSound(nodes: seq<Node>, i: nat, base: nat)
    requires Postorder(nodes) && i < |nodes|
    ensures var frag := Thompson(nodes, i, base); AllSound(frag, base, base + |frag|)
    decreases i
  {
    if nodes[i].Atom? {
      EdgeSound(nodes[i].c as int, [base + 1], base, base + 2);
    } else if nodes[i].Alt? || nodes[i].Cat? {
      var L := Thompson(nodes, nodes[i].first, base);
      ThompsonSound(nodes, nodes[i].first, base);
      ThompsonSound(nodes, nodes[i].second, base + |L|);
      BinaryNodeSound(nodes, i, base);
    } else {
      ThompsonSound(nodes, nodes[i].child, base);
      UnaryNodeSound(nodes, i, base);
    }
  }

  // ---------------------------------------------------------------------
  // The edges of each node kind. Positions are relative to `base`; a
  // block's entry is its second-to-last state and its exit its last.
  // ---------------------------------------------------------------------

  /** An atom's entry has one transition, on its character, to its exit. */
  lemma AtomEdges(nodes: seq<Node>, i: nat, base: nat)
    requires Postorder(nodes) && i < |nodes| && nodes[i].Atom?
    ensures Thompson(nodes, i, base) == [Edge(nodes[i].c as int, [base + 1]), Blank]
  {
  }

  /**
   * An alternation's entry has epsilon transitions to both operands'
   * entries, left first, and both operands' exits go to the node's exit.
   * Nothing else in the operands' blocks changes.
   */
  lemma AltEdges(nodes: seq<Node>, i: nat, base: nat)
    requires Postorder(nodes) && i < |nodes| && nodes[i].Alt?
    ensures var frag := Thompson(nodes, i, base); var n := |frag|;
      var L := Thompson(nodes, nodes[i].first, base); var m := |L|;
      var R := Thompson(nodes, nodes[i].second, base + m);
      n == m + |R| + 2 && frag[..m - 1] == L[..m - 1] && frag[m..n - 3] == R[..|R| - 1] &&
      frag[n - 2] == EpsilonState([base + m - 2, base + n - 4]) &&
      frag[m - 1] == EpsilonState([base + n - 1]) && frag[n - 3] == EpsilonState([base + n - 1])
  {
    var L := Thompson(nodes, nodes[i].first, base);
    var R := Thompson(nodes, nodes[i].second, base + |L|);
    assert Thompson(nodes, i, base) == AltBlock(L, R, base) by {
      assert Thompson(nodes, i, base) == BinaryNode(nodes, i, base);
    }
    AltLayout(L, R, base);
  }

  /**
   * A concatenation's entry has an epsilon transition to the left operand's
   * entry, the left exit goes to the right entry and the right exit to the
   * node's exit. Nothing else in the operands' blocks changes.
   */
  lemma CatEdges(nodes: seq<Node>, i: nat, base: nat)
    requires Postorder(nodes) && i < |nodes| && nodes[i].Cat?
    ensures var frag := Thompson(nodes, i, base); var n := |frag|;
      var L := Thompson(nodes, nodes[i].first, base); var m := |L|;
      var R := Thompson(nodes, nodes[i].second, base + m);
      n == m + |R| + 2 && frag[..m - 1] == L[..m - 1] && frag[m..n - 3] == R[..|R| - 1] &&
      frag[n - 2] == EpsilonState([base + m - 2]) &&
      frag[m - 1] == EpsilonState([base + n - 4]) && frag[n - 3] == EpsilonState([base + n - 1])
  {
    var L := Thompson(nodes, nodes[i].first, base);
    var R := Thompson(nodes, nodes[i].second, base + |L|);
    assert Thompson(nodes, i, base) == CatBlock(L, R, base) by {
      assert Thompson(nodes, i, base) == BinaryNode(nodes, i, base);
    }
    CatLayout(L, R, base);
  }

  lemma AltLayout(L: seq<State>, R: seq<State>, base: nat)
    requires |L| >= 2 && |R| >= 2
    ensures var frag := AltBlock(L, R, base); var n, m := |frag|, |L|;
      frag[n - 1] == Blank && frag[..m - 1] == L[..m - 1] && frag[m..n - 3] == R[..|R| - 1] &&
      frag[n - 3] == EpsilonState([base + n - 1]) &&
      frag[n - 2] == EpsilonState([base + m - 2, base + n - 4]) && frag[m - 1] == EpsilonState([base + n - 1])
  {
    var frag := AltBlock(L, R, base);
    var n, m := |frag|, |L|;
    var WL, WR := Wire(L, Epsilon, [base + n - 1]), Wire(R, Epsilon, [base + n - 1]);
    assert frag == WL + WR + [EpsilonState([base + m - 2, base + n - 4]), Blank];
    assert frag[..m - 1] == WL[..m - 1];
    assert frag[m..n - 3] == WR[..|R| - 1];
  }

  lemma CatLayout(L: seq<State>, R: seq<State>, base: nat)
    requires |L| >= 2 && |R| >= 2
    ensures var frag := CatBlock(L, R, base); var n, m := |frag|, |L|;
      frag[n - 1] == Blank && frag[..m - 1] == L[..m - 1] && frag[m..n - 3] == R[..|R| - 1] &&
      frag[n - 3] == EpsilonState([base + n - 1]) &&
      frag[n - 2] == EpsilonState([base + m - 2]) && frag[m - 1] == EpsilonState([base + n - 4])
  {
    var frag := CatBlock(L, R, base);
    var n, m := |frag|, |L|;
    var WL, WR := Wire(L, Epsilon, [base + n - 4]), Wire(R, Epsilon, [base + n - 1]);
    assert frag == WL + WR + [EpsilonState([base + m - 2]), Blank];
    assert frag[..m - 1] == WL[..m - 1];
    assert frag[m..n - 3] == WR[..|R| - 1];
  }

  /**
   * A one-or-more node's entry goes to its operand's entry and the operand's
   * exit back to that entry and on to the node's exit; a zero-or-more node's
   * entry goes to the operand's entry and to its own exit, and the operand's
   * exit back to the node's entry; an optional node's entry goes to the
   * operand's entry and to its own exit, and the operand's exit to the
   * node's exit.
   */
  lemma UnaryEdges(nodes: seq<Node>, i: nat, base: nat)
    requires Postorder(nodes) && i < |nodes| && (nodes[i].Plus? || nodes[i].Star? || nodes[i].Opt?)
    ensures var frag := Thompson(nodes, i, base); var n := |frag|;
      var C := Thompson(nodes, nodes[i].child, base);
      var entry, exit := base + n - 2, base + n - 1;
      n == |C| + 2 && frag[n - 1] == Blank && frag[..n - 3] == C[..|C| - 1] &&
      (nodes[i].Plus? ==> frag[n - 2] == EpsilonState([entry - 2]) && frag[n - 3] == EpsilonState([entry - 2, exit])) &&
      (nodes[i].Star? ==> frag[n - 2] == EpsilonState([entry - 2, exit]) && frag[n - 3] == EpsilonState([entry])) &&
      (nodes[i].Opt? ==> frag[n - 2] == EpsilonState([entry - 2, exit]) && frag[n - 3] == EpsilonState([exit]))
  {
    var C := Thompson(nodes, nodes[i].child, base);
    assert Thompson(nodes, i, base) == UnaryNode(nodes, i, base);
    var frag := UnaryNode(nodes, i, base);
    assert frag[..|C| - 1] == C[..|C| - 1];
  }

  // ---------------------------------------------------------------------
  // The scan state and the finished machine
  // ---------------------------------------------------------------------

  /**
   * The scan state has one transition per byte value, each back to itself,
   * and one epsilon transition, to the root's entry; it has none on any
   * other symbol.
   */
  lemma ScanTargets(self: nat, entry: nat)
    ensures var ts := ScanState(self, entry).transitions;
      UniqueSymbols(ts) && TargetsOf(ts, Epsilon) == [entry] &&
      (forall sym | 0 <= sym < 256 :: TargetsOf(ts, sym) == [self]) &&
      (forall sym | sym != Epsilon && !(0 <= sym < 256) :: TargetsOf(ts, sym) == [])
  {
    var ts := ScanState(self, entry).transitions;
    assert |ts| == 257 && ts[256] == Transition(Epsilon, [entry]);
    assert forall k | 0 <= k < 256 :: ts[k] == Transition(k, [self]);
    assert Find(ts, Epsilon) == Some(256);
    forall sym | 0 <= sym < 256 ensures TargetsOf(ts, sym) == [self] {
      assert ts[sym].symbol == sym;
    }
  }

  /** The accepting state is the last state appended, and the only accepting one; it has no transitions. */
  lemma CompiledAccepting(nodes: seq<Node>, beginAnchored: bool, endAnchored: bool, base: nat)
    requires Postorder(nodes) && |nodes| > 0
    ensures var m := Compiled(nodes, beginAnchored, endAnchored, base); var N := |m.states|;
      N == 2 * Size(nodes, |nodes| - 1) + (if beginAnchored then 1 else 2) &&
      m.states[N - 1] == State(true, []) &&
      forall k | 0 <= k < N - 1 :: !m.states[k].accepting
  {
    var T := Thompson(nodes, |nodes| - 1, base);
    ThompsonSound(nodes, |nodes| - 1, base);
    ThompsonSize(nodes, |nodes| - 1, base);
    var m := Compiled(nodes, beginAnchored, endAnchored, base);
    forall k | 0 <= k < |m.states| - 1 ensures !m.states[k].accepting {
      if k < |T| - 1 { assert m.states[k] == T[k]; }
    }
  }

  /**
   * The start state: the root's entry when the pattern is anchored at the
   * beginning; otherwise the scan state, appended right after the root's
   * block, which loops on every byte and moves to the root's entry.
   */
  lemma CompiledStart(nodes: seq<Node>, beginAnchored: bool, endAnchored: bool, base: nat)
    requires Postorder(nodes) && |nodes| > 0
    ensures var m := Compiled(nodes, beginAnchored, endAnchored, base);
      var T := Thompson(nodes, |nodes| - 1, base); var n := |T|;
      m.states[n - 2] == T[n - 2] &&
      (beginAnchored ==> m.start == base + n - 2) &&
      (!beginAnchored ==> m.start == base + n && m.states[n] == ScanState(base + n, base + n - 2))
  {
  }

  /**
   * The root's exit has exactly one transition, to the accepting state: on
   * symbol 0 (the end of the text) when the pattern is anchored at the end,
   * an epsilon transition otherwise. The rest of the root's block is as
   * `emit_node` left it.
   */
  lemma CompiledExit(nodes: seq<Node>, beginAnchored: bool, endAnchored: bool, base: nat)
    requires Postorder(nodes) && |nodes| > 0
    ensures var m := Compiled(nodes, beginAnchored, endAnchored, base);
      var T := Thompson(nodes, |nodes| - 1, base); var n := |T|;
      m.states[..n - 1] == T[..n - 1] &&
      m.states[n - 1] == Edge(if endAnchored then 0 else Epsilon, [base + |m.states| - 1])
  {
    var T := Thompson(nodes, |nodes| - 1, base);
    var m := Compiled(nodes, beginAnchored, endAnchored, base);
    assert m.states[..|T| - 1] == T[..|T| - 1];
  }

  /**
   * Compiled into an empty arena, every transition targets an existing
   * state, no state has two transitions on one symbol, and the start state
   * exists.
   */
  lemma CompiledWellFormed(nodes: seq<Node>, beginAnchored: bool, endAnchored: bool)
    requires Postorder(nodes) && |nodes| > 0
    ensures var m := Compiled(nodes, beginAnchored, endAnchored, 0);
      WellFormed(m.states) && m.start < |m.states| &&
      forall k | 0 <= k < |m.states| :: UniqueSymbols(m.states[k].transitions)
  {
    var T := Thompson(nodes, |nodes| - 1, 0);
    var n := |T|;
    var m := Compiled(nodes, beginAnchored, endAnchored, 0);
    var N := |m.states|;
    ThompsonSound(nodes, |nodes| - 1, 0);
    Widen(T, 0, n, 0, N);
    var sym := if endAnchored then 0 else Epsilon;
    var W := Wire(T, sym, [N - 1]);
    WireSound(T, sym, [N - 1], 0, N);
    if !beginAnchored {
      ScanSound(n, n - 2, N);
      AppendSound(W, [ScanState(n, n - 2)], 0, N);
      assert m.states == W + [ScanState(n, n - 2)] + [State(true, [])];
      AcceptingLast(W + [ScanState(n, n - 2)]);
    } else {
      assert m.states == W + [State(true, [])];
      AcceptingLast(W);
    }
  }

  /** The scan state targets only itself and the root's entry. */
  lemma ScanSound(self: nat, entry: nat, hi: nat)
    requires self < hi && entry < hi
    ensures Sound(ScanState(self, entry), 0, hi)
  {
    ScanTargets(self, entry);
    var ts := ScanState(self, entry).transitions;
    assert forall j | 0 <= j < |ts| :: ts[j].futures == [self] || ts[j].futures == [entry];
  }

  /** Sound states followed by the accepting state, which they may target, form a well-formed arena. */
  lemma AcceptingLast(S: seq<State>)
    requires AllSound(S, 0, |S| + 1)
    ensures var all := S + [State(true, [])];
      WellFormed(all) && forall k | 0 <= k < |all| :: UniqueSymbols(all[k].transitions)
  {
    var all := S + [State(true, [])];
    forall k | 0 <= k < |all| ensures TargetsIn(all[k], 0, |all|) && UniqueSymbols(all[k].transitions) {
      if k < |S| { assert all[k] == S[k] && Sound(S[k], 0, |all|); }
    }
  }

  // ---------------------------------------------------------------------
  // Facts the imperative compiler needs about single `get`/`push_back` steps
  // ---------------------------------------------------------------------

  /** `get` on a fresh state appends a transition; a second `get` of the same symbol reuses it. */
  lemma AddTargetFresh(sym: int, a: nat, b: nat)
    ensures AddTarget(Blank, sym, a) == Edge(sym, [a])
    ensures AddTarget(Edge(sym, [a]), sym, b) == Edge(sym, [a, b])
  {
    var none: seq<Transition> := [];
    var noTargets: seq<nat> := [];
    assert Find(none, sym) == None;
    assert none + [Transition(sym, [])] == [Transition(sym, [])];
    assert noTargets + [a] == [a];
    assert Get(none, sym) == ([Transition(sym, [])], 0);
    assert Find([Transition(sym, [a])], sym) == Some(0);
    assert Get([Transition(sym, [a])], sym) == ([Transition(sym, [a])], 0);
    assert [a] + [b] == [a, b];
  }

  /** One round of the scan loop: the state gains a self-loop on the next byte value. */
  lemma ScanStep(i: nat, self: nat)
    ensures AddTarget(State(false, seq(i, k => Transition(k, [self]))), i, self) ==
            State(false, seq(i + 1, k => Transition(k, [self])))
  {
    var ts := seq(i, k => Transition(k, [self]));
    var noTargets: seq<nat> := [];
    assert forall k | 0 <= k < |ts| :: ts[k].symbol != i;
    assert Find(ts, i) == None;
    assert Get(ts, i) == (ts + [Transition(i, [])], i);
    assert noTargets + [self] == [self];
    assert (ts + [Transition(i, [])])[i := Transition(i, [self])] == seq(i + 1, k => Transition(k, [self]));
  }

  /** The last step of the scan state: its epsilon transition to the root's entry. */
  lemma ScanLast(self: nat, entry: nat)
    ensures AddTarget(State(false, seq(256, k => Transition(k, [self]))), Epsilon, entry) == ScanState(self, entry)
  {
    var ts := seq(256, k => Transition(k, [self]));
    var noTargets: seq<nat> := [];
    assert forall k | 0 <= k < |ts| :: ts[k].symbol != Epsilon;
    assert Find(ts, Epsilon) == None;
    assert Get(ts, Epsilon) == (ts + [Transition(Epsilon, [])], 256);
    assert noTargets + [entry] == [entry];
    assert (ts + [Transition(Epsilon, [])])[256 := Transition(Epsilon, [entry])] == ts + [Transition(Epsilon, [entry])];
  }

  /** The block of a quantifier node, in terms of its operand's block. */
  lemma UnaryUnfold(nodes: seq<Node>, i: nat, base: nat, C: seq<State>)
    requires Postorder(nodes) && i < |nodes| && (nodes[i].Plus? || nodes[i].Star? || nodes[i].Opt?)
    requires C == Thompson(nodes, nodes[i].child, base)
    ensures var entry := base + |C|;
      UnaryNode(nodes, i, base) ==
        Wire(C, Epsilon, if nodes[i].Plus? then [entry - 2, entry + 1] else if nodes[i].Star? then [entry] else [entry + 1]) +
        [EpsilonState(if nodes[i].Plus? then [entry - 2] else [entry - 2, entry + 1]), Blank]
  {
  }

  /** The wired operands, entry and exit of an alternation form its block. */
  lemma AltAssembled(S0: seq<State>, L: seq<State>, R: seq<State>, E: State, leftTarget: nat, exit: nat)
    requires |L| >= 2 && |R| >= 2
    requires exit == |S0| + |L| + |R| + 1 && leftTarget == exit
    requires E == EpsilonState([|S0| + |L| - 2, |S0| + |L| + |R| - 2])
    ensures S0 + (Wire(L, Epsilon, [leftTarget]) + Wire(R, Epsilon, [exit]) + [E, Blank]) == S0 + AltBlock(L, R, |S0|)
  {
  }

  /** The wired operands, entry and exit of a concatenation form its block. */
  lemma CatAssembled(S0: seq<State>, L: seq<State>, R: seq<State>, E: State, leftTarget: nat, exit: nat)
    requires |L| >= 2 && |R| >= 2
    requires exit == |S0| + |L| + |R| + 1 && leftTarget == |S0| + |L| + |R| - 2
    requires E == EpsilonState([|S0| + |L| - 2])
    ensures S0 + (Wire(L, Epsilon, [leftTarget]) + Wire(R, Epsilon, [exit]) + [E, Blank]) == S0 + CatBlock(L, R, |S0|)
  {
  }

  /** The wired operands, entry and exit of an alternation or concatenation form its block. */
  lemma BinaryAssembled(S0: seq<State>, L: seq<State>, R: seq<State>, alt: bool, E: State, leftTarget: nat, exit: nat)
    requires |L| >= 2 && |R| >= 2 && exit == |S0| + |L| + |R| + 1
    requires leftTarget == (if alt then exit else |S0| + |L| + |R| - 2)
    requires E == EpsilonState(if alt then [|S0| + |L| - 2, |S0| + |L| + |R| - 2] else [|S0| + |L| - 2])
    ensures S0 + (Wire(L, Epsilon, [leftTarget]) + Wire(R, Epsilon, [exit]) + [E, Blank]) ==
            S0 + (if alt then AltBlock(L, R, |S0|) else CatBlock(L, R, |S0|))
  {
    if alt {
      AltAssembled(S0, L, R, E, leftTarget, exit);
    } else {
      CatAssembled(S0, L, R, E, leftTarget, exit);
    }
  }

  lemma Regroup(A: seq<State>, B: seq<State>, E: State)
    ensures A + B + [E] + [Blank] == A + (B + [E, Blank])
  {
  }

  /** The block of an alternation or concatenation, in terms of its operands' blocks `L` and `R`. */
  lemma BinaryUnfold(nodes: seq<Node>, i: nat, base: nat, L: seq<State>, R: seq<State>)
    requires Postorder(nodes) && i < |nodes| && (nodes[i].Alt? || nodes[i].Cat?)
    requires L == Thompson(nodes, nodes[i].first, base) && R == Thompson(nodes, nodes[i].second, base + |L|)
    ensures BinaryNode(nodes, i, base) == if nodes[i].Alt? then AltBlock(L, R, base) else CatBlock(L, R, base)
  {
  }

  // ---------------------------------------------------------------------
  // The compiler object
  // ---------------------------------------------------------------------

  /** `NFACompiler::NodeData`: the entry and exit state of an emitted node. */
  datatype NodeData = NodeData(startState: nat, acceptState: nat)

  /** `NFACompiler`: appends states to `machine`, keeping a stack of emitted nodes. */
  class NFACompiler {
    const machine: NFA
    var nodeStack: seq<NodeData>

    constructor (machine: NFA)
      ensures this.machine == machine && nodeStack == []
    {
      this.machine := machine;
      nodeStack := [];
    }

    /**
     * `compile_tree`: emits the root (the last node), adds the scan state
     * unless the pattern is anchored at its start, adds the accepting state
     * and wires the root's exit to it: by an empty transition, or on the
     * end-of-input symbol 0 when the pattern is anchored at its end.
     */
    method CompileTree(tree: Parsing.ParseTree)
      requires Postorder(tree.nodes) && |tree.nodes| > 0 && machine.Valid()
      modifies this, machine
      ensures machine.Valid() && nodeStack == old(nodeStack)
      ensures var m := Compiled(tree.nodes, tree.beginAnchored, tree.endAnchored, |old(machine.states)|);
        machine.states == old(machine.states) + m.states && machine.startState == m.start
      ensures StampsExtended(old(machine.lastExec), machine.lastExec)
    {
      ghost var S0, stack0, L0 := machine.states, nodeStack, machine.lastExec;
      EmitNode(tree.nodes, |tree.nodes| - 1);
      ghost var T := Thompson(tree.nodes, |tree.nodes| - 1, |S0|);
      var last := nodeStack[|nodeStack| - 1];
      nodeStack := nodeStack[..|nodeStack| - 1];
      assert nodeStack == stack0;

      var start: nat;
      ghost var tail: seq<State>;
      if !tree.beginAnchored {
        ghost var L1 := machine.lastExec;
        start := AddScanState(last.startState);
        StampsExtendedTrans(L0, L1, machine.lastExec);
        tail := [ScanState(start, last.startState)];
      } else {
        start := last.startState;
        tail := [];
      }
      machine.startState := start;

      ghost var L2 := machine.lastExec;
      var accept := machine.AddState(true);
      StampsExtendedTrans(L0, L2, machine.lastExec);
      var sym := if tree.endAnchored then 0 else Epsilon;
      RootExitPush(S0, T, tail + [State(true, [])], last.acceptState, sym, accept);
    }

    /**
     * Appends the scan state: a self-loop on every byte value 0..255 and an
     * empty transition to `entry`, so that a match may begin at any position.
     */
    method AddScanState(entry: nat) returns (start: nat)
      requires machine.Valid()
      modifies machine
      ensures machine.Valid() && machine.startState == old(machine.startState)
      ensures start == |old(machine.states)| && machine.states == old(machine.states) + [ScanState(start, entry)]
      ensures StampsExtended(old(machine.lastExec), machine.lastExec)
    {
      ghost var S0 := machine.states;
      start := machine.AddState(false);
      var i := 0;
      assert seq(i, k => Transition(k, [start])) == [];
      while i < 256
        invariant 0 <= i <= 256 && machine.Valid() && machine.startState == old(machine.startState)
        invariant machine.states == S0 + [State(false, seq(i, k => Transition(k, [start])))]
        modifies machine`states
      {
        machine.AddEdge(start, i, start);
        ScanStep(i, start);
        i := i + 1;
      }
      machine.AddEdge(start, Epsilon, entry);
      ScanLast(start, entry);
    }

    /** Wires the exit of the root's block `T` to the accepting state. */
    method RootExitPush(ghost S0: seq<State>, ghost T: seq<State>, ghost tail: seq<State>, from: nat, sym: int, a: nat)
      requires |T| > 0 && T[|T| - 1] == Blank && machine.Valid()
      requires machine.states == S0 + T + tail && from == |S0| + |T| - 1
      modifies machine`states
      ensures machine.states == S0 + (Wire(T, sym, [a]) + tail)
    {
      machine.AddEdge(from, sym, a);
      AddTargetFresh(sym, a, 0);
      assert (S0 + T + tail)[from] == Blank;
    }

    /**
     * `emit_node`: appends the block of node `node` (its operands' blocks
     * first) and pushes its entry and exit onto the stack.
     */
    method EmitNode(nodes: seq<Node>, node: nat)
      requires Postorder(nodes) && node < |nodes| && machine.Valid()
      modifies this, machine
      ensures machine.Valid() && machine.startState == old(machine.startState)
      ensures machine.states == old(machine.states) + Thompson(nodes, node, |old(machine.states)|)
      ensures nodeStack == old(nodeStack) + [NodeData(|machine.states| - 2, |machine.states| - 1)]
      ensures StampsExtended(old(machine.lastExec), machine.lastExec)
      decreases node, 1
    {
      if nodes[node].Atom? {
        ghost var S0 := machine.states;
        ghost var base: nat := |S0|;
        var c := nodes[node].c;
        ghost var L0 := machine.lastExec;
        var entry := machine.AddState(false);
        var exit := machine.AddState(false);
        assert machine.lastExec == L0 + [0] + [0];
        machine.AddEdge(entry, c as int, exit);
        AddTargetFresh(c as int, exit, 0);
        assert Thompson(nodes, node, base) == AtomBlock(c, base);
        assert machine.states == S0 + AtomBlock(c, base);
        nodeStack := nodeStack + [NodeData(entry, exit)];
      } else if nodes[node].Alt? || nodes[node].Cat? {
        EmitBinary(nodes, node);
      } else {
        EmitUnary(nodes, node);
      }
    }

    /** The alternation and concatenation cases of `emit_node`. */
    method EmitBinary(nodes: seq<Node>, node: nat)
      requires Postorder(nodes) && node < |nodes| && (nodes[node].Alt? || nodes[node].Cat?) && machine.Valid()
      modifies this, machine
      ensures machine.Valid() && machine.startState == old(machine.startState)
      ensures machine.states == old(machine.states) + BinaryNode(nodes, node, |old(machine.states)|)
      ensures nodeStack == old(nodeStack) + [NodeData(|machine.states| - 2, |machine.states| - 1)]
      ensures StampsExtended(old(machine.lastExec), machine.lastExec)
      decreases node, 0
    {
      ghost var S0, stack0, L0 := machine.states, nodeStack, machine.lastExec;
      ghost var base: nat := |S0|;
      EmitNode(nodes, nodes[node].first);
      ghost var L1 := machine.lastExec;
      ghost var L := Thompson(nodes, nodes[node].first, base);
      assert machine.states == S0 + L;
      EmitNode(nodes, nodes[node].second);
      StampsExtendedTrans(L0, L1, machine.lastExec);
      ghost var L2 := machine.lastExec;
      ghost var R := Thompson(nodes, nodes[node].second, base + |L|);
      assert machine.states == S0 + L + R;
      var rightData := nodeStack[|nodeStack| - 1];
      nodeStack := nodeStack[..|nodeStack| - 1];
      var leftData := nodeStack[|nodeStack| - 1];
      nodeStack := nodeStack[..|nodeStack| - 1];
      assert nodeStack == stack0;
      var entry, exit := WrapBinary(S0, L, R, nodes[node].Alt?, leftData, rightData);
      StampsExtendedTrans(L0, L2, machine.lastExec);
      BinaryUnfold(nodes, node, base, L, R);
      nodeStack := nodeStack + [NodeData(entry, exit)];
    }

    /**
     * The states an alternation (`alt`) or concatenation adds after its
     * operands' blocks `L` and `R`, whose entries and exits are `leftData`
     * and `rightData`.
     */
    method WrapBinary(ghost S0: seq<State>, ghost L: seq<State>, ghost R: seq<State>, alt: bool,
                      leftData: NodeData, rightData: NodeData) returns (entry: nat, exit: nat)
      requires |L| >= 2 && L[|L| - 1] == Blank && |R| >= 2 && R[|R| - 1] == Blank
      requires machine.Valid() && machine.states == S0 + L + R
      requires leftData == NodeData(|S0| + |L| - 2, |S0| + |L| - 1)
      requires rightData == NodeData(|machine.states| - 2, |machine.states| - 1)
      modifies machine
      ensures machine.Valid() && machine.startState == old(machine.startState)
      ensures machine.states == S0 + (if alt then AltBlock(L, R, |S0|) else CatBlock(L, R, |S0|))
      ensures entry == |machine.states| - 2 && exit == |machine.states| - 1
      ensures StampsExtended(old(machine.lastExec), machine.lastExec)
    {
      ghost var P := S0 + L + R;
      entry := machine.AddState(false);
      ghost var E := BinaryEntry(P, entry, alt, leftData.startState, rightData.startState);
      exit := machine.AddState(false);
      assert machine.lastExec == old(machine.lastExec) + [0] + [0];
      var leftTarget := if alt then exit else rightData.startState;
      ExitsPush(S0, L, R, E, leftData.acceptState, leftTarget, rightData.acceptState, exit);
      BinaryAssembled(S0, L, R, alt, E, leftTarget, exit);
    }

    /** Wires the entry of a binary node to its left operand, and to its right one for an alternation. */
    method BinaryEntry(ghost P: seq<State>, entry: nat, alt: bool, left: nat, right: nat) returns (ghost E: State)
      requires machine.Valid() && machine.states == P + [Blank] && entry == |P|
      modifies machine`states
      ensures E == EpsilonState(if alt then [left, right] else [left])
      ensures machine.states == P + [E]
    {
      EntryPush(P, entry, Epsilon, left);
      E := EpsilonState([left]);
      if alt {
        EntryPushAgain(P, entry, Epsilon, left, right);
        E := EpsilonState([left, right]);
      }
    }

    /** Wires the exits of the operands `L` and `R` of a binary node with entry `E`. */
    method ExitsPush(ghost S0: seq<State>, ghost L: seq<State>, ghost R: seq<State>, ghost E: State,
                     leftExit: nat, leftTarget: nat, rightExit: nat, exit: nat)
      requires |L| > 0 && L[|L| - 1] == Blank && |R| > 0 && R[|R| - 1] == Blank
      requires machine.Valid() && machine.states == S0 + L + R + [E] + [Blank]
      requires leftExit == |S0| + |L| - 1 && rightExit == |S0| + |L| + |R| - 1
      modifies machine`states
      ensures machine.states == S0 + (Wire(L, Epsilon, [leftTarget]) + Wire(R, Epsilon, [exit]) + [E, Blank])
    {
      ExitPushLeft(S0, L, R, E, leftExit, Epsilon, leftTarget);
      ghost var WL := Wire(L, Epsilon, [leftTarget]);
      ExitPush(S0 + WL, R, E, rightExit, Epsilon, exit);
      Regroup(S0, WL + Wire(R, Epsilon, [exit]), E);
    }

    /** The one-or-more, zero-or-more and optional cases of `emit_node`. */
    method EmitUnary(nodes: seq<Node>, node: nat)
      requires Postorder(nodes) && node < |nodes| && (nodes[node].Plus? || nodes[node].Star? || nodes[node].Opt?)
      requires machine.Valid()
      modifies this, machine
      ensures machine.Valid() && machine.startState == old(machine.startState)
      ensures machine.states == old(machine.states) + UnaryNode(nodes, node, |old(machine.states)|)
      ensures nodeStack == old(nodeStack) + [NodeData(|machine.states| - 2, |machine.states| - 1)]
      ensures StampsExtended(old(machine.lastExec), machine.lastExec)
      decreases node, 0
    {
      ghost var S0, stack0, L0 := machine.states, nodeStack, machine.lastExec;
      ghost var base: nat := |S0|;
      EmitNode(nodes, nodes[node].child);
      ghost var L1 := machine.lastExec;
      assert machine.states == S0 + Thompson(nodes, nodes[node].child, base);
      var data := nodeStack[|nodeStack| - 1];
      nodeStack := nodeStack[..|nodeStack| - 1];
      assert nodeStack == stack0;
      var entry, exit := WrapUnary(nodes, node, S0, data);
      StampsExtendedTrans(L0, L1, machine.lastExec);
      nodeStack := nodeStack + [NodeData(entry, exit)];
    }

    /**
     * The states a quantifier adds around its operand's block `C`, whose
     * entry and exit are `data`.
     */
    method WrapUnary(nodes: seq<Node>, node: nat, ghost S0: seq<State>, data: NodeData) returns (entry: nat, exit: nat)
      requires Postorder(nodes) && node < |nodes| && (nodes[node].Plus? || nodes[node].Star? || nodes[node].Opt?)
      requires machine.Valid()
      requires machine.states == S0 + Thompson(nodes, nodes[node].child, |S0|)
      requires data == NodeData(|machine.states| - 2, |machine.states| - 1)
      modifies machine
      ensures machine.Valid() && machine.startState == old(machine.startState)
      ensures machine.states == S0 + UnaryNode(nodes, node, |S0|)
      ensures entry == |machine.states| - 2 && exit == |machine.states| - 1
      ensures StampsExtended(old(machine.lastExec), machine.lastExec)
    {
      ghost var C := Thompson(nodes, nodes[node].child, |S0|);
      ghost var P := S0 + C;
      entry := machine.AddState(false);
      exit := machine.AddState(false);
      assert machine.lastExec == old(machine.lastExec) + [0] + [0];
      EntryPushBeforeExit(P, entry, Epsilon, data.startState);
      ghost var E, t;
      if nodes[node].Plus? {
        E := EpsilonState([data.startState]);
        ExitPush(S0, C, E, data.acceptState, Epsilon, data.startState);
        ExitPushAgain(S0, C, E, data.acceptState, Epsilon, data.startState, exit);
        t := [data.startState, exit];
      } else {
        EntryPushAgainBeforeExit(P, entry, Epsilon, data.startState, exit);
        E := EpsilonState([data.startState, exit]);
        var target := if nodes[node].Star? then entry else exit;
        ExitPush(S0, C, E, data.acceptState, Epsilon, target);
        t := [target];
      }
      Regroup(S0, Wire(C, Epsilon, t), E);
      UnaryUnfold(nodes, node, |S0|, C);
    }

    // Each `get(sym).futures.push_back(a)` the compiler performs, on the
    // arena as it stands at that point: `P` is everything before the node's
    // own states, `E` the node's entry once wired.

    /** The first target of a fresh entry, which is the last state. */
    method EntryPush(ghost P: seq<State>, from: nat, sym: int, a: nat)
      requires machine.Valid() && machine.states == P + [Blank] && from == |P|
      modifies machine`states
      ensures machine.states == P + [Edge(sym, [a])]
    {
      machine.AddEdge(from, sym, a);
      AddTargetFresh(sym, a, 0);
    }

    /** The second target of an entry that is the last state. */
    method EntryPushAgain(ghost P: seq<State>, from: nat, sym: int, a: nat, b: nat)
      requires machine.Valid() && machine.states == P + [Edge(sym, [a])] && from == |P|
      modifies machine`states
      ensures machine.states == P + [Edge(sym, [a, b])]
    {
      machine.AddEdge(from, sym, b);
      AddTargetFresh(sym, a, b);
    }

    /** The first target of a fresh entry that is followed by the fresh exit. */
    method EntryPushBeforeExit(ghost P: seq<State>, from: nat, sym: int, a: nat)
      requires machine.Valid() && machine.states == P + [Blank] + [Blank] && from == |P|
      modifies machine`states
      ensures machine.states == P + [Edge(sym, [a])] + [Blank]
    {
      machine.AddEdge(from, sym, a);
      AddTargetFresh(sym, a, 0);
    }

    /** The second target of an entry that is followed by the fresh exit. */
    method EntryPushAgainBeforeExit(ghost P: seq<State>, from: nat, sym: int, a: nat, b: nat)
      requires machine.Valid() && machine.states == P + [Edge(sym, [a])] + [Blank] && from == |P|
      modifies machine`states
      ensures machine.states == P + [Edge(sym, [a, b])] + [Blank]
    {
      machine.AddEdge(from, sym, b);
      AddTargetFresh(sym, a, b);
    }

    /** The exit of the left operand `B`, followed by the right operand `R`, the entry and the exit. */
    method ExitPushLeft(ghost A: seq<State>, ghost B: seq<State>, ghost R: seq<State>, ghost E: State, from: nat, sym: int, a: nat)
      requires machine.Valid() && machine.states == A + B + R + [E] + [Blank]
      requires |B| > 0 && B[|B| - 1] == Blank && from == |A| + |B| - 1
      modifies machine`states
      ensures machine.states == A + Wire(B, sym, [a]) + R + [E] + [Blank]
    {
      machine.AddEdge(from, sym, a);
      AddTargetFresh(sym, a, 0);
    }

    /** The exit of the operand `B` that directly precedes the entry and the exit. */
    method ExitPush(ghost A: seq<State>, ghost B: seq<State>, ghost E: State, from: nat, sym: int, a: nat)
      requires machine.Valid() && machine.states == A + B + [E] + [Blank]
      requires |B| > 0 && B[|B| - 1] == Blank && from == |A| + |B| - 1
      modifies machine`states
      ensures machine.states == A + Wire(B, sym, [a]) + [E] + [Blank]
    {
      machine.AddEdge(from, sym, a);
      AddTargetFresh(sym, a, 0);
    }

    /** A second target on that exit. */
    method ExitPushAgain(ghost A: seq<State>, ghost B: seq<State>, ghost E: State, from: nat, sym: int, a: nat, b: nat)
      requires |B| > 0 && machine.Valid() && machine.states == A + Wire(B, sym, [a]) + [E] + [Blank]
      requires from == |A| + |B| - 1
      modifies machine`states
      ensures machine.states == A + Wire(B, sym, [a, b]) + [E] + [Blank]
    {
      machine.AddEdge(from, sym, b);
      AddTargetFresh(sym, a, b);
    }
  }
}
