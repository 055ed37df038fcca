/**
 * The parse tree of a pattern (the `Node` and `ParseTree` records of src/regex.cpp).
 *
 * Nodes live in an append-only arena and refer to their operands by index.
 * The C union of two child indices and a character becomes one constructor
 * per node kind.
 */
module Syntax {

  datatype Node =
    | Alt(first: nat, second: nat)   // first | second
    | Cat(first: nat, second: nat)   // first second
    | Plus(child: nat)               // child+
    | Star(child: nat)               // child*
    | Opt(child: nat)                // child?
    | Atom(c: char)                  // one literal character

  /** Every operand index of `n` lies in [lo, hi). */
  predicate ChildrenIn(n: Node, lo: nat, hi: nat) {
    match n
    case Alt(f, s) => lo <= f < hi && lo <= s < hi
    case Cat(f, s) => lo <= f < hi && lo <= s < hi
    case Plus(c) => lo <= c < hi
    case Star(c) => lo <= c < hi
    case Opt(c) => lo <= c < hi
    case Atom(_) => true
  }

  /**
   * The nodes from index `lo` on refer only to nodes that are at least `lo`
   * and strictly before themselves.
   */
  predicate Fragment(nodes: seq<Node>, lo: nat) {
    forall i | lo <= i < |nodes| :: ChildrenIn(nodes[i], lo, i)
  }

  /** Children always come before their parent. */
  predicate Postorder(nodes: seq<Node>) {
    Fragment(nodes, 0)
  }

  /**
   * The nodes in [lo, hi) form exactly one tree, laid out in postorder, whose
   * root is the node at hi - 1.
   */
  predicate Spans(nodes: seq<Node>, lo: nat, hi: nat)
    decreases hi - lo
  {
    lo < hi <= |nodes| &&
    match nodes[hi - 1]
    case Atom(_) => hi == lo + 1
    case Plus(c) => c == hi - 2 && Spans(nodes, lo, hi - 1)
    case Star(c) => c == hi - 2 && Spans(nodes, lo, hi - 1)
    case Opt(c) => c == hi - 2 && Spans(nodes, lo, hi - 1)
    case Alt(f, s) => s == hi - 2 && lo <= f < s && Spans(nodes, lo, f + 1) && Spans(nodes, f + 1, hi - 1)
    case Cat(f, s) => s == hi - 2 && lo <= f < s && Spans(nodes, lo, f + 1) && Spans(nodes, f + 1, hi - 1)
  }

  /** Appending nodes does not disturb a tree that is already complete. */
  lemma {:induction false} SpansExtend(nodes: seq<Node>, more: seq<Node>, lo: nat, hi: nat)
    requires Spans(nodes, lo, hi)
    ensures Spans(nodes + more, lo, hi)
    decreases hi - lo
  {
    assert (nodes + more)[hi - 1] == nodes[hi - 1];
    match nodes[hi - 1]
    case Atom(_) =>
    case Plus(c) => SpansExtend(nodes, more, lo, hi - 1);
    case Star(c) => SpansExtend(nodes, more, lo, hi - 1);
    case Opt(c) => SpansExtend(nodes, more, lo, hi - 1);
    case Alt(f, s) => SpansExtend(nodes, more, lo, f + 1); SpansExtend(nodes, more, f + 1, hi - 1);
    case Cat(f, s) => SpansExtend(nodes, more, lo, f + 1); SpansExtend(nodes, more, f + 1, hi - 1);
  }

  /** A tree laid out in postorder refers only to nodes inside it. */
  lemma {:induction false} SpansFragment(nodes: seq<Node>, lo: nat, hi: nat)
    requires Spans(nodes, lo, hi)
    ensures Fragment(nodes[..hi], lo)
    decreases hi - lo
  {
    var n := nodes[hi - 1];
    if n.Alt? || n.Cat? {
      SpansFragment(nodes, lo, n.first + 1);
      SpansFragment(nodes, n.first + 1, hi - 1);
    } else if !n.Atom? {
      SpansFragment(nodes, lo, hi - 1);
    }
  }

  /**
   * Two complete trees side by side, the second directly after the first,
   * joined by a binary node appended after both, form one tree.
   */
  lemma SpansJoin(nodes: seq<Node>, ext: seq<Node>, lo: nat, n: Node)
    requires Spans(nodes, lo, |nodes|) && nodes <= ext && Spans(ext, |nodes|, |ext|)
    requires n == Alt(|nodes| - 1, |ext| - 1) || n == Cat(|nodes| - 1, |ext| - 1)
    ensures Spans(ext + [n], lo, |ext| + 1)
  {
    SpansExtend(nodes, ext[|nodes|..] + [n], lo, |nodes|);
    assert nodes + (ext[|nodes|..] + [n]) == ext + [n];
    SpansExtend(ext, [n], |nodes|, |ext|);
  }
}
