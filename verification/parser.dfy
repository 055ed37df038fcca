/**
 * The recursive-descent pattern parser (`Parser` in src/regex.cpp).
 *
 * The grammar levels are, from loosest to tightest binding: alternation `|`,
 * concatenation, one postfix quantifier `?` `*` `+`, and a unit (a letter,
 * digit or `_`, or a parenthesised group). A leading `^` and a `$` that ends
 * the pattern set the two anchor flags.
 *
 * The pure functions below are the reference semantics: each takes the
 * pattern, the cursor and the node arena and gives back the success flag,
 * the new cursor and the new arena, exactly as the C++ member of the same
 * level leaves them (including what a failed call has already consumed and
 * appended). The class `Parser` is the imperative parser; each of its
 * methods is proved to have the effect of its reference function.
 *
 * The parameter `rejectPartial` selects the corrected concatenation loop: as
 * written (false), a unit that fails after consuming input merely ends the
 * concatenation; corrected (true), it fails the concatenation.
 */
module Parsing {
  import opened Syntax

  /** The character under the cursor; at the end of the pattern it is the terminator '\0'. */
  function Peek(p: seq<char>, pos: nat): char {
    if pos < |p| then p[pos] else '\0'
  }

  /** Letters, digits and `_` (the C locale's isalpha/isdigit). */
  predicate IsWordChar(c: char) {
    'a' <= c <= 'z' || 'A' <= c <= 'Z' || '0' <= c <= '9' || c == '_'
  }

  /** The cursor is at a character that cannot start a unit. */
  predicate Stops(p: seq<char>, pos: nat) {
    !IsWordChar(Peek(p, pos)) && Peek(p, pos) != '('
  }

  /** What a parse function leaves behind: success, cursor and arena. */
  datatype Outcome = Outcome(ok: bool, pos: nat, nodes: seq<Node>)

  function Group(p: seq<char>, pos: nat, nodes: seq<Node>, rejectPartial: bool): (r: Outcome)
    requires pos <= |p|
    ensures pos <= r.pos <= |p| && nodes <= r.nodes
    ensures r.ok ==> pos < r.pos && |nodes| < |r.nodes|
    ensures !r.ok && r.pos == pos ==> r.nodes == nodes
    decreases |p| - pos, 0
  {
    if Peek(p, pos) != '(' then Outcome(false, pos, nodes)
    else
      var inner := Alternation(p, pos + 1, nodes, rejectPartial);
      if !inner.ok then inner
      else if Peek(p, inner.pos) != ')' then inner.(ok := false)
      else inner.(pos := inner.pos + 1)
  }

  function Unit(p: seq<char>, pos: nat, nodes: seq<Node>, rejectPartial: bool): (r: Outcome)
    requires pos <= |p|
    ensures pos <= r.pos <= |p| && nodes <= r.nodes
    ensures r.ok ==> pos < r.pos && |nodes| < |r.nodes|
    ensures !r.ok && r.pos == pos ==> r.nodes == nodes
    ensures (!r.ok && r.pos == pos) <==> Stops(p, pos)
    decreases |p| - pos, 1
  {
    var c := Peek(p, pos);
    if IsWordChar(c) then Outcome(true, pos + 1, nodes + [Atom(c)])
    else if c == '(' then Group(p, pos, nodes, rejectPartial)
    else Outcome(false, pos, nodes)
  }

  function Quantified(p: seq<char>, pos: nat, nodes: seq<Node>, rejectPartial: bool): (r: Outcome)
    requires pos <= |p|
    ensures pos <= r.pos <= |p| && nodes <= r.nodes
    ensures r.ok ==> pos < r.pos && |nodes| < |r.nodes|
    ensures !r.ok && r.pos == pos ==> r.nodes == nodes
    ensures (!r.ok && r.pos == pos) <==> Stops(p, pos)
    decreases |p| - pos, 2
  {
    var u := Unit(p, pos, nodes, rejectPartial);
    if !u.ok then u
    else
      var first := |u.nodes| - 1;
      var q := Peek(p, u.pos);
      if q == '?' then Outcome(true, u.pos + 1, u.nodes + [Opt(first)])
      else if q == '*' then Outcome(true, u.pos + 1, u.nodes + [Star(first)])
      else if q == '+' then Outcome(true, u.pos + 1, u.nodes + [Plus(first)])
      else u
  }

  /** The `while (parse_quantifier())` loop, with `first` the left operand so far. */
  function ConcatLoop(p: seq<char>, pos: nat, nodes: seq<Node>, first: nat, rejectPartial: bool): (r: Outcome)
    requires pos <= |p|
    ensures pos <= r.pos <= |p| && nodes <= r.nodes
    ensures !r.ok && r.pos == pos ==> r.nodes == nodes
    decreases |p| - pos, 3
  {
    var q := Quantified(p, pos, nodes, rejectPartial);
    if !q.ok then
      if rejectPartial && q.pos != pos then q else q.(ok := true)
    else
      var joined := q.nodes + [Cat(first, |q.nodes| - 1)];
      ConcatLoop(p, q.pos, joined, |joined| - 1, rejectPartial)
  }

  function Concatenation(p: seq<char>, pos: nat, nodes: seq<Node>, rejectPartial: bool): (r: Outcome)
    requires pos <= |p|
    ensures pos <= r.pos <= |p| && nodes <= r.nodes
    ensures r.ok ==> pos < r.pos && |nodes| < |r.nodes|
    ensures !r.ok && r.pos == pos ==> r.nodes == nodes
    decreases |p| - pos, 4
  {
    var q := Quantified(p, pos, nodes, rejectPartial);
    if !q.ok then q else ConcatLoop(p, q.pos, q.nodes, |q.nodes| - 1, rejectPartial)
  }

  /** The `while (*pointer == '|')` loop, with `first` the left operand so far. */
  function AltLoop(p: seq<char>, pos: nat, nodes: seq<Node>, first: nat, rejectPartial: bool): (r: Outcome)
    requires pos <= |p|
    ensures pos <= r.pos <= |p| && nodes <= r.nodes
    ensures !r.ok && r.pos == pos ==> r.nodes == nodes
    decreases |p| - pos, 5
  {
    if Peek(p, pos) != '|' then Outcome(true, pos, nodes)
    else
      var c := Concatenation(p, pos + 1, nodes, rejectPartial);
      if !c.ok then c
      else
        var joined := c.nodes + [Alt(first, |c.nodes| - 1)];
        AltLoop(p, c.pos, joined, |joined| - 1, rejectPartial)
  }

  function Alternation(p: seq<char>, pos: nat, nodes: seq<Node>, rejectPartial: bool): (r: Outcome)
    requires pos <= |p|
    ensures pos <= r.pos <= |p| && nodes <= r.nodes
    ensures r.ok ==> pos < r.pos && |nodes| < |r.nodes|
    ensures !r.ok && r.pos == pos ==> r.nodes == nodes
    decreases |p| - pos, 6
  {
    var c := Concatenation(p, pos, nodes, rejectPartial);
    if !c.ok then c else AltLoop(p, c.pos, c.nodes, |c.nodes| - 1, rejectPartial)
  }

  /** The parse tree as a value: the node arena and the two anchor flags. */
  datatype Tree = Tree(nodes: seq<Node>, beginAnchored: bool, endAnchored: bool)

  datatype Parsed = Parsed(ok: bool, pos: nat, tree: Tree)

  /** The top-level loop of build_parse_tree, after the optional `^`. */
  function Body(p: seq<char>, pos: nat, nodes: seq<Node>, begin: bool, rejectPartial: bool): (r: Parsed)
    requires pos <= |p|
    ensures pos <= r.pos <= |p| && nodes <= r.tree.nodes && r.tree.beginAnchored == begin
    decreases |p| - pos
  {
    var c := Peek(p, pos);
    if c == '\0' then Parsed(true, pos, Tree(nodes, begin, false))
    else if c == '$' then Parsed(true, pos + 1, Tree(nodes, begin, true))
    else
      var a := Alternation(p, pos, nodes, rejectPartial);
      if !a.ok then Parsed(false, a.pos, Tree(a.nodes, begin, false))
      else Body(p, a.pos, a.nodes, begin, rejectPartial)
  }

  /** build_parse_tree on a fresh parser and an empty tree. */
  function ParsePattern(p: seq<char>, rejectPartial: bool): (r: Parsed)
    ensures r.pos <= |p|
    ensures r.tree.beginAnchored <==> |p| > 0 && p[0] == '^'
  {
    var begin := Peek(p, 0) == '^';
    Body(p, if begin then 1 else 0, [], begin, rejectPartial)
  }

  // ---------------------------------------------------------------------
  // Units, quantifiers and anchors
  // ---------------------------------------------------------------------

  /**
   * A unit that succeeds consumes either one word character, appending one
   * atom that holds it, or a parenthesised group of at least two characters.
   */
  lemma UnitShape(p: seq<char>, pos: nat, nodes: seq<Node>, rp: bool)
    requires pos <= |p|
    ensures var r := Unit(p, pos, nodes, rp);
      (r.ok && r.pos == pos + 1 <==> IsWordChar(Peek(p, pos))) &&
      (r.ok && r.pos == pos + 1 ==> r.nodes == nodes + [Atom(p[pos])]) &&
      (r.ok && r.pos != pos + 1 ==> pos + 2 <= r.pos && p[pos] == '(' && p[r.pos - 1] == ')')
  {
    if Peek(p, pos) == '(' {
      var inner := Alternation(p, pos + 1, nodes, rp);
      assert inner.ok ==> pos + 1 < inner.pos;
    }
  }

  /**
   * A quantified unit whose last character is a quantifier is the unit
   * followed by that quantifier, and it adds exactly the matching
   * quantifier node, wrapping the node just before it; the character before
   * the quantifier is not itself a quantifier, so at most one is consumed.
   * A quantified unit that does not end with a quantifier is the unit
   * alone, and no quantifier follows it: a quantifier right after a unit
   * is always consumed.
   */
  lemma QuantifierShape(p: seq<char>, pos: nat, nodes: seq<Node>, rp: bool)
    requires pos <= |p|
    ensures var r := Quantified(p, pos, nodes, rp); var u := Unit(p, pos, nodes, rp); var n := |r.nodes|;
      (r.ok ==> u.ok) &&
      (r.ok && p[r.pos - 1] in "?*+" ==>
        r.pos == u.pos + 1 && r.nodes[..n - 1] == u.nodes &&
        pos + 2 <= r.pos && p[r.pos - 2] !in "?*+" && |nodes| + 2 <= n &&
        (p[r.pos - 1] == '?' ==> r.nodes[n - 1] == Opt(n - 2)) &&
        (p[r.pos - 1] == '*' ==> r.nodes[n - 1] == Star(n - 2)) &&
        (p[r.pos - 1] == '+' ==> r.nodes[n - 1] == Plus(n - 2))) &&
      (r.ok && p[r.pos - 1] !in "?*+" ==> r == u && Peek(p, r.pos) !in "?*+")
  {
    UnitShape(p, pos, nodes, rp);
  }

  /**
   * The end anchor is set exactly when the parse stopped right after a `$`;
   * a parse that succeeds without it has reached the terminator.
   */
  lemma {:induction false} BodyAnchors(p: seq<char>, pos: nat, nodes: seq<Node>, begin: bool, rp: bool)
    requires pos <= |p|
    ensures var r := Body(p, pos, nodes, begin, rp);
      (r.tree.endAnchored ==> r.ok && pos < r.pos && p[r.pos - 1] == '$') &&
      (r.ok && !r.tree.endAnchored ==> Peek(p, r.pos) == '\0')
    decreases |p| - pos
  {
    var c := Peek(p, pos);
    if c != '\0' && c != '$' {
      var a := Alternation(p, pos, nodes, rp);
      if a.ok {
        BodyAnchors(p, a.pos, a.nodes, begin, rp);
      }
    }
  }

  /** The anchors of a whole pattern: `^` only in front, `$` where parsing stopped. */
  lemma ParseAnchors(p: seq<char>, rp: bool)
    ensures var r := ParsePattern(p, rp);
      (r.tree.beginAnchored <==> |p| > 0 && p[0] == '^') &&
      (r.tree.endAnchored ==> r.ok && 0 < r.pos && p[r.pos - 1] == '$') &&
      (r.ok && !r.tree.endAnchored ==> Peek(p, r.pos) == '\0')
  {
    var begin := Peek(p, 0) == '^';
    BodyAnchors(p, if begin then 1 else 0, [], begin, rp);
  }

  // ---------------------------------------------------------------------
  // The text after a top-level `$` is ignored: each parse function reads
  // the pattern only up to the cursor it stops at, so two patterns that
  // agree up to there parse alike.
  // ---------------------------------------------------------------------

  /** `p` and `q` show the same characters (or the terminator) at the cursors 0..hi. */
  predicate Agree(p: seq<char>, q: seq<char>, hi: nat) {
    forall j: nat {:trigger Peek(p, j)} | j <= hi :: Peek(p, j) == Peek(q, j)
  }

  lemma {:induction false} GroupAgree(p: seq<char>, q: seq<char>, hi: nat, pos: nat, nodes: seq<Node>, rp: bool)
    requires pos <= |p| && Group(p, pos, nodes, rp).pos <= hi <= |q| && Agree(p, q, hi)
    ensures Group(q, pos, nodes, rp) == Group(p, pos, nodes, rp)
    decreases |p| - pos, 0
  {
    if Peek(p, pos) == '(' {
      AlternationAgree(p, q, hi, pos + 1, nodes, rp);
    }
  }

  lemma {:induction false} UnitAgree(p: seq<char>, q: seq<char>, hi: nat, pos: nat, nodes: seq<Node>, rp: bool)
    requires pos <= |p| && Unit(p, pos, nodes, rp).pos <= hi <= |q| && Agree(p, q, hi)
    ensures Unit(q, pos, nodes, rp) == Unit(p, pos, nodes, rp)
    decreases |p| - pos, 1
  {
    if Peek(p, pos) == '(' {
      GroupAgree(p, q, hi, pos, nodes, rp);
    }
  }

  lemma {:induction false} QuantifiedAgree(p: seq<char>, q: seq<char>, hi: nat, pos: nat, nodes: seq<Node>, rp: bool)
    requires pos <= |p| && Quantified(p, pos, nodes, rp).pos <= hi <= |q| && Agree(p, q, hi)
    ensures Quantified(q, pos, nodes, rp) == Quantified(p, pos, nodes, rp)
    decreases |p| - pos, 2
  {
    UnitAgree(p, q, hi, pos, nodes, rp);
  }

  lemma {:induction false} ConcatLoopAgree(p: seq<char>, q: seq<char>, hi: nat, pos: nat, nodes: seq<Node>, first: nat, rp: bool)
    requires pos <= |p| && ConcatLoop(p, pos, nodes, first, rp).pos <= hi <= |q| && Agree(p, q, hi)
    ensures ConcatLoop(q, pos, nodes, first, rp) == ConcatLoop(p, pos, nodes, first, rp)
    decreases |p| - pos, 3
  {
    var r := Quantified(p, pos, nodes, rp);
    ConcatLoopReads(p, pos, nodes, first, rp, r, ConcatLoop(p, pos, nodes, first, rp));
    QuantifiedAgree(p, q, hi, pos, nodes, rp);
    if r.ok {
      var joined := r.nodes + [Cat(first, |r.nodes| - 1)];
      ConcatLoopAgree(p, q, hi, r.pos, joined, |joined| - 1, rp);
    }
    ConcatLoopFrom(p, q, pos, nodes, first, rp, r);
  }

  /** The factor of a round of the concatenation loop, and the rest of the loop, stop where the loop stops. */
  lemma ConcatLoopReads(p: seq<char>, pos: nat, nodes: seq<Node>, first: nat, rp: bool, r: Outcome, R: Outcome)
    requires pos <= |p| && r == Quantified(p, pos, nodes, rp) && R == ConcatLoop(p, pos, nodes, first, rp)
    ensures r.pos <= R.pos
    ensures r.ok ==> (|r.nodes| > 0 &&
      ConcatLoop(p, r.pos, r.nodes + [Cat(first, |r.nodes| - 1)], |r.nodes + [Cat(first, |r.nodes| - 1)]| - 1, rp) == R)
  {
  }

  /** One round of the concatenation loop reads what its factor and the rest of the loop read. */
  lemma ConcatLoopFrom(p: seq<char>, q: seq<char>, pos: nat, nodes: seq<Node>, first: nat, rp: bool, r: Outcome)
    requires pos <= |p| && pos <= |q| && r == Quantified(p, pos, nodes, rp) && Quantified(q, pos, nodes, rp) == r
    requires r.ok ==> (|r.nodes| > 0 && r.pos <= |q| &&
      ConcatLoop(q, r.pos, r.nodes + [Cat(first, |r.nodes| - 1)], |r.nodes + [Cat(first, |r.nodes| - 1)]| - 1, rp) ==
      ConcatLoop(p, r.pos, r.nodes + [Cat(first, |r.nodes| - 1)], |r.nodes + [Cat(first, |r.nodes| - 1)]| - 1, rp))
    ensures ConcatLoop(q, pos, nodes, first, rp) == ConcatLoop(p, pos, nodes, first, rp)
  {
  }

  lemma {:induction false} ConcatenationAgree(p: seq<char>, q: seq<char>, hi: nat, pos: nat, nodes: seq<Node>, rp: bool)
    requires pos <= |p| && Concatenation(p, pos, nodes, rp).pos <= hi <= |q| && Agree(p, q, hi)
    ensures Concatenation(q, pos, nodes, rp) == Concatenation(p, pos, nodes, rp)
    decreases |p| - pos, 4
  {
    var r := Quantified(p, pos, nodes, rp);
    ConcatenationReads(p, pos, nodes, rp, r, Concatenation(p, pos, nodes, rp));
    QuantifiedAgree(p, q, hi, pos, nodes, rp);
    if r.ok {
      ConcatLoopAgree(p, q, hi, r.pos, r.nodes, |r.nodes| - 1, rp);
    }
    ConcatenationFrom(p, q, pos, nodes, rp, r);
  }

  lemma ConcatenationReads(p: seq<char>, pos: nat, nodes: seq<Node>, rp: bool, r: Outcome, R: Outcome)
    requires pos <= |p| && r == Quantified(p, pos, nodes, rp) && R == Concatenation(p, pos, nodes, rp)
    ensures r.pos <= R.pos
    ensures r.ok ==> (|r.nodes| > 0 && ConcatLoop(p, r.pos, r.nodes, |r.nodes| - 1, rp) == R)
  {
  }

  lemma ConcatenationFrom(p: seq<char>, q: seq<char>, pos: nat, nodes: seq<Node>, rp: bool, r: Outcome)
    requires pos <= |p| && pos <= |q| && r == Quantified(p, pos, nodes, rp) && Quantified(q, pos, nodes, rp) == r
    requires r.ok ==> (|r.nodes| > 0 && r.pos <= |q| &&
      ConcatLoop(q, r.pos, r.nodes, |r.nodes| - 1, rp) == ConcatLoop(p, r.pos, r.nodes, |r.nodes| - 1, rp))
    ensures Concatenation(q, pos, nodes, rp) == Concatenation(p, pos, nodes, rp)
  {
  }

  lemma {:induction false} AltLoopAgree(p: seq<char>, q: seq<char>, hi: nat, pos: nat, nodes: seq<Node>, first: nat, rp: bool)
    requires pos <= |p| && AltLoop(p, pos, nodes, first, rp).pos <= hi <= |q| && Agree(p, q, hi)
    ensures AltLoop(q, pos, nodes, first, rp) == AltLoop(p, pos, nodes, first, rp)
    decreases |p| - pos, 5, 1
  {
    if Peek(p, pos) == '|' {
      AltRoundAgree(p, q, hi, pos, nodes, first, rp, AltLoop(p, pos, nodes, first, rp));
    } else {
      assert Peek(q, pos) != '|';
    }
  }

  /** A round of the alternation loop that reads a `|`. */
  lemma {:induction false} AltRoundAgree(p: seq<char>, q: seq<char>, hi: nat, pos: nat, nodes: seq<Node>, first: nat, rp: bool, R: Outcome)
    requires pos < |p| && p[pos] == '|' && R == AltLoop(p, pos, nodes, first, rp)
    requires R.pos <= hi <= |q| && Agree(p, q, hi)
    ensures AltLoop(q, pos, nodes, first, rp) == R
    decreases |p| - pos, 5, 0
  {
    var c := Concatenation(p, pos + 1, nodes, rp);
    AltLoopReads(p, pos, nodes, first, rp, c, R);
    ConcatenationAgree(p, q, hi, pos + 1, nodes, rp);
    if c.ok {
      var joined := c.nodes + [Alt(first, |c.nodes| - 1)];
      AltLoopAgree(p, q, hi, c.pos, joined, |joined| - 1, rp);
    }
    assert Peek(p, pos) == Peek(q, pos);
    AltLoopFrom(p, q, pos, nodes, first, rp, c);
  }

  /** The operand of a round of the alternation loop, and the rest of the loop, stop where the loop stops. */
  lemma AltLoopReads(p: seq<char>, pos: nat, nodes: seq<Node>, first: nat, rp: bool, c: Outcome, R: Outcome)
    requires pos < |p| && p[pos] == '|'
    requires c == Concatenation(p, pos + 1, nodes, rp) && R == AltLoop(p, pos, nodes, first, rp)
    ensures c.pos <= R.pos
    ensures c.ok ==> (|c.nodes| > 0 &&
      AltLoop(p, c.pos, c.nodes + [Alt(first, |c.nodes| - 1)], |c.nodes + [Alt(first, |c.nodes| - 1)]| - 1, rp) == R)
  {
  }

  /** One round of the alternation loop reads the `|`, what its operand reads and what the rest of the loop reads. */
  lemma AltLoopFrom(p: seq<char>, q: seq<char>, pos: nat, nodes: seq<Node>, first: nat, rp: bool, c: Outcome)
    requires pos < |p| && p[pos] == '|' && pos < |q| && q[pos] == '|'
    requires c == Concatenation(p, pos + 1, nodes, rp) && Concatenation(q, pos + 1, nodes, rp) == c
    requires c.ok ==> (|c.nodes| > 0 && c.pos <= |q| &&
      AltLoop(q, c.pos, c.nodes + [Alt(first, |c.nodes| - 1)], |c.nodes + [Alt(first, |c.nodes| - 1)]| - 1, rp) ==
      AltLoop(p, c.pos, c.nodes + [Alt(first, |c.nodes| - 1)], |c.nodes + [Alt(first, |c.nodes| - 1)]| - 1, rp))
    ensures AltLoop(q, pos, nodes, first, rp) == AltLoop(p, pos, nodes, first, rp)
  {
  }

  lemma {:induction false} AlternationAgree(p: seq<char>, q: seq<char>, hi: nat, pos: nat, nodes: seq<Node>, rp: bool)
    requires pos <= |p| && Alternation(p, pos, nodes, rp).pos <= hi <= |q| && Agree(p, q, hi)
    ensures Alternation(q, pos, nodes, rp) == Alternation(p, pos, nodes, rp)
    decreases |p| - pos, 6
  {
    var c := Concatenation(p, pos, nodes, rp);
    AlternationReads(p, pos, nodes, rp, c, Alternation(p, pos, nodes, rp));
    ConcatenationAgree(p, q, hi, pos, nodes, rp);
    if c.ok {
      AltLoopAgree(p, q, hi, c.pos, c.nodes, |c.nodes| - 1, rp);
    }
    AlternationFrom(p, q, pos, nodes, rp, c);
  }

  lemma AlternationReads(p: seq<char>, pos: nat, nodes: seq<Node>, rp: bool, c: Outcome, R: Outcome)
    requires pos <= |p| && c == Concatenation(p, pos, nodes, rp) && R == Alternation(p, pos, nodes, rp)
    ensures c.pos <= R.pos
    ensures c.ok ==> (|c.nodes| > 0 && AltLoop(p, c.pos, c.nodes, |c.nodes| - 1, rp) == R)
  {
  }

  lemma AlternationFrom(p: seq<char>, q: seq<char>, pos: nat, nodes: seq<Node>, rp: bool, c: Outcome)
    requires pos <= |p| && pos <= |q| && c == Concatenation(p, pos, nodes, rp) && Concatenation(q, pos, nodes, rp) == c
    requires c.ok ==> (|c.nodes| > 0 && c.pos <= |q| &&
      AltLoop(q, c.pos, c.nodes, |c.nodes| - 1, rp) == AltLoop(p, c.pos, c.nodes, |c.nodes| - 1, rp))
    ensures Alternation(q, pos, nodes, rp) == Alternation(p, pos, nodes, rp)
  {
  }

  /**
   * A top-level loop that stops at a `$` reads the pattern only up to that
   * `$`.
   */
  lemma {:induction false} BodyAgree(p: seq<char>, q: seq<char>, hi: nat, pos: nat, nodes: seq<Node>, begin: bool, rp: bool)
    requires pos <= |p| && Body(p, pos, nodes, begin, rp).tree.endAnchored
    requires Body(p, pos, nodes, begin, rp).pos <= hi + 1 && hi <= |q| && Agree(p, q, hi)
    ensures Body(q, pos, nodes, begin, rp) == Body(p, pos, nodes, begin, rp)
    decreases |p| - pos
  {
    var c := Peek(p, pos);
    if c != '\0' && c != '$' {
      var a := Alternation(p, pos, nodes, rp);
      BodyAnchors(p, a.pos, a.nodes, begin, rp);
      AlternationAgree(p, q, hi, pos, nodes, rp);
      BodyAgree(p, q, hi, a.pos, a.nodes, begin, rp);
    }
  }

  /**
   * Once a top-level `$` ends the parse, the rest of the pattern is ignored:
   * any text may follow the `$` and the parse, the tree and both anchors
   * come out the same.
   */
  lemma EndAnchorIgnoresRest(p: seq<char>, rest: seq<char>, rp: bool)
    requires ParsePattern(p, rp).tree.endAnchored
    ensures var r := ParsePattern(p, rp); ParsePattern(p[..r.pos] + rest, rp) == r
  {
    var r := ParsePattern(p, rp);
    var q := p[..r.pos] + rest;
    ParseAnchors(p, rp);
    var begin := Peek(p, 0) == '^';
    assert Agree(p, q, r.pos - 1) by {
      forall j: nat | j <= r.pos - 1 ensures Peek(p, j) == Peek(q, j) {
        assert q[j] == p[j];
      }
    }
    BodyAgree(p, q, r.pos - 1, if begin then 1 else 0, [], begin, rp);
  }

  // ---------------------------------------------------------------------
  // Postorder: every node the parser appends refers only to nodes appended
  // before it by the same call (and hence to smaller indices).
  // ---------------------------------------------------------------------

  lemma FragmentAppend(nodes: seq<Node>, lo: nat, n: Node)
    requires Fragment(nodes, lo) && ChildrenIn(n, lo, |nodes|)
    ensures Fragment(nodes + [n], lo)
  {
  }

  lemma {:induction false} GroupFragment(p: seq<char>, pos: nat, nodes: seq<Node>, rp: bool, lo: nat)
    requires pos <= |p| && lo <= |nodes| && Fragment(nodes, lo)
    ensures Fragment(Group(p, pos, nodes, rp).nodes, lo)
    decreases |p| - pos, 0
  {
    if Peek(p, pos) == '(' {
      AlternationFragment(p, pos + 1, nodes, rp, lo);
    }
  }

  lemma {:induction false} UnitFragment(p: seq<char>, pos: nat, nodes: seq<Node>, rp: bool, lo: nat)
    requires pos <= |p| && lo <= |nodes| && Fragment(nodes, lo)
    ensures Fragment(Unit(p, pos, nodes, rp).nodes, lo)
    decreases |p| - pos, 1
  {
    var c := Peek(p, pos);
    if IsWordChar(c) {
      FragmentAppend(nodes, lo, Atom(c));
    } else if c == '(' {
      GroupFragment(p, pos, nodes, rp, lo);
    }
  }

  lemma {:induction false} QuantifiedFragment(p: seq<char>, pos: nat, nodes: seq<Node>, rp: bool, lo: nat)
    requires pos <= |p| && lo <= |nodes| && Fragment(nodes, lo)
    ensures Fragment(Quantified(p, pos, nodes, rp).nodes, lo)
    decreases |p| - pos, 2
  {
    UnitFragment(p, pos, nodes, rp, lo);
    var u := Unit(p, pos, nodes, rp);
    if u.ok {
      var first := |u.nodes| - 1;
      FragmentAppend(u.nodes, lo, Opt(first));
      FragmentAppend(u.nodes, lo, Star(first));
      FragmentAppend(u.nodes, lo, Plus(first));
    }
  }

  lemma {:induction false} ConcatLoopFragment(p: seq<char>, pos: nat, nodes: seq<Node>, first: nat, rp: bool, lo: nat)
    requires pos <= |p| && lo <= first < |nodes| && Fragment(nodes, lo)
    ensures Fragment(ConcatLoop(p, pos, nodes, first, rp).nodes, lo)
    decreases |p| - pos, 3
  {
    QuantifiedFragment(p, pos, nodes, rp, lo);
    var q := Quantified(p, pos, nodes, rp);
    if q.ok {
      var joined := q.nodes + [Cat(first, |q.nodes| - 1)];
      FragmentAppend(q.nodes, lo, Cat(first, |q.nodes| - 1));
      ConcatLoopFragment(p, q.pos, joined, |joined| - 1, rp, lo);
    }
  }

  lemma {:induction false} ConcatenationFragment(p: seq<char>, pos: nat, nodes: seq<Node>, rp: bool, lo: nat)
    requires pos <= |p| && lo <= |nodes| && Fragment(nodes, lo)
    ensures Fragment(Concatenation(p, pos, nodes, rp).nodes, lo)
    decreases |p| - pos, 4
  {
    QuantifiedFragment(p, pos, nodes, rp, lo);
    var q := Quantified(p, pos, nodes, rp);
    if q.ok {
      ConcatLoopFragment(p, q.pos, q.nodes, |q.nodes| - 1, rp, lo);
    }
  }

  lemma {:induction false} AltLoopFragment(p: seq<char>, pos: nat, nodes: seq<Node>, first: nat, rp: bool, lo: nat)
    requires pos <= |p| && lo <= first < |nodes| && Fragment(nodes, lo)
    ensures Fragment(AltLoop(p, pos, nodes, first, rp).nodes, lo)
    decreases |p| - pos, 5
  {
    if Peek(p, pos) == '|' {
      ConcatenationFragment(p, pos + 1, nodes, rp, lo);
      var c := Concatenation(p, pos + 1, nodes, rp);
      if c.ok {
        var joined := c.nodes + [Alt(first, |c.nodes| - 1)];
        FragmentAppend(c.nodes, lo, Alt(first, |c.nodes| - 1));
        AltLoopFragment(p, c.pos, joined, |joined| - 1, rp, lo);
      }
    }
  }

  /**
   * Whatever an alternation appends, successful or not, refers only to nodes
   * it appended itself, each operand strictly before its parent. With
   * lo == 0 this is the postorder invariant of the whole arena.
   */
  lemma {:induction false} AlternationFragment(p: seq<char>, pos: nat, nodes: seq<Node>, rp: bool, lo: nat)
    requires pos <= |p| && lo <= |nodes| && Fragment(nodes, lo)
    ensures Fragment(Alternation(p, pos, nodes, rp).nodes, lo)
    decreases |p| - pos, 6
  {
    ConcatenationFragment(p, pos, nodes, rp, lo);
    var c := Concatenation(p, pos, nodes, rp);
    if c.ok {
      AltLoopFragment(p, c.pos, c.nodes, |c.nodes| - 1, rp, lo);
    }
  }

  lemma {:induction false} BodyPostorder(p: seq<char>, pos: nat, nodes: seq<Node>, begin: bool, rp: bool)
    requires pos <= |p| && Postorder(nodes)
    ensures Postorder(Body(p, pos, nodes, begin, rp).tree.nodes)
    decreases |p| - pos
  {
    var c := Peek(p, pos);
    if c != '\0' && c != '$' {
      AlternationFragment(p, pos, nodes, rp, 0);
      var a := Alternation(p, pos, nodes, rp);
      if a.ok {
        BodyPostorder(p, a.pos, a.nodes, begin, rp);
      }
    }
  }

  /** The arena the parser builds is in postorder, whether or not the parse succeeds. */
  lemma ParsePostorder(p: seq<char>, rp: bool)
    ensures Postorder(ParsePattern(p, rp).tree.nodes)
  {
    var begin := Peek(p, 0) == '^';
    BodyPostorder(p, if begin then 1 else 0, [], begin, rp);
  }

  // ---------------------------------------------------------------------
  // With the corrected concatenation loop, a successful parse leaves one
  // tree whose root is the last node, covering every node it appended.
  // ---------------------------------------------------------------------

  lemma {:induction false} GroupSpans(p: seq<char>, pos: nat, nodes: seq<Node>)
    requires pos <= |p|
    ensures var r := Group(p, pos, nodes, true); r.ok ==> Spans(r.nodes, |nodes|, |r.nodes|)
    decreases |p| - pos, 0
  {
    if Peek(p, pos) == '(' {
      AlternationSpans(p, pos + 1, nodes);
    }
  }

  lemma {:induction false} UnitSpans(p: seq<char>, pos: nat, nodes: seq<Node>)
    requires pos <= |p|
    ensures var r := Unit(p, pos, nodes, true); r.ok ==> Spans(r.nodes, |nodes|, |r.nodes|)
    decreases |p| - pos, 1
  {
    var c := Peek(p, pos);
    if !IsWordChar(c) && c == '(' {
      GroupSpans(p, pos, nodes);
    }
  }

  lemma {:induction false} QuantifiedSpans(p: seq<char>, pos: nat, nodes: seq<Node>)
    requires pos <= |p|
    ensures var r := Quantified(p, pos, nodes, true); r.ok ==> Spans(r.nodes, |nodes|, |r.nodes|)
    decreases |p| - pos, 2
  {
    UnitSpans(p, pos, nodes);
    var u := Unit(p, pos, nodes, true);
    if u.ok {
      var first := |u.nodes| - 1;
      SpansExtend(u.nodes, [Opt(first)], |nodes|, |u.nodes|);
      SpansExtend(u.nodes, [Star(first)], |nodes|, |u.nodes|);
      SpansExtend(u.nodes, [Plus(first)], |nodes|, |u.nodes|);
    }
  }

  lemma {:induction false} ConcatLoopSpans(p: seq<char>, pos: nat, nodes: seq<Node>, lo: nat)
    requires pos <= |p| && Spans(nodes, lo, |nodes|)
    ensures var r := ConcatLoop(p, pos, nodes, |nodes| - 1, true);
      r.ok ==> Spans(r.nodes, lo, |r.nodes|) && Stops(p, r.pos)
    decreases |p| - pos, 3
  {
    QuantifiedSpans(p, pos, nodes);
    var q := Quantified(p, pos, nodes, true);
    if q.ok {
      var joined := q.nodes + [Cat(|nodes| - 1, |q.nodes| - 1)];
      SpansJoin(nodes, q.nodes, lo, Cat(|nodes| - 1, |q.nodes| - 1));
      ConcatLoopSpans(p, q.pos, joined, lo);
      assert ConcatLoop(p, pos, nodes, |nodes| - 1, true) == ConcatLoop(p, q.pos, joined, |joined| - 1, true);
    } else if q.pos == pos {
      assert q.nodes == nodes && Stops(p, pos);
    }
  }

  lemma {:induction false} ConcatenationSpans(p: seq<char>, pos: nat, nodes: seq<Node>)
    requires pos <= |p|
    ensures var r := Concatenation(p, pos, nodes, true);
      r.ok ==> Spans(r.nodes, |nodes|, |r.nodes|) && Stops(p, r.pos)
    decreases |p| - pos, 4
  {
    QuantifiedSpans(p, pos, nodes);
    var q := Quantified(p, pos, nodes, true);
    if q.ok {
      ConcatLoopSpans(p, q.pos, q.nodes, |nodes|);
    }
  }

  lemma {:induction false} AltLoopSpans(p: seq<char>, pos: nat, nodes: seq<Node>, lo: nat)
    requires pos <= |p| && Spans(nodes, lo, |nodes|) && Stops(p, pos)
    ensures var r := AltLoop(p, pos, nodes, |nodes| - 1, true);
      r.ok ==> Spans(r.nodes, lo, |r.nodes|) && Stops(p, r.pos) && Peek(p, r.pos) != '|'
    decreases |p| - pos, 5
  {
    if Peek(p, pos) == '|' {
      ConcatenationSpans(p, pos + 1, nodes);
      var c := Concatenation(p, pos + 1, nodes, true);
      if c.ok {
        var joined := c.nodes + [Alt(|nodes| - 1, |c.nodes| - 1)];
        SpansJoin(nodes, c.nodes, lo, Alt(|nodes| - 1, |c.nodes| - 1));
        AltLoopSpans(p, c.pos, joined, lo);
      }
    }
  }

  lemma {:induction false} AlternationSpans(p: seq<char>, pos: nat, nodes: seq<Node>)
    requires pos <= |p|
    ensures var r := Alternation(p, pos, nodes, true);
      r.ok ==> Spans(r.nodes, |nodes|, |r.nodes|) && Stops(p, r.pos) && Peek(p, r.pos) != '|'
    decreases |p| - pos, 6
  {
    ConcatenationSpans(p, pos, nodes);
    var c := Concatenation(p, pos, nodes, true);
    if c.ok {
      AltLoopSpans(p, c.pos, c.nodes, |nodes|);
    }
  }

  lemma {:induction false} BodySpans(p: seq<char>, pos: nat, nodes: seq<Node>, begin: bool)
    requires pos <= |p|
    requires nodes == [] || (Spans(nodes, 0, |nodes|) && Stops(p, pos) && Peek(p, pos) != '|')
    ensures var r := Body(p, pos, nodes, begin, true);
      r.ok ==> r.tree.nodes == [] || Spans(r.tree.nodes, 0, |r.tree.nodes|)
    decreases |p| - pos
  {
    var c := Peek(p, pos);
    if c != '\0' && c != '$' {
      AlternationSpans(p, pos, nodes);
      var a := Alternation(p, pos, nodes, true);
      if a.ok {
        assert nodes == [];
        BodySpans(p, a.pos, a.nodes, begin);
      }
    }
  }

  /**
   * Corrected parser: on success the arena is empty (the pattern has no
   * unit) or it is exactly one tree whose root is the last node.
   */
  lemma StrictParseSpans(p: seq<char>)
    ensures var r := ParsePattern(p, true);
      r.ok && r.tree.nodes != [] ==> Spans(r.tree.nodes, 0, |r.tree.nodes|)
  {
    var begin := Peek(p, 0) == '^';
    BodySpans(p, if begin then 1 else 0, [], begin);
  }

  /**
   * As written, a group opened after the first unit of a concatenation and
   * never closed is accepted: "a(b" parses successfully, and its last node,
   * which the compiler takes as the root, is the `b` inside the group, so
   * the `a` is silently dropped from the automaton.
   */
  lemma UnclosedGroupAccepted()
    ensures ParsePattern("a(b", false) == Parsed(true, 3, Tree([Atom('a'), Atom('b')], false, false))
    ensures !Spans([Atom('a'), Atom('b')], 0, 2)
    ensures !ParsePattern("a(b", true).ok
  {
    var p := "a(b";
    UnclosedGroupAsWritten(p);
    UnclosedGroupCorrected(p);
  }

  /** The group "(b" at the end of "a(b" consumes "(b", appends `b`, and fails for want of ')'. */
  lemma UnclosedGroupInner(p: seq<char>, rp: bool)
    requires p == "a(b"
    ensures Group(p, 1, [Atom('a')], rp) == Outcome(false, 3, [Atom('a'), Atom('b')])
  {
    var ab := [Atom('a'), Atom('b')];
    assert Peek(p, 1) == '(' && Peek(p, 2) == 'b' && Peek(p, 3) == '\0';
    assert Unit(p, 2, [Atom('a')], rp) == Outcome(true, 3, ab);
    assert Quantified(p, 2, [Atom('a')], rp) == Outcome(true, 3, ab);
    assert Unit(p, 3, ab, rp) == Outcome(false, 3, ab);
    assert Quantified(p, 3, ab, rp) == Outcome(false, 3, ab);
    assert ConcatLoop(p, 3, ab, 1, rp) == Outcome(true, 3, ab);
    assert Concatenation(p, 2, [Atom('a')], rp) == Outcome(true, 3, ab);
    assert AltLoop(p, 3, ab, 1, rp) == Outcome(true, 3, ab);
    assert Alternation(p, 2, [Atom('a')], rp) == Outcome(true, 3, ab);
  }

  /** "a" then the failed group: the first unit of the top-level concatenation. */
  lemma UnclosedGroupStart(p: seq<char>, rp: bool)
    requires p == "a(b"
    ensures Quantified(p, 0, [], rp) == Outcome(true, 1, [Atom('a')])
    ensures Quantified(p, 1, [Atom('a')], rp) == Outcome(false, 3, [Atom('a'), Atom('b')])
  {
    assert Peek(p, 0) == 'a' && Peek(p, 1) == '(';
    assert Unit(p, 0, [], rp) == Outcome(true, 1, [Atom('a')]);
    UnclosedGroupInner(p, rp);
    assert Unit(p, 1, [Atom('a')], rp) == Outcome(false, 3, [Atom('a'), Atom('b')]);
  }

  lemma UnclosedGroupAsWritten(p: seq<char>)
    requires p == "a(b"
    ensures ParsePattern(p, false) == Parsed(true, 3, Tree([Atom('a'), Atom('b')], false, false))
  {
    var ab := [Atom('a'), Atom('b')];
    UnclosedGroupStart(p, false);
    assert Peek(p, 0) == 'a' && Peek(p, 3) == '\0';
    assert ConcatLoop(p, 1, [Atom('a')], 0, false) == Outcome(true, 3, ab);
    assert Concatenation(p, 0, [], false) == Outcome(true, 3, ab);
    assert AltLoop(p, 3, ab, 1, false) == Outcome(true, 3, ab);
    assert Alternation(p, 0, [], false) == Outcome(true, 3, ab);
    assert Body(p, 3, ab, false, false) == Parsed(true, 3, Tree(ab, false, false));
    assert Body(p, 0, [], false, false) == Parsed(true, 3, Tree(ab, false, false));
  }

  lemma UnclosedGroupCorrected(p: seq<char>)
    requires p == "a(b"
    ensures !ParsePattern(p, true).ok
  {
    var ab := [Atom('a'), Atom('b')];
    UnclosedGroupStart(p, true);
    assert Peek(p, 0) == 'a';
    assert ConcatLoop(p, 1, [Atom('a')], 0, true) == Outcome(false, 3, ab);
    assert Concatenation(p, 0, [], true) == Outcome(false, 3, ab);
    assert Alternation(p, 0, [], true) == Outcome(false, 3, ab);
    assert Body(p, 0, [], false, true) == Parsed(false, 3, Tree(ab, false, false));
  }

  // ---------------------------------------------------------------------
  // The imperative parser
  // ---------------------------------------------------------------------

  /** The parse tree the parser fills in place: the node arena and the anchor flags. */
  class ParseTree {
    var beginAnchored: bool
    var endAnchored: bool
    var nodes: seq<Node>

    constructor ()
      ensures !beginAnchored && !endAnchored && nodes == []
    {
      beginAnchored, endAnchored, nodes := false, false, [];
    }
  }

  /** A cursor over the pattern text that appends to `tree`. */
  class Parser {
    const text: seq<char>
    var pos: nat
    const tree: ParseTree

    constructor (text: seq<char>, tree: ParseTree)
      ensures this.text == text && this.tree == tree && pos == 0
    {
      this.text, this.tree, pos := text, tree, 0;
    }

    /**
     * Parses the whole pattern. A leading `^` sets the begin anchor; a `$`
     * at the top level sets the end anchor and ends parsing.
     */
    method BuildParseTree() returns (ok: bool)
      requires pos <= |text|
      modifies this`pos, tree
      ensures var begin := Peek(text, old(pos)) == '^';
        var r := Body(text, old(pos) + (if begin then 1 else 0), old(tree.nodes), begin, false);
        ok == r.ok && pos == r.pos && tree.nodes == r.tree.nodes &&
        tree.beginAnchored == (old(tree.beginAnchored) || begin) &&
        tree.endAnchored == (old(tree.endAnchored) || r.tree.endAnchored)
      ensures old(pos) == 0 && old(tree.nodes) == [] && !old(tree.beginAnchored) && !old(tree.endAnchored) ==>
        var r := ParsePattern(text, false);
        ok == r.ok && pos == r.pos &&
        r.tree == Tree(tree.nodes, tree.beginAnchored, tree.endAnchored)
    {
      var begin := Peek(text, pos) == '^';
      if begin {
        tree.beginAnchored := true;
        pos := pos + 1;
      }
      ghost var start := pos;
      while Peek(text, pos) != '\0'
        invariant start <= pos <= |text|
        invariant tree.beginAnchored == (old(tree.beginAnchored) || begin)
        invariant tree.endAnchored == old(tree.endAnchored)
        invariant Body(text, pos, tree.nodes, begin, false) == Body(text, start, old(tree.nodes), begin, false)
        decreases |text| - pos
      {
        if Peek(text, pos) == '$' {
          pos := pos + 1;
          tree.endAnchored := true;
          ok := true;
          return;
        }
        ok := Parse();
        if !ok {
          return;
        }
      }
      ok := true;
    }

    method Parse() returns (ok: bool)
      requires pos <= |text|
      modifies this`pos, tree`nodes
      ensures var r := Alternation(text, old(pos), old(tree.nodes), false);
        ok == r.ok && pos == r.pos && tree.nodes == r.nodes
      decreases |text| - pos, 7
    {
      ok := ParseAlternation();
    }

    method ParseAlternation() returns (ok: bool)
      requires pos <= |text|
      modifies this`pos, tree`nodes
      ensures var r := Alternation(text, old(pos), old(tree.nodes), false);
        ok == r.ok && pos == r.pos && tree.nodes == r.nodes
      decreases |text| - pos, 6
    {
      ok := ParseConcatenation();
      if ok {
        ok := ParseAlternatives(|tree.nodes| - 1);
      }
    }

    /** The `while (*pointer == '|')` loop of `parse_alternation`, with `first` the left operand so far. */
    method ParseAlternatives(first: nat) returns (ok: bool)
      requires pos <= |text| && first < |tree.nodes|
      modifies this`pos, tree`nodes
      ensures var r := AltLoop(text, old(pos), old(tree.nodes), first, false);
        ok == r.ok && pos == r.pos && tree.nodes == r.nodes
      decreases |text| - pos, 5
    {
      var left: nat := first;
      while Peek(text, pos) == '|'
        invariant old(pos) <= pos <= |text| && left < |tree.nodes|
        invariant AltLoop(text, pos, tree.nodes, left, false) == AltLoop(text, old(pos), old(tree.nodes), first, false)
        decreases |text| - pos
      {
        pos := pos + 1;
        ok := ParseConcatenation();
        if !ok {
          return;
        }
        var second := |tree.nodes| - 1;
        tree.nodes := tree.nodes + [Alt(left, second)];
        left := |tree.nodes| - 1;
      }
      ok := true;
    }

    method ParseConcatenation() returns (ok: bool)
      requires pos <= |text|
      modifies this`pos, tree`nodes
      ensures var r := Concatenation(text, old(pos), old(tree.nodes), false);
        ok == r.ok && pos == r.pos && tree.nodes == r.nodes
      decreases |text| - pos, 4
    {
      ok := ParseQuantifier();
      if ok {
        ok := ParseFactors(|tree.nodes| - 1);
      }
    }

    /** The `while (parse_quantifier())` loop of `parse_concatenation`, with `first` the left operand so far. */
    method ParseFactors(first: nat) returns (ok: bool)
      requires pos <= |text| && first < |tree.nodes|
      modifies this`pos, tree`nodes
      ensures var r := ConcatLoop(text, old(pos), old(tree.nodes), first, false);
        ok == r.ok && pos == r.pos && tree.nodes == r.nodes
      decreases |text| - pos, 3
    {
      var left: nat := first;
      while true
        invariant old(pos) <= pos <= |text| && left < |tree.nodes|
        invariant ConcatLoop(text, pos, tree.nodes, left, false) == ConcatLoop(text, old(pos), old(tree.nodes), first, false)
        decreases |text| - pos
      {
        var more := ParseQuantifier();
        if !more {
          break;
        }
        var second := |tree.nodes| - 1;
        tree.nodes := tree.nodes + [Cat(left, second)];
        left := |tree.nodes| - 1;
      }
      ok := true;
    }

    method ParseQuantifier() returns (ok: bool)
      requires pos <= |text|
      modifies this`pos, tree`nodes
      ensures var r := Quantified(text, old(pos), old(tree.nodes), false);
        ok == r.ok && pos == r.pos && tree.nodes == r.nodes
      decreases |text| - pos, 2
    {
      ok := ParseUnit();
      if !ok {
        return;
      }
      var first := |tree.nodes| - 1;
      var c := Peek(text, pos);
      if c == '?' {
        pos := pos + 1;
        tree.nodes := tree.nodes + [Opt(first)];
      } else if c == '*' {
        pos := pos + 1;
        tree.nodes := tree.nodes + [Star(first)];
      } else if c == '+' {
        pos := pos + 1;
        tree.nodes := tree.nodes + [Plus(first)];
      }
    }

    method ParseUnit() returns (ok: bool)
      requires pos <= |text|
      modifies this`pos, tree`nodes
      ensures var r := Unit(text, old(pos), old(tree.nodes), false);
        ok == r.ok && pos == r.pos && tree.nodes == r.nodes
      decreases |text| - pos, 1
    {
      var c := Peek(text, pos);
      if IsWordChar(c) {
        tree.nodes := tree.nodes + [Atom(c)];
        pos := pos + 1;
        ok := true;
      } else if c == '(' {
        ok := ParseGroup();
      } else {
        ok := false;
      }
    }

    method ParseGroup() returns (ok: bool)
      requires pos <= |text|
      modifies this`pos, tree`nodes
      ensures var r := Group(text, old(pos), old(tree.nodes), false);
        ok == r.ok && pos == r.pos && tree.nodes == r.nodes
      decreases |text| - pos, 0
    {
      if Peek(text, pos) != '(' {
        return false;
      }
      pos := pos + 1;
      ok := Parse();
      if !ok {
        return;
      }
      if Peek(text, pos) != ')' {
        return false;
      }
      pos := pos + 1;
      ok := true;
    }
  }
}
