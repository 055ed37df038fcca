/**
 * The frontier simulation (`NFAEngine` in src/regex.cpp).
 *
 * The engine keeps two frontiers of state indices. Each step expands the
 * current frontier in place with the targets of its empty transitions and
 * collects the targets on the next input symbol into the other frontier,
 * stamping every collected state with the step counter so that it is
 * collected once. The run ends when the current frontier holds an accepting
 * state or the next one is empty.
 *
 * The reference semantics below works on sets: `Closure` is the set of
 * states reachable by empty transitions, `Move` the set of targets on one
 * symbol and `Run` the verdict of the whole loop.
 */
module Engine {
  import opened Wrappers
  import opened Automaton

  /** A byte of the text; the text itself ends before its first zero byte. */
  type byte = b: int | 0 <= b < 0x100

  /**
   * The symbol `*ptr` yields at position `pos`: the terminator 0 at the end
   * of the text. When `char` is signed, as it is on x86-64, the bytes 0x80
   * to 0xFF read as -128 to -1.
   */
  function Symbol(signedChar: bool, text: seq<byte>, pos: nat): (sym: int)
    requires pos <= |text|
    ensures pos == |text| ==> sym == 0
    ensures pos < |text| && (text[pos] < 0x80 || !signedChar) ==> sym == text[pos]
    ensures pos < |text| && text[pos] >= 0x80 && signedChar ==> sym == text[pos] as int - 0x100 && sym < 0
  {
    if pos == |text| then 0
    else if signedChar && text[pos] >= 0x80 then text[pos] as int - 0x100
    else text[pos]
  }

  /** The states a frontier holds. */
  function Elems(xs: seq<nat>): set<nat> {
    set x | x in xs
  }

  predicate NoDup(xs: seq<nat>) {
    forall j, k | 0 <= j < k < |xs| :: xs[j] != xs[k]
  }

  /**
   * The transitions on one symbol as an adjacency list: entry `s` lists the
   * targets of state `s` on `sym`.
   */
  function Edges(states: seq<State>, sym: int): (g: seq<seq<nat>>)
    ensures |g| == |states| && forall s | 0 <= s < |states| :: g[s] == Targets(states, s, sym)
  {
    seq(|states|, s requires 0 <= s < |states| => Targets(states, s, sym))
  }

  /** Every edge of `g` ends at a node of `g`. */
  predicate GraphWellFormed(g: seq<seq<nat>>) {
    forall s, k | 0 <= s < |g| && 0 <= k < |g[s]| :: g[s][k] < |g|
  }

  /** The targets in `g` of the nodes in `S`. */
  function Move(g: seq<seq<nat>>, S: set<nat>): (r: set<nat>)
    ensures GraphWellFormed(g) ==> Within(g, r)
  {
    set s, t | s in S && s < |g| && t in g[s] :: t
  }

  /** No node of `X` has an edge leaving `X`. */
  predicate Closed(g: seq<seq<nat>>, X: set<nat>) {
    Move(g, X) <= X
  }

  /** Every element of `S` is a node of `g`. */
  predicate Within(g: seq<seq<nat>>, S: set<nat>) {
    forall s | s in S :: s < |g|
  }

  /** `S` followed by `k` rounds along the edges of `g`. */
  function Iterate(g: seq<seq<nat>>, S: set<nat>, k: nat): (X: set<nat>)
    ensures S <= X
  {
    if k == 0 then S else
    var Y := Iterate(g, S, k - 1);
    Y + Move(g, Y)
  }

  /** The nodes reachable from `S` in `g` (at most one round per node). */
  function Closure(g: seq<seq<nat>>, S: set<nat>): (X: set<nat>)
    ensures S <= X
  {
    Iterate(g, S, |g|)
  }

  // ---------------------------------------------------------------------
  // The closure is closed and is the least closed superset
  // ---------------------------------------------------------------------

  /** A set of indices below `n` has at most `n` elements. */
  lemma {:induction false} BoundedCard(X: set<nat>, n: nat)
    requires forall x | x in X :: x < n
    ensures |X| <= n
  {
    if n > 0 {
      var Y := X - {n - 1};
      BoundedCard(Y, n - 1);
      assert X <= Y + {n - 1};
    } else {
      assert X == {};
    }
  }

  lemma {:induction false} IterateWithin(g: seq<seq<nat>>, S: set<nat>, k: nat)
    requires GraphWellFormed(g) && Within(g, S)
    ensures Within(g, Iterate(g, S, k))
  {
    if k > 0 {
      IterateWithin(g, S, k - 1);
    }
  }

  /** While rounds keep adding nodes, round `k + 1` holds at least `k + 1` of them. */
  lemma {:induction false} IterateGrows(g: seq<seq<nat>>, S: set<nat>, k: nat)
    requires Iterate(g, S, k) != Iterate(g, S, k + 1)
    ensures |Iterate(g, S, k + 1)| >= k + 1
  {
    var X, Y := Iterate(g, S, k), Iterate(g, S, k + 1);
    assert X < Y;
    if k > 0 {
      // Had round k added nothing, round k + 1 would add nothing either.
      assert Iterate(g, S, k - 1) != X;
      IterateGrows(g, S, k - 1);
    }
    var d :| d in Y && d !in X;
    var Z := X + {d};
    assert |Z| == |X| + 1;
    assert Y == Z + (Y - Z) && Z * (Y - Z) == {};
  }

  /** The closure has no edge leaving it. */
  lemma ClosureClosed(g: seq<seq<nat>>, S: set<nat>)
    requires GraphWellFormed(g) && Within(g, S)
    ensures Closed(g, Closure(g, S))
  {
    var n := |g|;
    if Iterate(g, S, n) != Iterate(g, S, n + 1) {
      IterateGrows(g, S, n);
      IterateWithin(g, S, n + 1);
      BoundedCard(Iterate(g, S, n + 1), n);
      assert false;
    }
  }

  /** Every closed superset of `S` contains the closure of `S`. */
  lemma ClosureLeast(g: seq<seq<nat>>, S: set<nat>, X: set<nat>)
    requires S <= X && Closed(g, X)
    ensures Closure(g, S) <= X
  {
    IterateLeast(g, S, X, |g|);
  }

  lemma {:induction false} IterateLeast(g: seq<seq<nat>>, S: set<nat>, X: set<nat>, k: nat)
    requires S <= X && Closed(g, X)
    ensures Iterate(g, S, k) <= X
  {
    if k > 0 {
      IterateLeast(g, S, X, k - 1);
      MoveMonotone(g, Iterate(g, S, k - 1), X);
    }
  }

  lemma MoveMonotone(g: seq<seq<nat>>, Y: set<nat>, X: set<nat>)
    requires Y <= X
    ensures Move(g, Y) <= Move(g, X)
  {
  }

  /** Closing twice is closing once. */
  lemma ClosureIdempotent(g: seq<seq<nat>>, S: set<nat>)
    requires GraphWellFormed(g) && Within(g, S)
    ensures Closure(g, Closure(g, S)) == Closure(g, S)
  {
    ClosureClosed(g, S);
    ClosureLeast(g, Closure(g, S), Closure(g, S));
  }

  /** The closure stays inside the graph. */
  lemma ClosureWithin(g: seq<seq<nat>>, S: set<nat>)
    requires GraphWellFormed(g) && Within(g, S)
    ensures Within(g, Closure(g, S))
  {
    IterateWithin(g, S, |g|);
  }

  /** The edge lists of a well-formed automaton form a well-formed graph. */
  lemma EdgesWellFormed(states: seq<State>, sym: int)
    requires WellFormed(states)
    ensures GraphWellFormed(Edges(states, sym))
  {
    var g := Edges(states, sym);
    forall s, k | 0 <= s < |g| && 0 <= k < |g[s]| ensures g[s][k] < |g| {
      TargetsWithin(states, s, sym, g[s][k]);
    }
  }

  lemma TargetsWithin(states: seq<State>, s: nat, sym: int, t: nat)
    requires WellFormed(states) && s < |states| && t in Targets(states, s, sym)
    ensures t < |states|
  {
    var ts := states[s].transitions;
    match Find(ts, sym)
    case Some(j) =>
      assert t in ts[j].futures;
  }

  // ---------------------------------------------------------------------
  // The reference run
  // ---------------------------------------------------------------------

  /**
   * How `execute` ends: true (`Accept`), false (`Reject`), or `PastEnd` when
   * the step that read the byte after the terminator does not accept, so
   * that the loop goes on with targets that depend on bytes outside the
   * text.
   */
  datatype Verdict = Accept | Reject | PastEnd

  predicate AnyAccepting(states: seq<State>, S: set<nat>) {
    exists s | s in S && s < |states| :: states[s].accepting
  }

  /**
   * The loop of `execute` from the check of `accepting()` onward, with
   * current frontier `cur`, next frontier `next` and the cursor at `pos`.
   * Once the cursor is past the terminator, one more step still expands
   * `next`, without reading any byte, before `accepting()` looks at it; so
   * a state reached on the terminator itself (the end anchor) accepts.
   * Only when that expansion does not accept does the run go on beyond the
   * text, and the verdict is `PastEnd`.
   */
  function Run(states: seq<State>, signedChar: bool, text: seq<byte>, cur: set<nat>, next: set<nat>, pos: nat): (v: Verdict)
    ensures v == Accept ==> exists s | 0 <= s < |states| :: states[s].accepting
    ensures next == {} ==> v != PastEnd
    decreases |text| + 1 - pos
  {
    if AnyAccepting(states, cur) then Accept
    else if next == {} then Reject
    else if pos > |text| then
      (if AnyAccepting(states, Closure(Edges(states, Epsilon), next)) then Accept else PastEnd)
    else
      var c := Closure(Edges(states, Epsilon), next);
      Run(states, signedChar, text, c, Move(Edges(states, Symbol(signedChar, text, pos)), c), pos + 1)
  }

  /** One round of the loop, when it neither stops nor reads past the terminator. */
  lemma RunUnfold(states: seq<State>, signedChar: bool, text: seq<byte>, cur: set<nat>, next: set<nat>, pos: nat)
    requires !AnyAccepting(states, cur) && next != {} && pos <= |text|
    ensures var c := Closure(Edges(states, Epsilon), next);
      Run(states, signedChar, text, cur, next, pos) ==
      Run(states, signedChar, text, c, Move(Edges(states, Symbol(signedChar, text, pos)), c), pos + 1)
  {
  }

  // ---------------------------------------------------------------------
  // Termination of the in-place expansion
  // ---------------------------------------------------------------------

  /**
   * A numbering of the nodes under which every edge of `g` goes to a higher
   * number: `g` has no cycle.
   */
  predicate Ranked(g: seq<seq<nat>>, rank: seq<nat>) {
    |rank| == |g| && GraphWellFormed(g) &&
    (forall s | 0 <= s < |rank| :: rank[s] < |g|) &&
    forall s, k | 0 <= s < |g| && 0 <= k < |g[s]| :: rank[s] < rank[g[s][k]]
  }

  /** The number of paths in `g` starting at `s`. */
  function Weight(g: seq<seq<nat>>, rank: seq<nat>, s: nat): nat
    requires Ranked(g, rank) && s < |g|
    decreases |g| - rank[s], |g[s]| + 1
  {
    1 + WeightSum(g, rank, g[s], rank[s])
  }

  function WeightSum(g: seq<seq<nat>>, rank: seq<nat>, ts: seq<nat>, r: nat): nat
    requires Ranked(g, rank) && r < |g|
    requires forall k | 0 <= k < |ts| :: ts[k] < |g| && r < rank[ts[k]]
    decreases |g| - r, |ts|
  {
    if ts == [] then 0 else Weight(g, rank, ts[0]) + WeightSum(g, rank, ts[1..], r)
  }

  /** The work left in a frontier: the paths in `g` from its entries. */
  function Pending(g: seq<seq<nat>>, rank: seq<nat>, ts: seq<nat>): nat
    requires Ranked(g, rank) && forall k | 0 <= k < |ts| :: ts[k] < |g|
  {
    if ts == [] then 0 else Weight(g, rank, ts[0]) + Pending(g, rank, ts[1..])
  }

  lemma {:induction false} WeightSumIsPending(g: seq<seq<nat>>, rank: seq<nat>, ts: seq<nat>, r: nat)
    requires Ranked(g, rank) && r < |g|
    requires forall k | 0 <= k < |ts| :: ts[k] < |g| && r < rank[ts[k]]
    ensures WeightSum(g, rank, ts, r) == Pending(g, rank, ts)
  {
    if ts != [] {
      WeightSumIsPending(g, rank, ts[1..], r);
    }
  }

  lemma {:induction false} PendingAppend(g: seq<seq<nat>>, rank: seq<nat>, a: seq<nat>, b: seq<nat>)
    requires Ranked(g, rank)
    requires forall k | 0 <= k < |a| :: a[k] < |g|
    requires forall k | 0 <= k < |b| :: b[k] < |g|
    ensures Pending(g, rank, a + b) == Pending(g, rank, a) + Pending(g, rank, b)
  {
    if a != [] {
      assert (a + b)[1..] == a[1..] + b;
      PendingAppend(g, rank, a[1..], b);
    } else {
      assert a + b == b;
    }
  }

  /** Expanding entry `i` of the frontier leaves one path fewer to explore. */
  lemma ExpandDecreases(g: seq<seq<nat>>, rank: seq<nat>, cur: seq<nat>, i: nat)
    requires Ranked(g, rank) && i < |cur| && forall k | 0 <= k < |cur| :: cur[k] < |g|
    ensures forall k | 0 <= k < |cur + g[cur[i]]| :: (cur + g[cur[i]])[k] < |g|
    ensures Pending(g, rank, (cur + g[cur[i]])[i + 1..]) < Pending(g, rank, cur[i..])
  {
    var eps := g[cur[i]];
    assert (cur + eps)[i + 1..] == cur[i + 1..] + eps;
    assert cur[i..][1..] == cur[i + 1..];
    PendingAppend(g, rank, cur[i + 1..], eps);
    WeightSumIsPending(g, rank, eps, rank[cur[i]]);
  }

  lemma ElemsAppend(a: seq<nat>, b: seq<nat>)
    ensures Elems(a + b) == Elems(a) + Elems(b)
  {
    assert forall x | x in a + b :: x in a || x in b;
  }

  lemma ElemsPrefix(xs: seq<nat>, i: nat)
    requires i < |xs|
    ensures Elems(xs[..i + 1]) == Elems(xs[..i]) + {xs[i]}
  {
    assert xs[..i + 1] == xs[..i] + [xs[i]];
    ElemsAppend(xs[..i], [xs[i]]);
  }

  /** The targets of one more node. */
  lemma MoveAddOne(g: seq<seq<nat>>, S: set<nat>, s: nat)
    requires s < |g|
    ensures Move(g, S + {s}) == Move(g, S) + Elems(g[s])
  {
  }

  /**
   * Appending the targets of entry `i` keeps the frontier inside the closure
   * of `S0` and keeps the targets of entries up to `i` inside the frontier.
   */
  lemma ExpandKeeps(g: seq<seq<nat>>, S0: set<nat>, before: seq<nat>, i: nat)
    requires GraphWellFormed(g) && Within(g, S0) && i < |before|
    requires forall k | 0 <= k < |before| :: before[k] < |g|
    requires Elems(before) <= Closure(g, S0) && Move(g, Elems(before[..i])) <= Elems(before)
    ensures var after := before + g[before[i]];
      Elems(after) <= Closure(g, S0) && Move(g, Elems(after[..i + 1])) <= Elems(after)
  {
    var after := before + g[before[i]];
    ElemsAppend(before, g[before[i]]);
    ClosureClosed(g, S0);
    MoveAddOne(g, {}, before[i]);
    MoveMonotone(g, {before[i]}, Closure(g, S0));
    assert after[..i + 1] == before[..i + 1];
    ElemsPrefix(before, i);
    MoveAddOne(g, Elems(before[..i]), before[i]);
  }

  /** The targets of the entries up to `i`, one entry further. */
  lemma MoveNext(g: seq<seq<nat>>, xs: seq<nat>, i: nat)
    requires i < |xs| && xs[i] < |g|
    ensures Move(g, Elems(xs[..i + 1])) == Move(g, Elems(xs[..i])) + Elems(g[xs[i]])
  {
    ElemsPrefix(xs, i);
    MoveAddOne(g, Elems(xs[..i]), xs[i]);
  }

  // ---------------------------------------------------------------------
  // The engine object
  // ---------------------------------------------------------------------

  /**
   * `NFAEngine`. The two frontier buffers `a` and `b` and the pointers to
   * them are modelled as the two sequences `cur` and `next`, which a swap
   * exchanges. `signedChar` is the platform's choice for plain `char`.
   */
  class NFAEngine {
    const machine: NFA
    const signedChar: bool
    var counter: nat
    var cur: seq<nat>
    var next: seq<nat>
    var text: seq<byte>
    var ptr: nat

    constructor (machine: NFA, signedChar: bool)
      ensures this.machine == machine && this.signedChar == signedChar
      ensures counter == 0 && cur == [] && next == [] && text == [] && ptr == 0
    {
      this.machine, this.signedChar := machine, signedChar;
      counter, cur, next, text, ptr := 0, [], [], [], 0;
    }

    /** Both frontiers hold existing states, and no stamp is ahead of the counter. */
    predicate Valid()
      reads this, machine
    {
      machine.Valid() && WellFormed(machine.states) &&
      (forall k | 0 <= k < |cur| :: cur[k] < |machine.states|) &&
      (forall k | 0 <= k < |next| :: next[k] < |machine.states|) &&
      (forall s | 0 <= s < |machine.lastExec| :: machine.lastExec[s] <= counter)
    }

    /** `accepting`: whether the current frontier holds an accepting state. */
    method Accepting() returns (r: bool)
      requires Valid()
      ensures r <==> AnyAccepting(machine.states, Elems(cur))
    {
      var i := 0;
      while i < |cur|
        invariant i <= |cur|
        invariant forall k | 0 <= k < i :: !machine.states[cur[k]].accepting
      {
        if machine.states[cur[i]].accepting {
          return true;
        }
        i := i + 1;
      }
      return false;
    }

    /**
     * Since `next` was `N0` and the stamps were `L0`: the entries pushed are
     * distinct, and they are exactly the states now stamped with `counter`;
     * every other stamp is unchanged.
     */
    ghost predicate Stamped(N0: seq<nat>, L0: seq<nat>)
      reads this, machine
    {
      |N0| <= |next| && next[..|N0|] == N0 && NoDup(next[|N0|..]) &&
      |machine.lastExec| == |L0| &&
      (forall s | 0 <= s < |L0| :: machine.lastExec[s] == counter <==> s in next[|N0|..]) &&
      (forall s | 0 <= s < |L0| && s !in next[|N0|..] :: machine.lastExec[s] == L0[s])
    }

    /**
     * The inner loop of `step`: pushes each of `futures` onto `next` unless
     * its stamp already equals `counter`, and stamps it.
     */
    method PushFutures(futures: seq<nat>, ghost N0: seq<nat>, ghost L0: seq<nat>)
      requires Stamped(N0, L0) && forall k | 0 <= k < |futures| :: futures[k] < |L0|
      requires forall k | 0 <= k < |next| :: next[k] < |L0|
      requires forall s | 0 <= s < |L0| :: machine.lastExec[s] <= counter
      modifies `next, machine`lastExec
      ensures Stamped(N0, L0) && forall k | 0 <= k < |next| :: next[k] < |L0|
      ensures forall s | 0 <= s < |L0| :: machine.lastExec[s] <= counter
      ensures Elems(next[|N0|..]) == Elems(old(next)[|N0|..]) + Elems(futures)
    {
      var j := 0;
      while j < |futures|
        invariant j <= |futures| && Stamped(N0, L0) && forall k | 0 <= k < |next| :: next[k] < |L0|
        invariant forall s | 0 <= s < |L0| :: machine.lastExec[s] <= counter
        invariant Elems(next[|N0|..]) == Elems(old(next)[|N0|..]) + Elems(futures[..j])
      {
        var t := futures[j];
        ElemsPrefix(futures, j);
        if machine.lastExec[t] != counter {
          ghost var pushed := next[|N0|..];
          machine.lastExec := machine.lastExec[t := counter];
          next := next + [t];
          assert next[|N0|..] == pushed + [t];
          ElemsAppend(pushed, [t]);
        }
        j := j + 1;
      }
      assert futures[..j] == futures;
    }

    /**
     * One round of the walk in `step`: appends the empty-transition targets
     * of entry `i` to the current frontier and, when a symbol is given,
     * pushes its targets on that symbol.
     */
    method Visit(i: nat, sym: Option<int>, ghost N0: seq<nat>, ghost L0: seq<nat>)
      requires machine.Valid() && WellFormed(machine.states) && i < |cur| && cur[i] < |machine.states|
      requires Stamped(N0, L0) && |L0| == |machine.states|
      requires forall k | 0 <= k < |next| :: next[k] < |L0|
      requires forall s | 0 <= s < |L0| :: machine.lastExec[s] <= counter
      modifies `cur, `next, machine`lastExec
      ensures cur == old(cur) + Edges(machine.states, Epsilon)[old(cur)[i]]
      ensures Stamped(N0, L0) && forall k | 0 <= k < |next| :: next[k] < |L0|
      ensures forall s | 0 <= s < |L0| :: machine.lastExec[s] <= counter
      ensures sym.Some? ==>
        Elems(next[|N0|..]) == Elems(old(next)[|N0|..]) + Elems(Edges(machine.states, sym.value)[old(cur)[i]])
      ensures sym.None? ==> next == old(next) && machine.lastExec == old(machine.lastExec)
    {
      var s := cur[i];
      var ts := machine.states[s].transitions;
      match Find(ts, Epsilon) {
        case Some(k) => cur := cur + ts[k].futures;
        case None =>
      }
      if sym.Some? {
        match Find(ts, sym.value) {
          case Some(k) =>
            forall j | 0 <= j < |ts[k].futures| ensures ts[k].futures[j] < |L0| {
              TargetsWithin(machine.states, s, sym.value, ts[k].futures[j]);
            }
            PushFutures(ts[k].futures, N0, L0);
          case None =>
        }
      }
    }

    /**
     * `step`: advances the counter; walks the current frontier while
     * appending to it the empty-transition targets of each entry, and pushes
     * the targets of each entry on the symbol under the cursor onto `next`,
     * each state at most once; then advances the cursor. The walk ends only
     * when the empty transitions have no cycle, which `rank` witnesses.
     */
    method Step(ghost rank: seq<nat>)
      requires Valid() && Ranked(Edges(machine.states, Epsilon), rank) && ptr <= |text|
      modifies `counter, `cur, `next, `ptr, machine`lastExec
      ensures Valid() && counter == old(counter) + 1 && ptr == old(ptr) + 1
      ensures old(cur) <= cur && Elems(cur) == Closure(Edges(machine.states, Epsilon), Elems(old(cur)))
      ensures |old(next)| <= |next| && next[..|old(next)|] == old(next)
      ensures NoDup(next[|old(next)|..])
      ensures Elems(next[|old(next)|..]) == Move(Edges(machine.states, Symbol(signedChar, text, old(ptr))), Elems(cur))
      ensures forall s | 0 <= s < |machine.states| :: machine.lastExec[s] == counter <==> s in next[|old(next)|..]
    {
      counter := counter + 1;
      ghost var N0, L0 := next, machine.lastExec;
      var sym := Symbol(signedChar, text, ptr);
      assert next[|N0|..] == [];
      Walk(Some(sym), rank, N0, L0);
      ptr := ptr + 1;
    }

    /**
     * The loop of `step`: walks the current frontier while it grows by the
     * empty-transition targets of each entry, and pushes the targets of each
     * entry on `sym`, when one is given, onto `next`.
     */
    method Walk(sym: Option<int>, ghost rank: seq<nat>, ghost N0: seq<nat>, ghost L0: seq<nat>)
      requires machine.Valid() && WellFormed(machine.states) && Ranked(Edges(machine.states, Epsilon), rank)
      requires forall k | 0 <= k < |cur| :: cur[k] < |machine.states|
      requires forall k | 0 <= k < |next| :: next[k] < |machine.states|
      requires Stamped(N0, L0) && next == N0 && |L0| == |machine.states|
      requires forall s | 0 <= s < |L0| :: machine.lastExec[s] <= counter
      modifies `cur, `next, machine`lastExec
      ensures old(cur) <= cur && Elems(cur) == Closure(Edges(machine.states, Epsilon), Elems(old(cur)))
      ensures forall k | 0 <= k < |cur| :: cur[k] < |machine.states|
      ensures forall k | 0 <= k < |next| :: next[k] < |machine.states|
      ensures Stamped(N0, L0) && forall s | 0 <= s < |L0| :: machine.lastExec[s] <= counter
      ensures sym.Some? ==> Elems(next[|N0|..]) == Move(Edges(machine.states, sym.value), Elems(cur))
      ensures sym.None? ==> next == N0
    {
      ghost var C0 := cur;
      ghost var eg := Edges(machine.states, Epsilon);
      ghost var sg := Edges(machine.states, if sym.Some? then sym.value else Epsilon);
      EdgesWellFormed(machine.states, if sym.Some? then sym.value else Epsilon);
      assert next[|N0|..] == [];
      var i := 0;
      while i < |cur|
        invariant i <= |cur| && C0 <= cur && forall k | 0 <= k < |cur| :: cur[k] < |machine.states|
        invariant Elems(cur) <= Closure(eg, Elems(C0))
        invariant Move(eg, Elems(cur[..i])) <= Elems(cur)
        invariant Stamped(N0, L0) && machine.Valid()
        invariant forall k | 0 <= k < |next| :: next[k] < |machine.states|
        invariant sym.Some? ==> Elems(next[|N0|..]) == Move(sg, Elems(cur[..i]))
        invariant sym.None? ==> next == N0
        invariant forall s | 0 <= s < |L0| :: machine.lastExec[s] <= counter
        decreases Pending(eg, rank, cur[i..])
        modifies `cur, `next, machine`lastExec
      {
        ghost var before := cur;
        ExpandKeeps(eg, Elems(C0), cur, i);
        ExpandDecreases(eg, rank, cur, i);
        MoveNext(sg, cur, i);
        Visit(i, sym, N0, L0);
        assert cur[..i + 1] == before[..i + 1];
        i := i + 1;
      }
      assert cur[..i] == cur;
      ClosureLeast(eg, Elems(C0), Elems(cur));
    }

    /**
     * `execute`: resets the counter, both frontiers and every stamp, puts the
     * start state in the next frontier, and alternates `accepting()` checks
     * and steps until the current frontier accepts or the next one is empty.
     * The verdict depends on the automaton and the text only, not on any
     * earlier run. The model stops, with `PastEnd`, where the step with the
     * cursor past the terminator does not accept and the loop would go on
     * reading beyond the text.
     */
    method Execute(input: seq<byte>, ghost rank: seq<nat>) returns (r: Verdict)
      requires machine.Valid() && WellFormed(machine.states) && machine.startState < |machine.states|
      requires Ranked(Edges(machine.states, Epsilon), rank)
      requires forall k | 0 <= k < |input| :: input[k] != 0
      modifies `counter, `cur, `next, `text, `ptr, machine`lastExec
      ensures r == Run(machine.states, signedChar, input, {}, {machine.startState}, 0)
    {
      Reset();
      text, ptr := input, 0;
      next := next + [machine.startState];
      assert Elems(cur) == {} && Elems(next) == {machine.startState};
      r := Loop(rank);
    }

    /** The start of `execute`: the counter, both frontiers and every stamp back to zero. */
    method Reset()
      requires machine.Valid()
      modifies `counter, `cur, `next, machine`lastExec
      ensures counter == 0 && cur == [] && next == []
      ensures machine.Valid() && forall s | 0 <= s < |machine.lastExec| :: machine.lastExec[s] == 0
    {
      counter := 0;
      cur := [];
      next := [];
      var k := 0;
      while k < |machine.lastExec|
        invariant k <= |machine.lastExec| == |machine.states|
        invariant forall j | 0 <= j < k :: machine.lastExec[j] == 0
        modifies machine`lastExec
      {
        machine.lastExec := machine.lastExec[k := 0];
        k := k + 1;
      }
    }

    /**
     * The loop of `execute`: checks `accepting()`, stops when the next
     * frontier is empty, and otherwise swaps the frontiers and steps.
     */
    method Loop(ghost rank: seq<nat>) returns (r: Verdict)
      requires Valid() && Ranked(Edges(machine.states, Epsilon), rank) && ptr <= |text| + 1
      modifies `counter, `cur, `next, `ptr, machine`lastExec
      ensures r == Run(machine.states, signedChar, text, Elems(old(cur)), Elems(old(next)), old(ptr))
    {
      ghost var goal := Run(machine.states, signedChar, text, Elems(cur), Elems(next), ptr);
      while true
        invariant Valid() && ptr <= |text| + 1
        invariant Run(machine.states, signedChar, text, Elems(cur), Elems(next), ptr) == goal
        decreases |text| + 1 - ptr
      {
        var accepted := Accepting();
        if accepted {
          return Accept;
        }
        if next == [] {
          return Reject;
        }
        assert next[0] in Elems(next);
        if ptr > |text| {
          r := Overrun(rank);
          return;
        }
        Advance(rank);
      }
    }

    /**
     * The round of the loop with the cursor past the terminator: the
     * frontiers are swapped and the step's walk expands the new current
     * frontier, which `accepting()` then checks. The targets that step
     * pushes depend on the byte after the terminator, which is not part of
     * the text; the model does not read it and ends with `PastEnd` when the
     * check fails.
     */
    method Overrun(ghost rank: seq<nat>) returns (r: Verdict)
      requires Valid() && Ranked(Edges(machine.states, Epsilon), rank)
      modifies `counter, `cur, `next, `ptr, machine`lastExec
      ensures r == if AnyAccepting(machine.states, Closure(Edges(machine.states, Epsilon), Elems(old(next))))
                   then Accept else PastEnd
    {
      cur, next := next, [];
      counter := counter + 1;
      ghost var N0, L0 := next, machine.lastExec;
      Walk(None, rank, N0, L0);
      ptr := ptr + 1;
      var accepted := Accepting();
      r := if accepted then Accept else PastEnd;
    }

    /** One round of the loop that neither accepts nor stops: swap the frontiers, clear `next` and step. */
    method Advance(ghost rank: seq<nat>)
      requires Valid() && Ranked(Edges(machine.states, Epsilon), rank) && ptr <= |text|
      requires !AnyAccepting(machine.states, Elems(cur)) && next != []
      modifies `counter, `cur, `next, `ptr, machine`lastExec
      ensures Valid() && ptr == old(ptr) + 1
      ensures Run(machine.states, signedChar, text, Elems(cur), Elems(next), ptr) ==
              Run(machine.states, signedChar, text, Elems(old(cur)), Elems(old(next)), old(ptr))
    {
      ghost var states, N, P := machine.states, Elems(next), ptr;
      assert next[0] in N;
      RunUnfold(states, signedChar, text, Elems(cur), N, P);
      cur, next := next, [];
      Step(rank);
      assert next[0..] == next;
      assert Elems(cur) == Closure(Edges(states, Epsilon), N);
      assert Elems(next) == Move(Edges(states, Symbol(signedChar, text, P)), Elems(cur));
    }
  }
}
