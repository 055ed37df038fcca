/**
 * The automaton data model (`NFA`, `NFA::State`, `NFA::Transition` in
 * src/regex.cpp).
 *
 * A state holds an accepting flag and a list of transitions; a transition
 * holds one symbol and the list of target state indices ("futures"). The
 * symbol -1 is the empty (epsilon) transition, and symbol 0 doubles as the
 * end-of-input marker. States live in an append-only arena and are referred
 * to by index.
 */
module Automaton {
  import opened Wrappers

  /** The symbol of an empty transition. */
  const Epsilon: int := -1

  datatype Transition = Transition(symbol: int, futures: seq<nat>)

  datatype State = State(accepting: bool, transitions: seq<Transition>)

  /** No two transitions of a list share a symbol. */
  predicate UniqueSymbols(ts: seq<Transition>) {
    forall j, k | 0 <= j < k < |ts| :: ts[j].symbol != ts[k].symbol
  }

  /**
   * `State::find`: the position of the first transition on `sym`, or None
   * (the null pointer) when the list has none.
   */
  function Find(ts: seq<Transition>, sym: int): (r: Option<nat>)
    ensures r.None? <==> forall k | 0 <= k < |ts| :: ts[k].symbol != sym
    ensures r.Some? ==> r.value < |ts| && ts[r.value].symbol == sym &&
                        forall k | 0 <= k < r.value :: ts[k].symbol != sym
  {
    if ts == [] then None
    else if ts[0].symbol == sym then Some(0)
    else match Find(ts[1..], sym)
      case None => None
      case Some(k) => Some(k + 1)
  }

  /**
   * `State::get`: the transition list after the call and the position of the
   * transition on `sym` in it. An existing transition is reused; otherwise an
   * empty one is appended.
   */
  function Get(ts: seq<Transition>, sym: int): (r: (seq<Transition>, nat))
    ensures r.1 < |r.0| && r.0[r.1].symbol == sym
    ensures ts <= r.0 && |r.0| <= |ts| + 1
    ensures |r.0| == |ts| <==> exists k | 0 <= k < |ts| :: ts[k].symbol == sym
    ensures |r.0| > |ts| ==> r.0[r.1].futures == []
    ensures UniqueSymbols(ts) ==> UniqueSymbols(r.0)
  {
    match Find(ts, sym)
    case Some(k) => (ts, k)
    case None => (ts + [Transition(sym, [])], |ts|)
  }

  /** The targets of the transition on `sym`, or none when there is no such transition. */
  function TargetsOf(ts: seq<Transition>, sym: int): seq<nat> {
    match Find(ts, sym)
    case None => []
    case Some(k) => ts[k].futures
  }

  /** Two transition lists with the same symbols in the same order agree on `Find`. */
  lemma FindBySymbols(a: seq<Transition>, b: seq<Transition>, sym: int)
    requires |a| == |b| && forall k | 0 <= k < |a| :: a[k].symbol == b[k].symbol
    ensures Find(a, sym) == Find(b, sym)
  {
    match Find(a, sym)
    case None =>
    case Some(i) =>
      assert b[i].symbol == sym;
  }

  /** Appending a transition on another symbol does not change what `Find` returns. */
  lemma FindAppendOther(ts: seq<Transition>, t: Transition, sym: int)
    requires t.symbol != sym
    ensures Find(ts + [t], sym) == Find(ts, sym)
  {
    match Find(ts, sym)
    case None =>
      assert forall k | 0 <= k < |ts + [t]| :: (ts + [t])[k].symbol != sym by {
        forall k | 0 <= k < |ts + [t]| ensures (ts + [t])[k].symbol != sym {
          if k < |ts| { assert (ts + [t])[k] == ts[k]; }
        }
      }
    case Some(i) =>
      assert (ts + [t])[i] == ts[i];
  }

  /**
   * `get(sym).futures.push_back(target)`: the state gains `target` as the
   * last target on `sym`; its targets on every other symbol are unchanged.
   */
  function AddTarget(st: State, sym: int, target: nat): (r: State)
    ensures r.accepting == st.accepting
    ensures TargetsOf(r.transitions, sym) == TargetsOf(st.transitions, sym) + [target]
    ensures forall other | other != sym :: TargetsOf(r.transitions, other) == TargetsOf(st.transitions, other)
    ensures UniqueSymbols(st.transitions) ==> UniqueSymbols(r.transitions)
  {
    PushedSame(st.transitions, sym, target);
    assert forall other | other != sym :: TargetsOf(Pushed(st.transitions, sym, target), other) == TargetsOf(st.transitions, other) by {
      forall other | other != sym
        ensures TargetsOf(Pushed(st.transitions, sym, target), other) == TargetsOf(st.transitions, other)
      {
        PushedOther(st.transitions, sym, target, other);
      }
    }
    st.(transitions := Pushed(st.transitions, sym, target))
  }

  /** The transition list after `get(sym).futures.push_back(target)`. */
  function Pushed(ts: seq<Transition>, sym: int, target: nat): (r: seq<Transition>)
    ensures |r| >= |ts| && forall k | 0 <= k < |ts| :: r[k].symbol == ts[k].symbol
    ensures UniqueSymbols(ts) ==> UniqueSymbols(r)
  {
    var g := Get(ts, sym);
    g.0[g.1 := g.0[g.1].(futures := g.0[g.1].futures + [target])]
  }

  lemma PushedSame(ts: seq<Transition>, sym: int, target: nat)
    ensures TargetsOf(Pushed(ts, sym, target), sym) == TargetsOf(ts, sym) + [target]
  {
    var g := Get(ts, sym);
    FindBySymbols(Pushed(ts, sym, target), g.0, sym);
  }

  lemma PushedOther(ts: seq<Transition>, sym: int, target: nat, other: int)
    requires other != sym
    ensures TargetsOf(Pushed(ts, sym, target), other) == TargetsOf(ts, other)
  {
    var g := Get(ts, sym);
    FindBySymbols(Pushed(ts, sym, target), g.0, other);
    if |g.0| > |ts| {
      assert g.0 == ts + [Transition(sym, [])];
      FindAppendOther(ts, Transition(sym, []), other);
    }
  }

  /** The targets of state `s` on `sym`. */
  function Targets(states: seq<State>, s: nat, sym: int): seq<nat>
    requires s < |states|
  {
    TargetsOf(states[s].transitions, sym)
  }

  /** Every transition of a state targets an index in [lo, hi). */
  predicate TargetsIn(st: State, lo: nat, hi: nat) {
    forall j, t | 0 <= j < |st.transitions| && t in st.transitions[j].futures :: lo <= t < hi
  }

  /** Every transition targets an existing state. */
  predicate WellFormed(states: seq<State>) {
    forall s | 0 <= s < |states| :: TargetsIn(states[s], 0, |states|)
  }

  /** Adding a target inside [lo, hi) keeps all targets of the state inside [lo, hi). */
  lemma AddTargetIn(st: State, sym: int, target: nat, lo: nat, hi: nat)
    requires TargetsIn(st, lo, hi) && lo <= target < hi
    ensures TargetsIn(AddTarget(st, sym, target), lo, hi)
  {
    var g := Get(st.transitions, sym);
    var ts := g.0;
    assert forall j, t | 0 <= j < |ts| && t in ts[j].futures :: lo <= t < hi by {
      forall j, t | 0 <= j < |ts| && t in ts[j].futures ensures lo <= t < hi {
        if j < |st.transitions| { assert ts[j] == st.transitions[j]; }
      }
    }
  }

  /**
   * The stamps `after` are the stamps `before` followed by a zero for each
   * state appended since: old stamps keep their values and new ones start
   * at 0, as `emplace_back` leaves them.
   */
  predicate StampsExtended(before: seq<nat>, after: seq<nat>) {
    |before| <= |after| && after[..|before|] == before &&
    forall k | |before| <= k < |after| :: after[k] == 0
  }

  lemma StampsExtendedTrans(a: seq<nat>, b: seq<nat>, c: seq<nat>)
    requires StampsExtended(a, b) && StampsExtended(b, c)
    ensures StampsExtended(a, c)
  {
    assert c[..|a|] == c[..|b|][..|a|];
  }

  /**
   * The automaton: the state arena, the per-state execution stamps
   * (`State::last_exec`, kept beside the states because only the engine
   * writes them) and the start state.
   */
  class NFA {
    var states: seq<State>
    var lastExec: seq<nat>
    var startState: nat

    predicate Valid()
      reads this
    {
      |lastExec| == |states|
    }

    constructor ()
      ensures Valid() && states == [] && startState == 0
    {
      states, lastExec, startState := [], [], 0;
    }

    /** `states.emplace_back()`, followed by setting the accepting flag when asked. */
    method AddState(accepting: bool) returns (id: nat)
      requires Valid()
      modifies this
      ensures Valid() && id == |old(states)|
      ensures states == old(states) + [State(accepting, [])]
      ensures lastExec == old(lastExec) + [0] && startState == old(startState)
    {
      id := |states|;
      states := states + [State(accepting, [])];
      lastExec := lastExec + [0];
    }

    /** `states[from].get(sym).futures.push_back(to)`. */
    method AddEdge(from: nat, sym: int, to: nat)
      requires Valid() && from < |states|
      modifies this`states
      ensures Valid() && states == old(states)[from := AddTarget(old(states)[from], sym, to)]
    {
      states := states[from := AddTarget(states[from], sym, to)];
    }
  }
}
