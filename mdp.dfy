/**
 * The tic-tac-toe Markov decision process as the three agents see it.
 *
 * A game state (`Game`) and a move (`Move`) are type parameters G and M. The
 * state's own queries (`isTerminal`, `getPossibleMoves`) and the model of the
 * opponent (`TTTMDP.generateTransitions`) are given as functions: the agents
 * only call them, so the model takes them as they are.
 */
module Mdp {
  import opened Argmax

  /** One element of what `TTTMDP.generateTransitions(s, a)` returns: the
      probability of the outcome, its local reward and the state reached. */
  datatype Transition<G> = Transition(prob: real, reward: real, sPrime: G)

  /** The queries a game state answers. */
  datatype Rules<!G, !M> = Rules(isTerminal: G -> bool, possibleMoves: G -> seq<M>)

  /** The game together with its transition model. */
  datatype Mdp<!G, !M> = Mdp(rules: Rules<G, M>, transitions: (G, M) -> seq<Transition<G>>)

  /** Every non-terminal state of `states` has at least one legal move. */
  predicate Playable<G, M(==)>(rules: Rules<G, M>, states: set<G>)
  {
    forall g :: g in states && !rules.isTerminal(g) ==> |rules.possibleMoves(g)| > 0
  }

  /** `states` is what `Game.generateAllValidGames` enumerates as far as the
      solvers rely on it: every non-terminal state has a move, and every state
      a transition from it can reach is again in `states`. */
  predicate Closed<G, M(==)>(mdp: Mdp<G, M>, states: set<G>)
  {
    && Playable(mdp.rules, states)
    && forall g, m, t {:trigger t in mdp.transitions(g, m)} ::
         (g in states && !mdp.rules.isTerminal(g) && m in mdp.rules.possibleMoves(g) &&
          t in mdp.transitions(g, m)) ==> t.sPrime in states
  }

  /** No transition leads back to the state it starts from: in tic-tac-toe a
      successor always holds more marks than its source. */
  predicate NoSelfLoops<G, M(==)>(mdp: Mdp<G, M>, states: set<G>)
  {
    forall g, m, t {:trigger t in mdp.transitions(g, m)} ::
      (g in states && !mdp.rules.isTerminal(g) && m in mdp.rules.possibleMoves(g) &&
       t in mdp.transitions(g, m)) ==> t.sPrime != g
  }

  /** `order` lists every element of `keys` exactly once: an iteration order
      of a map's `keySet()`. */
  ghost predicate IsEnumeration<G>(order: seq<G>, keys: set<G>)
  {
    && (forall g :: g in keys ==> g in order)
    && (forall g :: g in order ==> g in keys)
    && Distinct(order)
  }

  /** No element occurs twice in `order`. */
  ghost predicate Distinct<G>(order: seq<G>)
  {
    |order| == 0 || ((forall k :: 0 < k < |order| ==> order[k] != order[0]) && Distinct(order[1..]))
  }

  /** Distinct elements sit at distinct positions. */
  lemma {:induction false} DistinctPairs<G>(order: seq<G>)
    requires Distinct(order)
    ensures forall a, b :: 0 <= a < b < |order| ==> order[a] != order[b]
  {
    if |order| > 0 {
      DistinctPairs(order[1..]);
      forall a, b | 0 < a < b < |order|
        ensures order[a] != order[b]
      {
        assert order[a] == order[1..][a - 1] && order[b] == order[1..][b - 1];
      }
    }
  }

  /** Every terminal state of a value table holds 0. */
  predicate Settled<G, M(==)>(rules: Rules<G, M>, values: map<G, real>)
  {
    forall g :: g in values && rules.isTerminal(g) ==> values[g] == 0.0
  }

  /** The expected return of a list of transitions, accumulated front to back
      as the agents do: the sum of prob * (reward + discount * V[s']). */
  function Backup<G>(ts: seq<Transition<G>>, discount: real, values: map<G, real>): real
    requires forall t :: t in ts ==> t.sPrime in values
  {
    if ts == [] then 0.0
    else
      var t := ts[|ts| - 1];
      Backup(ts[..|ts| - 1], discount, values) + t.prob * (t.reward + discount * values[t.sPrime])
  }

  /** A backup reads the table only at the successors it lists. */
  lemma {:induction false} BackupFrame<G>(ts: seq<Transition<G>>, discount: real, v1: map<G, real>, v2: map<G, real>)
    requires forall t :: t in ts ==> t.sPrime in v1 && t.sPrime in v2 && v1[t.sPrime] == v2[t.sPrime]
    ensures Backup(ts, discount, v1) == Backup(ts, discount, v2)
  {
    if ts != [] {
      BackupFrame(ts[..|ts| - 1], discount, v1, v2);
    }
  }

  /** The one-step lookahead of move `m` in state `s` against the table. */
  function Lookahead<G, M(==)>(mdp: Mdp<G, M>, discount: real, values: map<G, real>, s: G, m: M): real
    requires Closed(mdp, values.Keys) && s in values && !mdp.rules.isTerminal(s)
    requires m in mdp.rules.possibleMoves(s)
  {
    Backup(mdp.transitions(s, m), discount, values)
  }

  /** The lookaheads of the legal moves of `s`, in `getPossibleMoves` order. */
  function Lookaheads<G, M(==)>(mdp: Mdp<G, M>, discount: real, values: map<G, real>, s: G): (r: seq<real>)
    requires Closed(mdp, values.Keys) && s in values && !mdp.rules.isTerminal(s)
    ensures |r| == |mdp.rules.possibleMoves(s)| > 0
    ensures forall i {:trigger r[i]} :: 0 <= i < |r| ==>
              r[i] == Lookahead(mdp, discount, values, s, mdp.rules.possibleMoves(s)[i])
  {
    var ms := mdp.rules.possibleMoves(s);
    seq(|ms|, i requires 0 <= i < |ms| => Lookahead(mdp, discount, values, s, ms[i]))
  }

  /** The position, in `getPossibleMoves` order, of the first move whose
      lookahead is maximal. */
  function BestIndex<G, M(==)>(mdp: Mdp<G, M>, discount: real, values: map<G, real>, s: G): (i: nat)
    requires Closed(mdp, values.Keys) && s in values && !mdp.rules.isTerminal(s)
    ensures i < |mdp.rules.possibleMoves(s)|
    ensures forall j :: 0 <= j < |mdp.rules.possibleMoves(s)| ==>
              Lookahead(mdp, discount, values, s, mdp.rules.possibleMoves(s)[j]) <=
              Lookahead(mdp, discount, values, s, mdp.rules.possibleMoves(s)[i])
    ensures forall j :: 0 <= j < i ==>
              Lookahead(mdp, discount, values, s, mdp.rules.possibleMoves(s)[j]) <
              Lookahead(mdp, discount, values, s, mdp.rules.possibleMoves(s)[i])
  {
    var vals := Lookaheads(mdp, discount, values, s);
    assert forall j :: 0 <= j < |vals| ==>
             vals[j] == Lookahead(mdp, discount, values, s, mdp.rules.possibleMoves(s)[j]);
    FirstMax(vals)
  }

  /** The first legal move of `s` whose lookahead is maximal. */
  function BestMove<G, M(==)>(mdp: Mdp<G, M>, discount: real, values: map<G, real>, s: G): (m: M)
    requires Closed(mdp, values.Keys) && s in values && !mdp.rules.isTerminal(s)
    ensures m in mdp.rules.possibleMoves(s)
    ensures forall m' :: m' in mdp.rules.possibleMoves(s) ==>
              Lookahead(mdp, discount, values, s, m') <= Lookahead(mdp, discount, values, s, m)
  {
    mdp.rules.possibleMoves(s)[BestIndex(mdp, discount, values, s)]
  }

  /** The largest lookahead over the legal moves of `s`. */
  function BestValue<G, M(==)>(mdp: Mdp<G, M>, discount: real, values: map<G, real>, s: G): (v: real)
    requires Closed(mdp, values.Keys) && s in values && !mdp.rules.isTerminal(s)
    ensures v == Lookahead(mdp, discount, values, s, BestMove(mdp, discount, values, s))
    ensures forall m :: m in mdp.rules.possibleMoves(s) ==> Lookahead(mdp, discount, values, s, m) <= v
  {
    Max(Lookaheads(mdp, discount, values, s))
  }

  /** The innermost loop of every planning agent: accumulate the transitions
      of one move into a running total. */
  method SumTransitions<G>(ts: seq<Transition<G>>, discount: real, values: map<G, real>) returns (total: real)
    requires forall t :: t in ts ==> t.sPrime in values
    ensures total == Backup(ts, discount, values)
  {
    total := 0.0;
    for i := 0 to |ts|
      invariant total == Backup(ts[..i], discount, values)
    {
      var t := ts[i];
      assert ts[..i + 1][..i] == ts[..i];
      total := total + t.prob * (t.reward + discount * values[t.sPrime]);
    }
    assert ts[..|ts|] == ts;
  }

  /** One step of expectimax at `s`: scan the legal moves, keeping the first
      one whose lookahead is strictly greater than every earlier one. Before
      the first move there is no candidate. */
  method GreedyLookahead<G, M(==)>(mdp: Mdp<G, M>, discount: real, values: map<G, real>, s: G)
    returns (best: M, value: real)
    requires Closed(mdp, values.Keys) && s in values && !mdp.rules.isTerminal(s)
    ensures best == BestMove(mdp, discount, values, s)
    ensures value == BestValue(mdp, discount, values, s)
  {
    var moves := mdp.rules.possibleMoves(s);
    ghost var vals := Lookaheads(mdp, discount, values, s);
    var candidate: Option<M> := None;
    value := 0.0;
    for i := 0 to |moves|
      invariant candidate.None? <==> i == 0
      invariant i > 0 ==> candidate.value == moves[FirstMax(vals[..i])] && value == vals[FirstMax(vals[..i])]
    {
      var total := SumTransitions(mdp.transitions(s, moves[i]), discount, values);
      if i > 0 {
        FirstMaxStep(vals, i);
      }
      if candidate.None? || total > value {
        candidate, value := Some(moves[i]), total;
      }
    }
    assert vals[..|moves|] == vals;
    best := candidate.value;
  }
}
