/**
 * An in-place sweep over a value table, as `ValueIterationAgent.iterate` and
 * `PolicyIterationAgent.evaluatePolicy` perform it: the states are visited in
 * the table's key order, a terminal state is reset to 0, and a non-terminal
 * one is overwritten with a backup computed from the table as it stands at
 * that moment, so states visited earlier in the sweep already show their new
 * value.
 */
module InPlace {
  import opened Mdp

  /** The backup a sweep applies at a non-terminal state: the Bellman
      optimality backup (value iteration), or the backup under a fixed policy
      (policy evaluation). */
  datatype Rule<!G, M> = Optimal | Follow(policy: map<G, M>)

  /** The rule can be applied at every non-terminal state of `states`. */
  predicate Applicable<G, M(==)>(mdp: Mdp<G, M>, rule: Rule<G, M>, states: set<G>)
  {
    rule.Follow? ==>
      forall s :: s in states && !mdp.rules.isTerminal(s) ==>
        s in rule.policy && rule.policy[s] in mdp.rules.possibleMoves(s)
  }

  /** The value a sweep writes at `s` given the table as it stands. */
  function NewValue<G, M(==)>(mdp: Mdp<G, M>, discount: real, rule: Rule<G, M>, values: map<G, real>, s: G): real
    requires Closed(mdp, values.Keys) && Applicable(mdp, rule, values.Keys) && s in values
  {
    if mdp.rules.isTerminal(s) then 0.0
    else match rule
      case Optimal => BestValue(mdp, discount, values, s)
      case Follow(policy) => Lookahead(mdp, discount, values, s, policy[s])
  }

  /** The table after visiting the states of `order`, one after the other. */
  function Sweep<G, M(==)>(mdp: Mdp<G, M>, discount: real, rule: Rule<G, M>, order: seq<G>, values: map<G, real>)
    : (r: map<G, real>)
    requires Closed(mdp, values.Keys) && Applicable(mdp, rule, values.Keys)
    requires forall s :: s in order ==> s in values
    ensures r.Keys == values.Keys
  {
    if order == [] then values
    else
      var before := Sweep(mdp, discount, rule, order[..|order| - 1], values);
      var s := order[|order| - 1];
      before[s := NewValue(mdp, discount, rule, before, s)]
  }

  /** A state the sweep does not visit keeps its value. */
  lemma {:induction false} SweepUnvisited<G, M>(
    mdp: Mdp<G, M>, discount: real, rule: Rule<G, M>, order: seq<G>, values: map<G, real>, s: G)
    requires Closed(mdp, values.Keys) && Applicable(mdp, rule, values.Keys)
    requires forall g :: g in order ==> g in values
    requires s in values && s !in order
    ensures Sweep(mdp, discount, rule, order, values)[s] == values[s]
  {
    if order != [] {
      SweepUnvisited(mdp, discount, rule, order[..|order| - 1], values, s);
    }
  }

  /** The value a sweep leaves at the `j`-th visited state is the backup
      computed from the table as it stood when the sweep reached it: later
      visits, being of other states, do not overwrite it. */
  lemma {:induction false} SweepVisit<G, M>(
    mdp: Mdp<G, M>, discount: real, rule: Rule<G, M>, order: seq<G>, values: map<G, real>, j: nat)
    requires Closed(mdp, values.Keys) && Applicable(mdp, rule, values.Keys)
    requires forall g :: g in order ==> g in values
    requires forall a, b :: 0 <= a < b < |order| ==> order[a] != order[b]
    requires j < |order|
    ensures Sweep(mdp, discount, rule, order, values)[order[j]] ==
            NewValue(mdp, discount, rule, Sweep(mdp, discount, rule, order[..j], values), order[j])
  {
    var n := |order| - 1;
    if j < n {
      var before := Sweep(mdp, discount, rule, order[..n], values);
      assert order[..n][..j] == order[..j] && order[..n][j] == order[j];
      SweepVisit(mdp, discount, rule, order[..n], values, j);
      assert Sweep(mdp, discount, rule, order, values) == before[order[n] := NewValue(mdp, discount, rule, before, order[n])];
      assert order[n] != order[j];
    } else {
      assert order[..n] == order[..j];
    }
  }

  /** After a sweep over every key, every terminal state holds 0. */
  lemma SweepSettles<G, M>(mdp: Mdp<G, M>, discount: real, rule: Rule<G, M>, order: seq<G>, values: map<G, real>)
    requires Closed(mdp, values.Keys) && Applicable(mdp, rule, values.Keys)
    requires IsEnumeration(order, values.Keys)
    ensures Settled(mdp.rules, Sweep(mdp, discount, rule, order, values))
  {
    var r := Sweep(mdp, discount, rule, order, values);
    forall s | s in r && mdp.rules.isTerminal(s)
      ensures r[s] == 0.0
    {
      var j :| 0 <= j < |order| && order[j] == s;
      DistinctPairs(order);
      SweepVisit(mdp, discount, rule, order, values, j);
    }
  }

  /** Under the optimality rule, the value written at a non-terminal state is
      the lookahead of one of its legal moves (the first maximal one) and is at
      least every legal move's lookahead, all read from the table as it stood
      at that moment. */
  lemma OptimalSweepVisit<G, M>(mdp: Mdp<G, M>, discount: real, order: seq<G>, values: map<G, real>, j: nat)
    requires Closed(mdp, values.Keys)
    requires IsEnumeration(order, values.Keys)
    requires j < |order| && !mdp.rules.isTerminal(order[j])
    ensures var now := Sweep(mdp, discount, Optimal, order[..j], values);
            var v := Sweep(mdp, discount, Optimal, order, values)[order[j]];
            && v == Lookahead(mdp, discount, now, order[j], BestMove(mdp, discount, now, order[j]))
            && forall m :: m in mdp.rules.possibleMoves(order[j]) ==> Lookahead(mdp, discount, now, order[j], m) <= v
  {
    DistinctPairs(order);
    SweepVisit(mdp, discount, Optimal, order, values, j);
  }

  /** Under a fixed policy, the value written at a non-terminal state is the
      lookahead of the policy's move, read from the table as it stood at that
      moment. */
  lemma FollowSweepVisit<G, M>(
    mdp: Mdp<G, M>, discount: real, policy: map<G, M>, order: seq<G>, values: map<G, real>, j: nat)
    requires Closed(mdp, values.Keys) && Applicable(mdp, Follow(policy), values.Keys)
    requires IsEnumeration(order, values.Keys)
    requires j < |order| && !mdp.rules.isTerminal(order[j])
    ensures var now := Sweep(mdp, discount, Follow(policy), order[..j], values);
            Sweep(mdp, discount, Follow(policy), order, values)[order[j]] ==
            Backup(mdp.transitions(order[j], policy[order[j]]), discount, now)
  {
    DistinctPairs(order);
    SweepVisit(mdp, discount, Follow(policy), order, values, j);
  }
}
