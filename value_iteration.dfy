/**
 * `ValueIterationAgent`: `k` in-place sweeps of the Bellman optimality backup
 * over the value table, then a one-step lookahead argmax per state.
 */
module ValueIteration {
  import opened Mdp
  import opened InPlace

  /** The table after `n` sweeps of the optimality backup in key order `order`. */
  function Sweeps<G, M(==)>(mdp: Mdp<G, M>, discount: real, order: seq<G>, values: map<G, real>, n: nat)
    : (r: map<G, real>)
    requires Closed(mdp, values.Keys) && forall s :: s in order ==> s in values
    ensures r.Keys == values.Keys
  {
    if n == 0 then values
    else Sweep(mdp, discount, Optimal, order, Sweeps(mdp, discount, order, values, n - 1))
  }

  /** After at least one sweep over every key, every terminal state holds 0. */
  lemma SweepsSettle<G, M>(mdp: Mdp<G, M>, discount: real, order: seq<G>, values: map<G, real>, n: nat)
    requires Closed(mdp, values.Keys) && IsEnumeration(order, values.Keys)
    requires n > 0 || Settled(mdp.rules, values)
    ensures Settled(mdp.rules, Sweeps(mdp, discount, order, values, n))
  {
    if n > 0 {
      SweepSettles(mdp, discount, Optimal, order, Sweeps(mdp, discount, order, values, n - 1));
    }
  }

  /** The value table `extractPolicy` leaves after visiting the keys of
      `order`: every visited terminal state is reset to 0. */
  function ExtractedValues<G, M(==)>(rules: Rules<G, M>, order: seq<G>, values: map<G, real>): (r: map<G, real>)
    requires forall s :: s in order ==> s in values
    ensures r.Keys == values.Keys
  {
    if order == [] then values
    else
      var before := ExtractedValues(rules, order[..|order| - 1], values);
      var s := order[|order| - 1];
      if rules.isTerminal(s) then before[s := 0.0] else before
  }

  /** The policy `extractPolicy` builds while visiting the keys of `order`. A
      terminal state gets no entry; a non-terminal one gets the first move of
      maximal lookahead against the table as it stands at that moment. */
  function ExtractedPolicy<G, M(==)>(mdp: Mdp<G, M>, discount: real, order: seq<G>, values: map<G, real>)
    : map<G, M>
    requires Closed(mdp, values.Keys) && forall s :: s in order ==> s in values
  {
    if order == [] then map[]
    else
      var prefix := order[..|order| - 1];
      var before := ExtractedPolicy(mdp, discount, prefix, values);
      var s := order[|order| - 1];
      if mdp.rules.isTerminal(s) then before
      else before[s := BestMove(mdp, discount, ExtractedValues(mdp.rules, prefix, values), s)]
  }

  /** The only values `extractPolicy` changes are those of visited terminal
      states, which become 0. */
  lemma {:induction false} ExtractedValuesShape<G, M>(rules: Rules<G, M>, order: seq<G>, values: map<G, real>)
    requires forall s :: s in order ==> s in values
    ensures var r := ExtractedValues(rules, order, values);
            forall s :: s in values ==> r[s] == if s in order && rules.isTerminal(s) then 0.0 else values[s]
  {
    if order != [] {
      ExtractedValuesShape(rules, order[..|order| - 1], values);
    }
  }

  /** Exactly the visited non-terminal states get a policy entry. */
  lemma {:induction false} ExtractedPolicyKeys<G, M>(mdp: Mdp<G, M>, discount: real, order: seq<G>, values: map<G, real>)
    requires Closed(mdp, values.Keys) && forall s :: s in order ==> s in values
    ensures var p := ExtractedPolicy(mdp, discount, order, values);
            && (forall s :: s in p ==> s in order && !mdp.rules.isTerminal(s))
            && (forall s :: s in order && !mdp.rules.isTerminal(s) ==> s in p)
  {
    if order != [] {
      ExtractedPolicyKeys(mdp, discount, order[..|order| - 1], values);
    }
  }

  /** The last visit of `extractPolicy` records the current best move of a
      non-terminal state. */
  lemma ExtractLast<G, M>(mdp: Mdp<G, M>, discount: real, order: seq<G>, values: map<G, real>)
    requires Closed(mdp, values.Keys) && forall s :: s in order ==> s in values
    requires |order| > 0 && !mdp.rules.isTerminal(order[|order| - 1])
    ensures var now := ExtractedValues(mdp.rules, order[..|order| - 1], values);
            var s := order[|order| - 1];
            var p := ExtractedPolicy(mdp, discount, order, values);
            s in p && p[s] == BestMove(mdp, discount, now, s)
  {
  }

  /** The last visit of `extractPolicy` keeps every entry the policy already
      has for another state. */
  lemma ExtractKeeps<G, M>(mdp: Mdp<G, M>, discount: real, order: seq<G>, values: map<G, real>, k: G)
    requires Closed(mdp, values.Keys) && forall s :: s in order ==> s in values
    requires |order| > 0 && k != order[|order| - 1]
    requires k in ExtractedPolicy(mdp, discount, order[..|order| - 1], values)
    ensures var before := ExtractedPolicy(mdp, discount, order[..|order| - 1], values);
            var p := ExtractedPolicy(mdp, discount, order, values);
            k in p && p[k] == before[k]
  {
  }

  /** Once `extractPolicy` has gone past the `j`-th visited state, the move
      recorded for it is still the first move of maximal lookahead against
      the table as it stood when the loop reached the state. */
  lemma {:induction false} ExtractChoiceUpTo<G, M>(
    mdp: Mdp<G, M>, discount: real, order: seq<G>, values: map<G, real>, j: nat, i: nat)
    requires Closed(mdp, values.Keys) && forall s :: s in order ==> s in values
    requires forall a, b :: 0 <= a < b < |order| ==> order[a] != order[b]
    requires j < i <= |order| && !mdp.rules.isTerminal(order[j])
    ensures var now := ExtractedValues(mdp.rules, order[..j], values);
            var p := ExtractedPolicy(mdp, discount, order[..i], values);
            order[j] in p && p[order[j]] == BestMove(mdp, discount, now, order[j])
    decreases i
  {
    var prefix := order[..i];
    assert prefix[..i - 1] == order[..i - 1] && prefix[i - 1] == order[i - 1];
    if i == j + 1 {
      ExtractLast(mdp, discount, prefix, values);
    } else {
      ExtractChoiceUpTo(mdp, discount, order, values, j, i - 1);
      assert order[j] != order[i - 1];
      ExtractKeeps(mdp, discount, prefix, values, order[j]);
    }
  }

  /** The move chosen for the `j`-th visited state is the first move of
      maximal lookahead against the table as it stood when the loop reached
      the state (and so a legal one). */
  lemma ExtractChoice<G, M>(mdp: Mdp<G, M>, discount: real, order: seq<G>, values: map<G, real>, j: nat)
    requires Closed(mdp, values.Keys) && forall s :: s in order ==> s in values
    requires forall a, b :: 0 <= a < b < |order| ==> order[a] != order[b]
    requires j < |order| && !mdp.rules.isTerminal(order[j])
    ensures var now := ExtractedValues(mdp.rules, order[..j], values);
            var p := ExtractedPolicy(mdp, discount, order, values);
            order[j] in p && p[order[j]] == BestMove(mdp, discount, now, order[j])
  {
    ExtractChoiceUpTo(mdp, discount, order, values, j, |order|);
    assert order[..|order|] == order;
  }

  /** On a table whose terminal states already hold 0, `extractPolicy` leaves
      the table as it is and picks, for every non-terminal state, the first
      move of maximal lookahead against that table. */
  lemma {:induction false} ExtractSettled<G, M>(mdp: Mdp<G, M>, discount: real, order: seq<G>, values: map<G, real>)
    requires Closed(mdp, values.Keys) && forall s :: s in order ==> s in values
    requires Settled(mdp.rules, values)
    ensures ExtractedValues(mdp.rules, order, values) == values
    ensures var p := ExtractedPolicy(mdp, discount, order, values);
            forall s :: s in p ==> s in values && !mdp.rules.isTerminal(s) && p[s] == BestMove(mdp, discount, values, s)
  {
    if order != [] {
      ExtractSettled(mdp, discount, order[..|order| - 1], values);
    }
  }

  /** After one `extractPolicy` over every key, the table is settled, so a
      second call leaves it unchanged; when the table was settled to begin
      with, the second call also returns the same policy. */
  lemma ExtractTwice<G, M>(mdp: Mdp<G, M>, discount: real, order: seq<G>, values: map<G, real>)
    requires Closed(mdp, values.Keys) && IsEnumeration(order, values.Keys)
    ensures var v1 := ExtractedValues(mdp.rules, order, values);
            && ExtractedValues(mdp.rules, order, v1) == v1
            && (Settled(mdp.rules, values) ==>
                  ExtractedPolicy(mdp, discount, order, v1) == ExtractedPolicy(mdp, discount, order, values))
  {
    var v1 := ExtractedValues(mdp.rules, order, values);
    ExtractedValuesShape(mdp.rules, order, values);
    assert Settled(mdp.rules, v1);
    ExtractSettled(mdp, discount, order, v1);
    if Settled(mdp.rules, values) {
      ExtractSettled(mdp, discount, order, values);
      ExtractedPolicyKeys(mdp, discount, order, values);
      ExtractedPolicyKeys(mdp, discount, order, v1);
      var p1 := ExtractedPolicy(mdp, discount, order, values);
      var p2 := ExtractedPolicy(mdp, discount, order, v1);
      assert p2.Keys == p1.Keys;
      assert p2 == p1;
    }
  }

  /** `train` when it starts from a settled table or sweeps at least once: the
      stored table is the table after `k` sweeps, and the stored policy gives
      every non-terminal key, and no terminal one, the first move of maximal
      lookahead against that table. */
  lemma TrainGreedy<G, M>(mdp: Mdp<G, M>, discount: real, order: seq<G>, values: map<G, real>, k: nat)
    requires Closed(mdp, values.Keys) && IsEnumeration(order, values.Keys)
    requires k > 0 || Settled(mdp.rules, values)
    ensures var swept := Sweeps(mdp, discount, order, values, k);
            ExtractedValues(mdp.rules, order, swept) == swept
    ensures var swept := Sweeps(mdp, discount, order, values, k);
            var p := ExtractedPolicy(mdp, discount, order, swept);
            && (forall s :: s in p ==> s in values && !mdp.rules.isTerminal(s))
            && (forall s :: s in values && !mdp.rules.isTerminal(s) ==> s in p)
            && (forall s :: s in p ==> p[s] == BestMove(mdp, discount, swept, s))
  {
    var swept := Sweeps(mdp, discount, order, values, k);
    SweepsSettle(mdp, discount, order, values, k);
    ExtractSettled(mdp, discount, order, swept);
    ExtractedPolicyKeys(mdp, discount, order, swept);
  }

  class ValueIterationAgent<G(==), M(==)> {
    /** The value of each state. */
    var valueFunction: map<G, real>
    var discount: real
    var mdp: Mdp<G, M>
    /** The number of sweeps `iterate` performs. */
    var k: nat
    /** The policy the agent plays (a field of its `Agent` superclass). */
    var policy: map<G, M>

    /** The value table covers every state a transition can reach, and its
        terminal states hold 0. */
    ghost predicate Valid()
      reads this`mdp, this`valueFunction
    {
      Closed(mdp, valueFunction.Keys) && Settled(mdp.rules, valueFunction)
    }

    /** The constructor that takes the rewards: it sets the discount and the
        transition model and leaves the value table empty. */
    constructor (mdp: Mdp<G, M>, discount: real)
      ensures Valid()
      ensures this.mdp == mdp && this.discount == discount && k == 10
      ensures valueFunction == map[] && policy == map[]
    {
      this.mdp := mdp;
      this.discount := discount;
      k := 10;
      valueFunction := map[];
      policy := map[];
    }

    /** The default constructors: `initValues` over the generated states, then
        `train`. */
    constructor Trained(mdp: Mdp<G, M>, discount: real, allGames: seq<G>, order: seq<G>)
      requires Closed(mdp, set g | g in allGames)
      requires IsEnumeration(order, set g | g in allGames)
      ensures Valid()
      ensures this.mdp == mdp && this.discount == discount && k == 10
      ensures var swept := Sweeps(mdp, discount, order, map g | g in allGames :: 0.0, 10);
              valueFunction == ExtractedValues(mdp.rules, order, swept) &&
              policy == ExtractedPolicy(mdp, discount, order, swept)
    {
      this.mdp := mdp;
      this.discount := discount;
      k := 10;
      valueFunction := map[];
      policy := map[];
      new;
      InitValues(allGames);
      assert valueFunction == map g | g in allGames :: 0.0;
      Train(order);
    }

    /** Maps every generated state to 0. */
    method InitValues(allGames: seq<G>)
      requires Valid() && Closed(mdp, valueFunction.Keys + set g | g in allGames)
      modifies this`valueFunction
      ensures Valid()
      ensures valueFunction == old(valueFunction) + map g | g in allGames :: 0.0
    {
      for i := 0 to |allGames|
        invariant valueFunction == old(valueFunction) + map g | g in allGames[..i] :: 0.0
      {
        assert forall g :: g in allGames[..i + 1] <==> g in allGames[..i] || g == allGames[i];
        valueFunction := valueFunction[allGames[i] := 0.0];
      }
      assert allGames[..|allGames|] == allGames;
    }

    /** Performs exactly `k` sweeps of the optimality backup over the table,
        visiting the keys in `order` (the table's `keySet()` order). */
    method Iterate(order: seq<G>)
      requires Valid() && IsEnumeration(order, valueFunction.Keys)
      modifies this`valueFunction
      ensures Valid()
      ensures valueFunction == Sweeps(mdp, discount, order, old(valueFunction), k)
    {
      ghost var start := valueFunction;
      for i := 0 to k
        invariant Valid() && valueFunction.Keys == start.Keys
        invariant valueFunction == Sweeps(mdp, discount, order, start, i)
      {
        SweepOnce(order);
        assert valueFunction == Sweeps(mdp, discount, order, start, i + 1);
      }
    }

    /** One sweep of `iterate`: a terminal state is set to 0, any other state
        to its largest lookahead, computed from the table as it stands. */
    method SweepOnce(order: seq<G>)
      requires Valid() && IsEnumeration(order, valueFunction.Keys)
      modifies this`valueFunction
      ensures Valid()
      ensures valueFunction == Sweep(mdp, discount, Optimal, order, old(valueFunction))
    {
      ghost var before := valueFunction;
      for j := 0 to |order|
        invariant valueFunction.Keys == before.Keys
        invariant valueFunction == Sweep(mdp, discount, Optimal, order[..j], before)
      {
        var gameState := order[j];
        assert order[..j + 1][..j] == order[..j];
        assert Sweep(mdp, discount, Optimal, order[..j + 1], before) ==
               valueFunction[gameState := NewValue(mdp, discount, Optimal, valueFunction, gameState)];
        if mdp.rules.isTerminal(gameState) {
          valueFunction := valueFunction[gameState := 0.0];
        } else {
          var bestMove, maxQval := GreedyLookahead(mdp, discount, valueFunction, gameState);
          valueFunction := valueFunction[gameState := maxQval];
        }
      }
      assert order[..|order|] == order;
      SweepSettles(mdp, discount, Optimal, order, before);
    }

    /** One-step lookahead argmax from every key of the table, in `order`;
        terminal states are reset to 0 and left out of the policy. */
    method ExtractPolicy(order: seq<G>) returns (p: map<G, M>)
      requires Valid() && IsEnumeration(order, valueFunction.Keys)
      modifies this`valueFunction
      ensures Valid()
      ensures valueFunction == ExtractedValues(mdp.rules, order, old(valueFunction))
      ensures p == ExtractedPolicy(mdp, discount, order, old(valueFunction))
    {
      ghost var start := valueFunction;
      p := map[];
      for j := 0 to |order|
        invariant valueFunction == ExtractedValues(mdp.rules, order[..j], start)
        invariant p == ExtractedPolicy(mdp, discount, order[..j], start)
      {
        var currentGameState := order[j];
        assert order[..j + 1][..j] == order[..j];
        if mdp.rules.isTerminal(currentGameState) {
          valueFunction := valueFunction[currentGameState := 0.0];
        } else {
          var optimalMove, maxCumulativeReward := GreedyLookahead(mdp, discount, valueFunction, currentGameState);
          p := p[currentGameState := optimalMove];
        }
      }
      assert order[..|order|] == order;
      ExtractSettled(mdp, discount, order, start);
    }

    /** `iterate`, then `extractPolicy`, whose result becomes the agent's policy. */
    method Train(order: seq<G>)
      requires Valid() && IsEnumeration(order, valueFunction.Keys)
      modifies this`valueFunction, this`policy
      ensures Valid()
      ensures var swept := Sweeps(mdp, discount, order, old(valueFunction), k);
              valueFunction == ExtractedValues(mdp.rules, order, swept) &&
              policy == ExtractedPolicy(mdp, discount, order, swept)
    {
      Iterate(order);
      policy := ExtractPolicy(order);
    }
  }
}
