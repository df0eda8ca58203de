/**
 * `QLearningAgent`: a Q-table over the generated states, updated one
 * observed outcome (s, a, r, s') at a time by the temporal-difference rule,
 * an epsilon-greedy move choice, and a greedy policy read off the table.
 *
 * The Q-table (`QTable`, a map from games to maps from moves to values) is a
 * `map<G, map<M, real>>`.
 */
module QLearning {
  import opened Argmax
  import opened Mdp

  /** What `TTTEnvironment.executeMove` reports: the source state, the move
      played, the reward received and the state after the opponent's reply. */
  datatype Outcome<G, M> = Outcome(s: G, move: M, localReward: real, sPrime: G)

  /** Every tabulated state has at least one legal move, and a value for each
      of its legal moves. */
  predicate QValid<G, M(==)>(rules: Rules<G, M>, q: map<G, map<M, real>>)
  {
    forall g :: g in q ==>
      && |rules.possibleMoves(g)| > 0
      && forall m :: m in rules.possibleMoves(g) ==> m in q[g]
  }

  /** `QTable.addQValue`: set Q(g, m) to `v`, creating the row for `g` when
      it is missing. */
  function AddQValue<G, M>(q: map<G, map<M, real>>, g: G, m: M, v: real): (r: map<G, map<M, real>>)
    ensures r.Keys == q.Keys + {g}
    ensures r[g].Keys == (if g in q then q[g].Keys else {}) + {m} && r[g][m] == v
    ensures forall m' :: m' in r[g] && m' != m ==> r[g][m'] == q[g][m']
    ensures forall g' :: g' in q && g' != g ==> r[g'] == q[g']
  {
    q[g := (if g in q then q[g] else map[])[m := v]]
  }

  /** The table after `addQValue(g, m, 0.0)` for each move of `moves`. */
  function AddZeros<G, M>(q: map<G, map<M, real>>, g: G, moves: seq<M>): map<G, map<M, real>>
  {
    if moves == [] then q
    else AddQValue(AddZeros(q, g, moves[..|moves| - 1]), g, moves[|moves| - 1], 0.0)
  }

  /** The table after `initQTable` has visited `games`. */
  function InitTable<G, M(==)>(rules: Rules<G, M>, q: map<G, map<M, real>>, games: seq<G>): map<G, map<M, real>>
  {
    if games == [] then q
    else
      var g := games[|games| - 1];
      AddZeros(InitTable(rules, q, games[..|games| - 1]), g, rules.possibleMoves(g))
  }

  /** Adding zeros for `moves` in row `g` gives `g` a row (if `moves` is not
      empty) holding 0 at every listed move, and changes nothing else. */
  lemma {:induction false} AddZerosShape<G, M>(q: map<G, map<M, real>>, g: G, moves: seq<M>)
    ensures var r := AddZeros(q, g, moves);
            && r.Keys == q.Keys + (if moves == [] then {} else {g})
            && (forall g' :: g' in q && g' != g ==> r[g'] == q[g'])
            && (g in r ==>
                  && (forall m :: m in r[g] ==> m in moves || (g in q && m in q[g]))
                  && (forall m :: m in moves || (g in q && m in q[g]) ==> m in r[g])
                  && (forall m :: m in r[g] ==> r[g][m] == if m in moves then 0.0 else q[g][m]))
  {
    if moves != [] {
      AddZerosShape(q, g, moves[..|moves| - 1]);
      assert forall m :: m in moves <==> m in moves[..|moves| - 1] || m == moves[|moves| - 1];
    }
  }

  /** `initQTable` gives every generated state that has a move a row, sets
      Q(g, m) to 0 for every move m of every generated state g, and leaves
      the rows of the other states as they were. */
  lemma {:induction false} InitTableShape<G, M>(rules: Rules<G, M>, q: map<G, map<M, real>>, games: seq<G>)
    ensures forall g :: g in InitTable(rules, q, games) ==> g in q || (g in games && |rules.possibleMoves(g)| > 0)
    ensures forall g :: g in q || (g in games && |rules.possibleMoves(g)| > 0) ==> g in InitTable(rules, q, games)
    ensures forall g, m :: g in games && m in rules.possibleMoves(g) ==>
              g in InitTable(rules, q, games) && m in InitTable(rules, q, games)[g] &&
              InitTable(rules, q, games)[g][m] == 0.0
    ensures forall g :: g in q && g !in games ==> InitTable(rules, q, games)[g] == q[g]
    ensures forall g, m :: g in InitTable(rules, q, games) && m in InitTable(rules, q, games)[g] ==>
              m in rules.possibleMoves(g) || (g in q && m in q[g])
  {
    if games != [] {
      var prefix := games[..|games| - 1];
      var g := games[|games| - 1];
      var mid := InitTable(rules, q, prefix);
      var r := InitTable(rules, q, games);
      assert r == AddZeros(mid, g, rules.possibleMoves(g));
      InitTableShape(rules, q, prefix);
      AddZerosShape(mid, g, rules.possibleMoves(g));
      assert forall h :: h in games <==> h in prefix || h == g;
      forall h, m | h in games && m in rules.possibleMoves(h)
        ensures h in r && m in r[h] && r[h][m] == 0.0
      {
        if h != g {
          assert h in prefix && h in mid && r[h] == mid[h];
        } else {
          assert m in r[g];
        }
      }
      forall h | h in r
        ensures forall m :: m in r[h] ==> m in rules.possibleMoves(h) || (h in q && m in q[h])
      {
        if h != g {
          assert h in mid && r[h] == mid[h];
        } else {
          forall m | m in r[g] && m !in rules.possibleMoves(g)
            ensures h in q && m in q[h]
          {
            assert g in mid && m in mid[g];
          }
        }
      }
    }
  }

  /** `initQTable` on a table that is valid stays valid. */
  lemma InitTableValid<G, M>(rules: Rules<G, M>, q: map<G, map<M, real>>, games: seq<G>)
    requires QValid(rules, q)
    ensures QValid(rules, InitTable(rules, q, games))
  {
    var r := InitTable(rules, q, games);
    InitTableShape(rules, q, games);
    forall g | g in r
      ensures |rules.possibleMoves(g)| > 0 && forall m :: m in rules.possibleMoves(g) ==> m in r[g]
    {
      if g !in games {
        assert g in q && r[g] == q[g];
      }
    }
  }

  /** The table a new agent builds: `initQTable` on an empty `QTable`. */
  function InitialTable<G, M(==)>(rules: Rules<G, M>, games: seq<G>): (r: map<G, map<M, real>>)
    ensures QValid(rules, r)
  {
    InitTableValid(rules, map[], games);
    InitTable(rules, map[], games)
  }

  /** The Q-values of the legal moves of `s`, in `getPossibleMoves` order. */
  function QValues<G, M(==)>(rules: Rules<G, M>, q: map<G, map<M, real>>, s: G): (r: seq<real>)
    requires QValid(rules, q) && s in q
    ensures |r| == |rules.possibleMoves(s)| > 0
    ensures forall i :: 0 <= i < |r| ==> r[i] == q[s][rules.possibleMoves(s)[i]]
  {
    var ms := rules.possibleMoves(s);
    seq(|ms|, i requires 0 <= i < |ms| => q[s][ms[i]])
  }

  /** `calculateMaxQValue`: 0 at a terminal state, otherwise the largest
      Q-value over the legal moves. */
  function MaxQ<G, M(==)>(rules: Rules<G, M>, q: map<G, map<M, real>>, s: G): (r: real)
    requires QValid(rules, q) && (rules.isTerminal(s) || s in q)
    ensures rules.isTerminal(s) ==> r == 0.0
    ensures !rules.isTerminal(s) ==>
              && (exists m :: m in rules.possibleMoves(s) && r == q[s][m])
              && forall m :: m in rules.possibleMoves(s) ==> q[s][m] <= r
  {
    if rules.isTerminal(s) then 0.0
    else
      var vals := QValues(rules, q, s);
      var i := FirstMax(vals);
      assert vals[i] == q[s][rules.possibleMoves(s)[i]];
      Max(vals)
  }

  /** The first legal move of `s` of maximal Q-value: the move a scan keeps
      when it replaces its candidate only on a strictly greater value. */
  function BestQMove<G, M(==)>(rules: Rules<G, M>, q: map<G, map<M, real>>, s: G): (m: M)
    requires QValid(rules, q) && s in q
    ensures m in rules.possibleMoves(s)
    ensures forall m' :: m' in rules.possibleMoves(s) ==> q[s][m'] <= q[s][m]
    ensures exists i :: 0 <= i < |rules.possibleMoves(s)| && m == rules.possibleMoves(s)[i] &&
                        forall j :: 0 <= j < i ==> q[s][rules.possibleMoves(s)[j]] < q[s][m]
  {
    var i := FirstMax(QValues(rules, q, s));
    rules.possibleMoves(s)[i]
  }

  /** The last legal move of `s` of maximal Q-value: the move a scan keeps
      when it replaces its candidate on a greater or equal value. */
  function LastQMove<G, M(==)>(rules: Rules<G, M>, q: map<G, map<M, real>>, s: G): (m: M)
    requires QValid(rules, q) && s in q
    ensures m in rules.possibleMoves(s)
    ensures forall m' :: m' in rules.possibleMoves(s) ==> q[s][m'] <= q[s][m]
    ensures exists i :: 0 <= i < |rules.possibleMoves(s)| && m == rules.possibleMoves(s)[i] &&
                        forall j :: i < j < |rules.possibleMoves(s)| ==> q[s][rules.possibleMoves(s)[j]] < q[s][m]
  {
    var i := LastMax(QValues(rules, q, s));
    rules.possibleMoves(s)[i]
  }

  /** The greedy policy `extractPolicy` reads off the table: every
      non-terminal tabulated state gets its first maximal move. */
  function QPolicy<G, M(==)>(rules: Rules<G, M>, q: map<G, map<M, real>>): (p: map<G, M>)
    requires QValid(rules, q)
    ensures forall g :: g in q && !rules.isTerminal(g) ==> g in p
    ensures forall g :: g in p ==>
              && g in q && !rules.isTerminal(g)
              && p[g] in rules.possibleMoves(g)
              && forall m :: m in rules.possibleMoves(g) ==> q[g][m] <= q[g][p[g]]
  {
    map g | g in q && !rules.isTerminal(g) :: BestQMove(rules, q, g)
  }

  /** Everything an outcome needs from the table for the update to read it:
      a value for the move played, and a row for the next state unless that
      state is terminal. */
  predicate Fits<G, M>(q: map<G, map<M, real>>, isTerminal: G -> bool, o: Outcome<G, M>)
  {
    o.s in q && o.move in q[o.s] && (isTerminal(o.sPrime) || o.sPrime in q)
  }

  /** The temporal-difference target r + discount * maxQ(s'). */
  function Target<G, M(==)>(rules: Rules<G, M>, discount: real, q: map<G, map<M, real>>, o: Outcome<G, M>): real
    requires QValid(rules, q) && Fits(q, rules.isTerminal, o)
  {
    o.localReward + discount * MaxQ(rules, q, o.sPrime)
  }

  /** The learned value: the old value weighted by 1 - alpha plus the
      target weighted by alpha. */
  function Learned(alpha: real, qvalue: real, target: real): real
  {
    var oldWeightedValue := (1.0 - alpha) * qvalue;
    oldWeightedValue + alpha * target
  }

  /** One Q-learning step: Q(s, a) becomes (1 - alpha) * Q(s, a) + alpha *
      target, and no other entry of the table changes. */
  function QUpdate<G, M(==)>(rules: Rules<G, M>, alpha: real, discount: real, q: map<G, map<M, real>>, o: Outcome<G, M>)
    : (r: map<G, map<M, real>>)
    requires QValid(rules, q) && Fits(q, rules.isTerminal, o)
    ensures QValid(rules, r)
    ensures r.Keys == q.Keys && forall g :: g in q ==> r[g].Keys == q[g].Keys
    ensures r[o.s][o.move] == Learned(alpha, q[o.s][o.move], Target(rules, discount, q, o))
    ensures forall g, m :: g in q && m in q[g] && (g != o.s || m != o.move) ==> r[g][m] == q[g][m]
  {
    AddQValue(q, o.s, o.move, Learned(alpha, q[o.s][o.move], Target(rules, discount, q, o)))
  }

  /** With a learning rate between 0 and 1, the updated value lies between
      the old value and the target. */
  lemma UpdateBetween<G, M>(rules: Rules<G, M>, alpha: real, discount: real, q: map<G, map<M, real>>, o: Outcome<G, M>)
    requires QValid(rules, q) && Fits(q, rules.isTerminal, o)
    requires 0.0 <= alpha <= 1.0
    ensures var before := q[o.s][o.move];
            var target := Target(rules, discount, q, o);
            var updated := QUpdate(rules, alpha, discount, q, o)[o.s][o.move];
            && (before <= target ==> before <= updated <= target)
            && (target <= before ==> target <= updated <= before)
  {
    var target := Target(rules, discount, q, o);
    var updated := QUpdate(rules, alpha, discount, q, o)[o.s][o.move];
    Convex(alpha, q[o.s][o.move], target, updated);
  }

  /** A weighted average (1 - alpha) * x + alpha * y with 0 <= alpha <= 1 lies
      between x and y. */
  lemma Convex(alpha: real, x: real, y: real, z: real)
    requires 0.0 <= alpha <= 1.0 && z == Learned(alpha, x, y)
    ensures x <= y ==> x <= z <= y
    ensures y <= x ==> y <= z <= x
  {
    assert z - x == alpha * (y - x);
    assert y - z == (1.0 - alpha) * (y - x);
    if x <= y {
      MulNonNegative(alpha, y - x);
      MulNonNegative(1.0 - alpha, y - x);
    } else {
      MulNonNegative(alpha, x - y);
      MulNonNegative(1.0 - alpha, x - y);
    }
  }

  lemma MulNonNegative(a: real, b: real)
    requires 0.0 <= a && 0.0 <= b
    ensures 0.0 <= a * b
  {
  }

  /** An outcome that fits a table fits every table with the same states
      and the same moves in each row. */
  lemma FitsSameShape<G, M>(q: map<G, map<M, real>>, r: map<G, map<M, real>>, isTerminal: G -> bool, o: Outcome<G, M>)
    requires r.Keys == q.Keys && forall g :: g in q ==> r[g].Keys == q[g].Keys
    requires Fits(q, isTerminal, o)
    ensures Fits(r, isTerminal, o)
  {
    assert r[o.s].Keys == q[o.s].Keys;
  }

  /** The table after the updates for `outcomes`, one after the other. */
  function Replay<G, M(==)>(rules: Rules<G, M>, alpha: real, discount: real, q: map<G, map<M, real>>, outcomes: seq<Outcome<G, M>>)
    : (r: map<G, map<M, real>>)
    requires QValid(rules, q) && forall o :: o in outcomes ==> Fits(q, rules.isTerminal, o)
    ensures QValid(rules, r) && r.Keys == q.Keys
    ensures forall g :: g in q ==> r[g].Keys == q[g].Keys
  {
    if outcomes == [] then q
    else
      var before := Replay(rules, alpha, discount, q, outcomes[..|outcomes| - 1]);
      var o := outcomes[|outcomes| - 1];
      assert o in outcomes;
      FitsSameShape(q, before, rules.isTerminal, o);
      QUpdate(rules, alpha, discount, before, o)
  }

  /** The scan over the legal moves of a non-terminal tabulated state that
      keeps the first move whose Q-value is strictly greater than every earlier
      one, and that value. Before the first move there is no candidate. */
  method GreedyQ<G, M(==)>(rules: Rules<G, M>, q: map<G, map<M, real>>, s: G) returns (best: M, value: real)
    requires QValid(rules, q) && s in q
    ensures best == BestQMove(rules, q, s)
    ensures !rules.isTerminal(s) ==> value == MaxQ(rules, q, s)
  {
    var moves := rules.possibleMoves(s);
    ghost var vals := QValues(rules, q, s);
    var candidate: Option<M> := None;
    value := 0.0;
    for i := 0 to |moves|
      invariant candidate.None? <==> i == 0
      invariant i > 0 ==> candidate.value == moves[FirstMax(vals[..i])] && value == vals[FirstMax(vals[..i])]
    {
      var currentQValue := q[s][moves[i]];
      if i > 0 {
        FirstMaxStep(vals, i);
      }
      if candidate.None? || currentQValue > value {
        candidate, value := Some(moves[i]), currentQValue;
      }
    }
    assert vals[..|moves|] == vals;
    best := candidate.value;
  }

  /** `calculateMaxQValue`: 0 for a terminal state, the scan's maximum
      otherwise. */
  method CalculateMaxQValue<G, M(==)>(rules: Rules<G, M>, q: map<G, map<M, real>>, s: G) returns (maxQValue: real)
    requires QValid(rules, q) && (rules.isTerminal(s) || s in q)
    ensures maxQValue == MaxQ(rules, q, s)
  {
    if rules.isTerminal(s) {
      return 0.0;
    }
    var _, value := GreedyQ(rules, q, s);
    maxQValue := value;
  }

  /** `chooseMoveWithEpsilonGreedyPolicy`. `randomValue` and `randomIndex`
      are the two draws of the random generator. With a draw below epsilon
      the move at the drawn index is played; otherwise the scan keeps the
      last move of maximal Q-value. Without legal moves there is no move. */
  method ChooseMove<G, M(==)>(rules: Rules<G, M>, q: map<G, map<M, real>>, epsilon: real, s: G,
                              randomValue: real, randomIndex: nat)
    returns (selectedMove: Option<M>)
    requires QValid(rules, q) && (s in q || |rules.possibleMoves(s)| == 0)
    requires |rules.possibleMoves(s)| > 0 ==> randomIndex < |rules.possibleMoves(s)|
    ensures |rules.possibleMoves(s)| == 0 <==> selectedMove.None?
    ensures selectedMove.Some? && randomValue < epsilon ==>
              selectedMove.value == rules.possibleMoves(s)[randomIndex]
    ensures selectedMove.Some? && randomValue >= epsilon ==>
              selectedMove.value == LastQMove(rules, q, s)
  {
    var possibleMoves := rules.possibleMoves(s);
    selectedMove := None;
    if randomValue < epsilon {
      if |possibleMoves| > 0 {
        selectedMove := Some(possibleMoves[randomIndex]);
      }
    } else {
      var maxQValue := 0.0;
      ghost var vals := if |possibleMoves| > 0 then QValues(rules, q, s) else [];
      for i := 0 to |possibleMoves|
        invariant selectedMove.None? <==> i == 0
        invariant i > 0 ==> selectedMove.value == possibleMoves[LastMax(vals[..i])] && maxQValue == vals[LastMax(vals[..i])]
      {
        var currentQValue := q[s][possibleMoves[i]];
        if i > 0 {
          LastMaxStep(vals, i);
        }
        if selectedMove.None? || currentQValue >= maxQValue {
          maxQValue := currentQValue;
          selectedMove := Some(possibleMoves[i]);
        }
      }
      assert vals[..|possibleMoves|] == vals;
    }
  }

  /** `extractPolicy`: visit the tabulated states in `order`, skip the
      terminal ones and give every other one its first maximal move. */
  method ExtractPolicy<G, M(==)>(rules: Rules<G, M>, q: map<G, map<M, real>>, order: seq<G>) returns (extracted: map<G, M>)
    requires QValid(rules, q) && IsEnumeration(order, q.Keys)
    ensures extracted == QPolicy(rules, q)
  {
    extracted := map[];
    for i := 0 to |order|
      invariant forall g :: g in order[..i] && !rules.isTerminal(g) ==> g in extracted
      invariant forall g :: g in extracted ==>
                  g in order[..i] && g in q && !rules.isTerminal(g) && extracted[g] == BestQMove(rules, q, g)
    {
      var currentGame := order[i];
      assert forall g :: g in order[..i + 1] <==> g in order[..i] || g == currentGame;
      if !rules.isTerminal(currentGame) {
        var bestMove, _ := GreedyQ(rules, q, currentGame);
        extracted := extracted[currentGame := bestMove];
      }
    }
    assert order[..|order|] == order;
  }

  class QLearningAgent<G(==), M(==)> {
    /** The learning rate. */
    var alpha: real
    /** How many episodes `train` plays. */
    var numEpisodes: int
    var discount: real
    /** The exploration rate of the epsilon-greedy choice. */
    var epsilon: real
    var qTable: map<G, map<M, real>>
    /** The policy the agent plays (a field of its `Agent` superclass). */
    var policy: map<G, M>
    var rules: Rules<G, M>

    /** The Q-table holds a value for every legal move of each of its states. */
    ghost predicate Valid()
      reads this`rules, this`qTable
    {
      QValid(rules, qTable)
    }

    /** The four-argument constructor: set the parameters, fill the table
        with zeros for the generated states, then train on the outcomes the
        environment reports, visiting the table's keys in `order` to extract
        the policy. */
    constructor (rules: Rules<G, M>, learningRate: real, numEpisodes: int, discount: real,
                 allGames: seq<G>, outcomes: seq<Outcome<G, M>>, order: seq<G>)
      requires forall o :: o in outcomes ==> Fits(InitialTable(rules, allGames), rules.isTerminal, o)
      requires IsEnumeration(order, InitialTable(rules, allGames).Keys)
      ensures Valid()
      ensures this.rules == rules && alpha == learningRate && this.numEpisodes == numEpisodes
      ensures this.discount == discount && epsilon == 0.1
      ensures qTable == Replay(rules, alpha, discount, InitialTable(rules, allGames), outcomes)
      ensures policy == QPolicy(rules, qTable)
    {
      this.rules := rules;
      alpha := learningRate;
      this.numEpisodes := numEpisodes;
      this.discount := discount;
      epsilon := 0.1;
      qTable := map[];
      policy := map[];
      new;
      InitTableValid(rules, map[], allGames);
      InitQTable(allGames);
      Train(outcomes, order);
    }

    /** `initQTable`: Q(g, m) := 0 for every generated state g and every legal
        move m of g. */
    method InitQTable(allGames: seq<G>)
      requires Valid()
      modifies this`qTable
      ensures Valid()
      ensures qTable == InitTable(rules, old(qTable), allGames)
    {
      ghost var start := qTable;
      for i := 0 to |allGames|
        invariant qTable == InitTable(rules, start, allGames[..i])
      {
        var g := allGames[i];
        var moves := rules.possibleMoves(g);
        assert allGames[..i + 1][..i] == allGames[..i];
        ghost var before := qTable;
        for j := 0 to |moves|
          invariant qTable == AddZeros(before, g, moves[..j])
        {
          assert moves[..j + 1][..j] == moves[..j];
          qTable := AddQValue(qTable, g, moves[j], 0.0);
        }
        assert moves[..|moves|] == moves;
      }
      assert allGames[..|allGames|] == allGames;
      InitTableValid(rules, start, allGames);
    }

    /** The update `train` applies to one outcome. */
    method Update(o: Outcome<G, M>)
      requires Valid() && Fits(qTable, rules.isTerminal, o)
      modifies this`qTable
      ensures Valid()
      ensures qTable == QUpdate(rules, alpha, discount, old(qTable), o)
    {
      var qvalue := qTable[o.s][o.move];
      var maxQ := CalculateMaxQValue(rules, qTable, o.sPrime);
      var futureRewardEstimate := o.localReward + discount * maxQ;
      assert futureRewardEstimate == Target(rules, discount, qTable, o);
      var qLearnedValue := Learned(alpha, qvalue, futureRewardEstimate);
      qTable := AddQValue(qTable, o.s, o.move, qLearnedValue);
    }

    /** `train` on the outcomes the environment reported, in order, followed by
        `extractPolicy` over the table's keys in `order`. */
    method Train(outcomes: seq<Outcome<G, M>>, order: seq<G>)
      requires Valid() && forall o :: o in outcomes ==> Fits(qTable, rules.isTerminal, o)
      requires IsEnumeration(order, qTable.Keys)
      modifies this`qTable, this`policy
      ensures Valid()
      ensures qTable == Replay(rules, alpha, discount, old(qTable), outcomes)
      ensures policy == QPolicy(rules, qTable)
    {
      ghost var start := qTable;
      for i := 0 to |outcomes|
        invariant qTable == Replay(rules, alpha, discount, start, outcomes[..i])
      {
        assert outcomes[..i + 1][..i] == outcomes[..i];
        assert outcomes[i] in outcomes;
        FitsSameShape(start, qTable, rules.isTerminal, outcomes[i]);
        Update(outcomes[i]);
      }
      assert outcomes[..|outcomes|] == outcomes;
      policy := ExtractPolicy(rules, qTable, order);
    }
  }
}
