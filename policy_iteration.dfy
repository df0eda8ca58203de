/**
 * `PolicyIterationAgent`: a random legal starting policy, then rounds of
 * policy improvement (one-step lookahead against the current values, keeping
 * the current move unless some move is strictly better) and policy evaluation
 * (an in-place sweep of the backup under the current policy).
 */
module PolicyIteration {
  import opened Argmax
  import opened Mdp
  import opened InPlace

  /** Every entry of `policy` maps a non-terminal state of `states` to one of
      its legal moves. */
  predicate LegalPolicy<G, M(==)>(rules: Rules<G, M>, policy: map<G, M>, states: set<G>)
  {
    && (forall s :: s in policy ==> s in states && !rules.isTerminal(s))
    && (forall s {:trigger policy[s]} :: s in policy ==> policy[s] in rules.possibleMoves(s))
  }

  /** The non-terminal states of `states`. */
  function NonTerminal<G(==), M>(rules: Rules<G, M>, states: set<G>): set<G>
  {
    set s | s in states && !rules.isTerminal(s)
  }

  function Abs(x: real): real
  {
    if x < 0.0 then -x else x
  }

  /** The move `improvePolicy` leaves at `s`: the scan starts from the current
      move with the state's current value as its score, and a move replaces
      the candidate only when its lookahead is strictly greater. */
  function ImprovedMove<G, M(==)>(mdp: Mdp<G, M>, discount: real, values: map<G, real>, s: G, current: M)
    : (m: M)
    requires Closed(mdp, values.Keys) && s in values && !mdp.rules.isTerminal(s)
    ensures m == current || m in mdp.rules.possibleMoves(s)
  {
    match FirstAbove(Lookaheads(mdp, discount, values, s), values[s])
    case None => current
    case Some(i) => mdp.rules.possibleMoves(s)[i]
  }

  /** The improved move is the current move when no legal move's lookahead
      beats the state's value, and the first maximal move when one does. */
  lemma ImprovedMoveChoice<G, M>(mdp: Mdp<G, M>, discount: real, values: map<G, real>, s: G, current: M)
    requires Closed(mdp, values.Keys) && s in values && !mdp.rules.isTerminal(s)
    ensures (forall m' :: m' in mdp.rules.possibleMoves(s) ==> Lookahead(mdp, discount, values, s, m') <= values[s])
            ==> ImprovedMove(mdp, discount, values, s, current) == current
    ensures (exists m' :: m' in mdp.rules.possibleMoves(s) && Lookahead(mdp, discount, values, s, m') > values[s])
            ==> ImprovedMove(mdp, discount, values, s, current) == BestMove(mdp, discount, values, s)
  {
    FirstAboveMeaning(Lookaheads(mdp, discount, values, s), values[s]);
  }

  /** Some state of a non-empty set. */
  ghost function Pick<G>(states: set<G>): (s: G)
    requires states != {}
    ensures s in states
  {
    var s :| s in states; s
  }

  /** The policy after one `improvePolicy` pass. Values are not written during
      the pass, so each state's new move depends on that state alone; the
      definition improves one state at a time, in no particular order, and
      `ImproveAt` gives the move it leaves at each state. */
  ghost function Improve<G, M>(mdp: Mdp<G, M>, discount: real, values: map<G, real>, policy: map<G, M>)
    : (r: map<G, M>)
    requires Closed(mdp, values.Keys) && LegalPolicy(mdp.rules, policy, values.Keys)
    ensures r.Keys == policy.Keys
    ensures LegalPolicy(mdp.rules, r, values.Keys)
    decreases policy.Keys
  {
    if policy == map[] then policy
    else
      var s := Pick(policy.Keys);
      Improve(mdp, discount, values, policy - {s})[s := ImprovedMove(mdp, discount, values, s, policy[s])]
  }

  /** Each state's move after the pass is its improved move. */
  lemma {:induction false} ImproveAt<G, M>(mdp: Mdp<G, M>, discount: real, values: map<G, real>, policy: map<G, M>, s: G)
    requires Closed(mdp, values.Keys) && LegalPolicy(mdp.rules, policy, values.Keys) && s in policy
    ensures Improve(mdp, discount, values, policy)[s] == ImprovedMove(mdp, discount, values, s, policy[s])
    decreases policy.Keys
  {
    var t := Pick(policy.Keys);
    if s != t {
      ImproveAt(mdp, discount, values, policy - {t}, s);
    }
  }

  /** The pass changes the policy exactly when some state has a legal move
      whose lookahead strictly exceeds the state's value and the state's move
      is not already the first maximal one. */
  lemma ImproveChanges<G, M>(mdp: Mdp<G, M>, discount: real, values: map<G, real>, policy: map<G, M>)
    requires Closed(mdp, values.Keys) && LegalPolicy(mdp.rules, policy, values.Keys)
    ensures Improve(mdp, discount, values, policy) != policy <==>
            exists s :: s in policy && Improvable(mdp, discount, values, s) &&
                        BestMove(mdp, discount, values, s) != policy[s]
  {
    var r := Improve(mdp, discount, values, policy);
    if r != policy {
      var s :| s in policy && r[s] != policy[s];
      ImproveAt(mdp, discount, values, policy, s);
      ImprovedMoveChoice(mdp, discount, values, s, policy[s]);
      assert Improvable(mdp, discount, values, s);
    } else {
      forall s | s in policy && Improvable(mdp, discount, values, s)
        ensures BestMove(mdp, discount, values, s) == policy[s]
      {
        ImproveAt(mdp, discount, values, policy, s);
        ImprovedMoveChoice(mdp, discount, values, s, policy[s]);
      }
    }
  }

  /** Some legal move of `s` has a lookahead strictly greater than `s`'s value. */
  ghost predicate Improvable<G, M>(mdp: Mdp<G, M>, discount: real, values: map<G, real>, s: G)
    requires Closed(mdp, values.Keys) && s in values && !mdp.rules.isTerminal(s)
  {
    exists m :: m in mdp.rules.possibleMoves(s) && Lookahead(mdp, discount, values, s, m) > values[s]
  }

  /** The inner loop of `improvePolicy` at one state. */
  method ImproveMove<G, M(==)>(mdp: Mdp<G, M>, discount: real, values: map<G, real>, s: G, current: M)
    returns (bestMove: M)
    requires Closed(mdp, values.Keys) && s in values && !mdp.rules.isTerminal(s)
    ensures bestMove == ImprovedMove(mdp, discount, values, s, current)
  {
    var moves := mdp.rules.possibleMoves(s);
    ghost var vals := Lookaheads(mdp, discount, values, s);
    var currentMaxValue := values[s];
    bestMove := current;
    for i := 0 to |moves|
      invariant match FirstAbove(vals[..i], values[s])
                case None => bestMove == current && currentMaxValue == values[s]
                case Some(p) => p < i && bestMove == moves[p] && currentMaxValue == vals[p]
    {
      var sum := SumTransitions(mdp.transitions(s, moves[i]), discount, values);
      assert vals[..i + 1][..i] == vals[..i];
      if sum > currentMaxValue {
        currentMaxValue := sum;
        bestMove := moves[i];
      }
    }
    assert vals[..|moves|] == vals;
  }

  /** Two maps with the same keys that agree at every position of an
      enumeration of those keys are equal. */
  lemma AgreeOnEnumeration<G, M>(a: map<G, M>, b: map<G, M>, order: seq<G>)
    requires a.Keys == b.Keys && IsEnumeration(order, a.Keys)
    requires forall j :: 0 <= j < |order| ==> a[order[j]] == b[order[j]]
    ensures a == b
  {
    forall s | s in a
      ensures a[s] == b[s]
    {
      var j :| 0 <= j < |order| && order[j] == s;
    }
  }

  /** One step of a pass that overwrites the keys of `order` one by one with
      their `target` entries: positions before `i` already hold the target,
      positions from `i` on still hold the `base` entry. */
  lemma OverwriteStep<G, M>(r: map<G, M>, target: map<G, M>, base: map<G, M>, order: seq<G>, i: nat)
    requires r.Keys == target.Keys == base.Keys && IsEnumeration(order, r.Keys) && i < |order|
    requires forall j :: 0 <= j < i ==> r[order[j]] == target[order[j]]
    requires forall j :: i <= j < |order| ==> r[order[j]] == base[order[j]]
    ensures var r' := r[order[i] := target[order[i]]];
            && r'.Keys == r.Keys
            && (forall j :: 0 <= j < i + 1 ==> r'[order[j]] == target[order[j]])
            && (forall j :: i + 1 <= j < |order| ==> r'[order[j]] == base[order[j]])
  {
    DistinctPairs(order);
    assert forall j :: 0 <= j < |order| && j != i ==> order[j] != order[i];
  }

  /** The loop of `improvePolicy`: visit the keys of `policy` in `order` and
      overwrite each one's move with the improved move. Each state's new move
      depends on the values and on that state's own move only, so the visit
      order does not change the outcome. */
  method ImprovePass<G, M(==)>(mdp: Mdp<G, M>, discount: real, values: map<G, real>, policy: map<G, M>, order: seq<G>)
    returns (r: map<G, M>)
    requires Closed(mdp, values.Keys) && LegalPolicy(mdp.rules, policy, values.Keys)
    requires IsEnumeration(order, policy.Keys)
    ensures r == Improve(mdp, discount, values, policy)
  {
    ghost var improved := Improve(mdp, discount, values, policy);
    r := policy;
    for i := 0 to |order|
      invariant r.Keys == policy.Keys
      invariant forall j :: 0 <= j < i ==> r[order[j]] == improved[order[j]]
      invariant forall j :: i <= j < |order| ==> r[order[j]] == policy[order[j]]
    {
      var game := order[i];
      var bestMove := ImproveMove(mdp, discount, values, game, r[game]);
      ImproveAt(mdp, discount, values, policy, game);
      OverwriteStep(r, improved, policy, order, i);
      r := r[game := bestMove];
    }
    AgreeOnEnumeration(r, improved, order);
  }

  /** Improving a state's move twice against the same table gives the move
      of the first improvement. */
  lemma ImprovedMoveTwice<G, M>(mdp: Mdp<G, M>, discount: real, values: map<G, real>, s: G, current: M)
    requires Closed(mdp, values.Keys) && s in values && !mdp.rules.isTerminal(s)
    ensures var once := ImprovedMove(mdp, discount, values, s, current);
            ImprovedMove(mdp, discount, values, s, once) == once
  {
    var once := ImprovedMove(mdp, discount, values, s, current);
    ImprovedMoveChoice(mdp, discount, values, s, current);
    ImprovedMoveChoice(mdp, discount, values, s, once);
    if Improvable(mdp, discount, values, s) {
      var m :| m in mdp.rules.possibleMoves(s) && Lookahead(mdp, discount, values, s, m) > values[s];
    }
  }

  /** A second pass against an unchanged table changes nothing: a state
      whose move the first pass replaced already holds its first maximal
      move, and a state whose move it kept still has no strictly better one.
      So a pass can only report a change after the values were re-evaluated. */
  lemma ImproveIdempotent<G, M>(mdp: Mdp<G, M>, discount: real, values: map<G, real>, policy: map<G, M>)
    requires Closed(mdp, values.Keys) && LegalPolicy(mdp.rules, policy, values.Keys)
    ensures var once := Improve(mdp, discount, values, policy);
            Improve(mdp, discount, values, once) == once
  {
    var once := Improve(mdp, discount, values, policy);
    var twice := Improve(mdp, discount, values, once);
    forall s | s in once
      ensures twice[s] == once[s]
    {
      ImproveAt(mdp, discount, values, policy, s);
      ImproveAt(mdp, discount, values, once, s);
      ImprovedMoveTwice(mdp, discount, values, s, policy[s]);
    }
  }

  /** `n` applications of `next`, starting from `st`. */
  function Iterate<S>(next: S -> S, st: S, n: nat): S
    decreases n
  {
    if n == 0 then st else Iterate(next, next(st), n - 1)
  }

  /** The last of `n > 0` applications is `next` applied to the state the
      first `n - 1` left. */
  lemma {:induction false} IterateLast<S>(next: S -> S, st: S, n: nat)
    requires n > 0
    ensures Iterate(next, st, n) == next(Iterate(next, st, n - 1))
    decreases n
  {
    if n > 1 {
      IterateLast(next, next(st), n - 1);
    }
  }

  /** A property that `next` preserves holds after any number of applications. */
  lemma {:induction false} IterateKeeps<S>(next: S -> S, inv: S -> bool, st: S, n: nat)
    requires inv(st)
    requires forall s :: inv(s) ==> inv(next(s))
    ensures inv(Iterate(next, st, n))
    decreases n
  {
    if n > 0 {
      IterateKeeps(next, inv, next(st), n - 1);
    }
  }

  /** The number of rounds of a loop that applies `next` while `more` holds,
      at most `budget` times, starting from `st`. */
  function Steps<S>(next: S -> S, more: S -> bool, st: S, budget: nat): (n: nat)
    ensures n <= budget
    ensures n == 0 <==> budget == 0 || !more(st)
    decreases budget
  {
    if budget == 0 || !more(st) then 0 else 1 + Steps(next, more, next(st), budget - 1)
  }

  /** Every round the loop counted by `Steps` runs begins in a state where
      `more` holds, and the loop stops before the budget is spent only in a
      state where it does not. */
  lemma {:induction false} StepsMeaning<S>(next: S -> S, more: S -> bool, st: S, budget: nat)
    ensures var n := Steps(next, more, st, budget);
            && (forall k :: 0 <= k < n ==> more(Iterate(next, st, k)))
            && (n < budget ==> !more(Iterate(next, st, n)))
    decreases budget
  {
    if budget > 0 && more(st) {
      StepsMeaning(next, more, next(st), budget - 1);
    }
  }

  /** A loop that applies `next` while `more` holds, with room for `budget`
      more rounds, is at `st` with `left` rounds still to run before it
      reaches the state `goal`. */
  ghost predicate OnTrack<S>(next: S -> S, more: S -> bool, st: S, budget: nat, left: nat, goal: S)
  {
    Steps(next, more, st, budget) == left && Iterate(next, st, left) == goal
  }

  /** A loop starts on track towards the state its last round leaves. */
  lemma OnTrackStart<S>(next: S -> S, more: S -> bool, st: S, budget: nat) returns (left: nat, goal: S)
    ensures left == Steps(next, more, st, budget) && goal == Iterate(next, st, left)
    ensures OnTrack(next, more, st, budget, left, goal)
  {
    left := Steps(next, more, st, budget);
    goal := Iterate(next, st, left);
  }

  /** One more round keeps the loop on track. */
  lemma OnTrackNext<S>(next: S -> S, more: S -> bool, st: S, budget: nat, left: nat, goal: S)
    returns (st': S, budget': nat, left': nat)
    requires OnTrack(next, more, st, budget, left, goal) && budget > 0 && more(st)
    ensures st' == next(st) && budget' + 1 == budget && left' + 1 == left
    ensures OnTrack(next, more, st', budget', left', goal)
  {
    st', budget', left' := next(st), budget - 1, left - 1;
  }

  /** A loop on track that stops has no rounds left and is at its goal. */
  lemma OnTrackEnd<S>(next: S -> S, more: S -> bool, st: S, budget: nat, left: nat, goal: S)
    requires OnTrack(next, more, st, budget, left, goal) && (budget == 0 || !more(st))
    ensures left == 0 && st == goal
  {
  }

  /** The state of the loop of `train` after some rounds: the value table,
      the policy the last improvement pass started from, and the policy that
      pass produced. The table and policy types are parameters, instantiated
      by `Stage`. */
  datatype Snapshot<Table, Policy> = Snapshot(values: Table, evaluated: Policy, policy: Policy)

  /** A loop state over value tables and policies of states `G` and moves `M`. */
  type Stage<G, M> = Snapshot<map<G, real>, map<G, M>>

  /** A closed table covered by `order`, and two policies with a legal move
      for exactly its non-terminal states. */
  ghost predicate Proper<G, M>(mdp: Mdp<G, M>, order: seq<G>, st: Stage<G, M>)
  {
    && Closed(mdp, st.values.Keys) && (forall s :: s in order ==> s in st.values)
    && st.evaluated.Keys == NonTerminal(mdp.rules, st.values.Keys)
    && LegalPolicy(mdp.rules, st.evaluated, st.values.Keys)
    && st.policy.Keys == NonTerminal(mdp.rules, st.values.Keys)
    && LegalPolicy(mdp.rules, st.policy, st.values.Keys)
  }

  /** One round of the loop of `train`: `evaluatePolicy` sweeps the table
      under the current policy, then `improvePolicy` makes one pass from that
      policy against the new table. */
  ghost function Next<G, M>(mdp: Mdp<G, M>, discount: real, order: seq<G>, st: Stage<G, M>): (r: Stage<G, M>)
    requires Proper(mdp, order, st)
    ensures Proper(mdp, order, r) && r.values.Keys == st.values.Keys
  {
    var values := Sweep(mdp, discount, Follow(st.policy), order, st.values);
    Snapshot(values, st.policy, Improve(mdp, discount, values, st.policy))
  }

  /** `Next` as a step function over all stages; a stage that is not
      `Proper` is left alone. */
  ghost function Step<G, M>(mdp: Mdp<G, M>, discount: real, order: seq<G>): Stage<G, M> -> Stage<G, M>
  {
    st => if Proper(mdp, order, st) then Next(mdp, discount, order, st) else st
  }

  /** The last improvement pass changed the policy it started from, which
      is what keeps the loop of `train` going. */
  predicate Changed<G(==), M(==)>(st: Stage<G, M>)
  {
    st.policy != st.evaluated
  }

  /** What the loop of `train` computes, started from a stage whose policy
      is one pass from its evaluated policy: after the `n` rounds `Steps`
      counts, the stage is still proper over the same states, its policy is
      one pass from its evaluated policy against its table, and, when a round
      ran, that evaluated policy is the policy the round before left, and the
      table is one evaluation sweep under it of the table the round before
      left. */
  lemma LoopMeaning<G, M>(mdp: Mdp<G, M>, discount: real, order: seq<G>, st: Stage<G, M>, budget: nat)
    requires Proper(mdp, order, st) && st.policy == Improve(mdp, discount, st.values, st.evaluated)
    ensures var next := Step(mdp, discount, order);
            var n := Steps(next, Changed, st, budget);
            var r := Iterate(next, st, n);
            && Proper(mdp, order, r) && r.values.Keys == st.values.Keys
            && r.policy == Improve(mdp, discount, r.values, r.evaluated)
            && (n > 0 ==>
                  var prev := Iterate(next, st, n - 1);
                  && Proper(mdp, order, prev)
                  && r.evaluated == prev.policy
                  && r.values == Sweep(mdp, discount, Follow(prev.policy), order, prev.values))
  {
    var next := Step(mdp, discount, order);
    var n := Steps(next, Changed, st, budget);
    var inv := (s: Stage<G, M>) =>
      && Proper(mdp, order, s) && s.values.Keys == st.values.Keys
      && s.policy == Improve(mdp, discount, s.values, s.evaluated);
    forall s | inv(s)
      ensures inv(next(s))
    {
    }
    IterateKeeps(next, inv, st, n);
    if n > 0 {
      IterateLast(next, st, n);
      IterateKeeps(next, inv, st, n - 1);
    }
  }

  /** A round of `train` from a proper stage on track leaves `Next` of that
      stage, which is proper again and still on track. */
  lemma RoundOnTrack<G, M>(mdp: Mdp<G, M>, discount: real, order: seq<G>, next: Stage<G, M> -> Stage<G, M>,
                           here: Stage<G, M>, budget: nat, left: nat, goal: Stage<G, M>)
    returns (after: Stage<G, M>, budget': nat, left': nat)
    requires next == Step(mdp, discount, order)
    requires Proper(mdp, order, here) && budget > 0 && Changed(here)
    requires OnTrack(next, Changed, here, budget, left, goal)
    ensures after == Next(mdp, discount, order, here) && Proper(mdp, order, after)
    ensures budget' + 1 == budget && left' + 1 == left
    ensures OnTrack(next, Changed, after, budget', left', goal)
  {
    after, budget', left' := OnTrackNext(next, Changed, here, budget, left, goal);
    assert next(here) == Next(mdp, discount, order, here);
  }

  /** A record of one `train` call: the random policy it drew and the
      number of evaluations it ran. */
  datatype TrainRun<Policy> = TrainRun(start: Policy, rounds: nat)

  class PolicyIterationAgent<G(==), M(==)> {
    /** The value of each state under the current policy. */
    var policyValues: map<G, real>
    /** The current policy. */
    var curPolicy: map<G, M>
    var discount: real
    var mdp: Mdp<G, M>
    /** The convergence threshold `train` passes to `evaluatePolicy`. */
    var delta: real
    /** The policy the agent plays (a field of its `Agent` superclass). */
    var policy: map<G, M>
    /** What `train` did. */
    ghost var run: TrainRun<map<G, M>>

    /** The value table covers every reachable state, no transition returns
        to its source, and the current policy only holds legal moves of
        non-terminal tabulated states. */
    ghost predicate Valid()
      reads this`mdp, this`policyValues, this`curPolicy, this`delta
    {
      && Closed(mdp, policyValues.Keys)
      && NoSelfLoops(mdp, policyValues.Keys)
      && LegalPolicy(mdp.rules, curPolicy, policyValues.Keys)
      && delta >= 0.0
    }

    /** The current policy has a move for every non-terminal tabulated state. */
    ghost predicate Complete()
      reads this`mdp, this`policyValues, this`curPolicy
    {
      forall s :: s in policyValues && !mdp.rules.isTerminal(s) ==> s in curPolicy
    }

    /** What `train` leaves, recorded in `run`, started from the table
        `before` with the random choices `draws`: `run.start` is the random
        policy the draws select; the loop starts from `before`, that policy
        and one improvement pass from it, and `Ran` gives the rest of the
        run. */
    ghost predicate Trained(run: TrainRun<map<G, M>>, before: map<G, real>, order: seq<G>, draws: seq<nat>, maxRounds: nat)
      reads this`mdp, this`discount, this`policyValues, this`curPolicy
    {
      && Closed(mdp, before.Keys)
      && IsEnumeration(order, before.Keys) && |draws| == |order|
      && run.start.Keys == NonTerminal(mdp.rules, before.Keys)
      && LegalPolicy(mdp.rules, run.start, before.Keys)
      && (forall i :: 0 <= i < |order| && !mdp.rules.isTerminal(order[i]) ==>
            draws[i] < |mdp.rules.possibleMoves(order[i])| &&
            run.start[order[i]] == mdp.rules.possibleMoves(order[i])[draws[i]])
      && Ran(Snapshot(before, run.start, Improve(mdp, discount, before, run.start)), order, maxRounds, run.rounds)
    }

    /** The loop of `train` from the stage `first`: `rounds` is the number
        of rounds it runs with room for `maxRounds` evaluations, each one an
        evaluation followed by an improvement pass, until a pass changes
        nothing (see `Steps` and `LoopMeaning`); and the table and the
        current policy are those of the stage it stops at. */
    ghost predicate Ran(first: Stage<G, M>, order: seq<G>, maxRounds: nat, rounds: nat)
      reads this`mdp, this`discount, this`policyValues, this`curPolicy
    {
      && rounds == Steps(Step(mdp, discount, order), Changed, first, maxRounds)
      && var last := Iterate(Step(mdp, discount, order), first, rounds);
         policyValues == last.values && curPolicy == last.policy
    }

    /** What a recorded run of `train` means: at most `maxRounds`
        evaluations ran; every improvement pass before the stop changed the
        policy it started from; if the loop stopped with room left, its last
        pass changed nothing; the current policy is one pass, against the
        final table, from the policy the last evaluation followed; and when
        an evaluation ran, the final table is one evaluation sweep under that
        policy of the table the round before left. */
    lemma TrainedMeaning(run: TrainRun<map<G, M>>, before: map<G, real>, order: seq<G>, draws: seq<nat>, maxRounds: nat)
      requires Trained(run, before, order, draws, maxRounds)
      ensures run.rounds <= maxRounds
      ensures var next := Step(mdp, discount, order);
              var first := Snapshot(before, run.start, Improve(mdp, discount, before, run.start));
              var last := Iterate(next, first, run.rounds);
              && Proper(mdp, order, last) && policyValues == last.values && curPolicy == last.policy
              && (forall k :: 0 <= k < run.rounds ==> Changed(Iterate(next, first, k)))
              && (run.rounds < maxRounds ==> last.policy == last.evaluated)
              && last.policy == Improve(mdp, discount, last.values, last.evaluated)
              && (run.rounds > 0 ==>
                    var prev := Iterate(next, first, run.rounds - 1);
                    && Proper(mdp, order, prev) && last.evaluated == prev.policy
                    && last.values == Sweep(mdp, discount, Follow(prev.policy), order, prev.values))
    {
      var next := Step(mdp, discount, order);
      var first := Snapshot(before, run.start, Improve(mdp, discount, before, run.start));
      StepsMeaning(next, Changed, first, maxRounds);
      LoopMeaning(mdp, discount, order, first, maxRounds);
    }

    /** The constructors that take the rewards or the discount: set the
        discount and the transition model, then `initValues` over the
        generated states, `initRandomPolicy` and `train` (which draws a fresh
        random policy before its first improvement). `draws` and
        `trainDraws` are the random choices of the two `initRandomPolicy`
        calls. */
    constructor (mdp: Mdp<G, M>, discount: real, allGames: seq<G>, order: seq<G>,
                 draws: seq<nat>, trainDraws: seq<nat>, policyOrder: seq<G>, maxRounds: nat)
      requires Closed(mdp, set g | g in allGames) && NoSelfLoops(mdp, set g | g in allGames)
      requires IsEnumeration(order, set g | g in allGames)
      requires |draws| == |order| && |trainDraws| == |order|
      requires forall i :: 0 <= i < |order| && !mdp.rules.isTerminal(order[i]) ==>
                 draws[i] < |mdp.rules.possibleMoves(order[i])| && trainDraws[i] < |mdp.rules.possibleMoves(order[i])|
      requires IsEnumeration(policyOrder, NonTerminal(mdp.rules, set g | g in allGames))
      ensures Valid() && Complete()
      ensures this.mdp == mdp && this.discount == discount && delta == 0.1
      ensures policyValues.Keys == set g | g in allGames
      ensures curPolicy.Keys == NonTerminal(mdp.rules, policyValues.Keys)
      ensures policy == curPolicy
      ensures Trained(run, map g | g in allGames :: 0.0, order, trainDraws, maxRounds)
    {
      this.mdp := mdp;
      this.discount := discount;
      delta := 0.1;
      policyValues := map[];
      curPolicy := map[];
      policy := map[];
      run := TrainRun(map[], 0);
      new;
      InitValues(allGames);
      assert policyValues == map g | g in allGames :: 0.0;
      InitRandomPolicy(order, draws);
      Train(order, trainDraws, policyOrder, maxRounds);
    }

    /** Maps every generated state to 0. */
    method InitValues(allGames: seq<G>)
      requires Valid()
      requires Closed(mdp, policyValues.Keys + set g | g in allGames)
      requires NoSelfLoops(mdp, policyValues.Keys + set g | g in allGames)
      modifies this`policyValues
      ensures Valid()
      ensures policyValues == old(policyValues) + map g | g in allGames :: 0.0
    {
      for i := 0 to |allGames|
        invariant policyValues == old(policyValues) + map g | g in allGames[..i] :: 0.0
      {
        assert forall g :: g in allGames[..i + 1] <==> g in allGames[..i] || g == allGames[i];
        policyValues := policyValues[allGames[i] := 0.0];
      }
      assert allGames[..|allGames|] == allGames;
    }

    /** Gives every non-terminal key of `policyValues`, visited in `order`, the
        legal move the `i`-th random draw selects; terminal states get none. */
    method InitRandomPolicy(order: seq<G>, draws: seq<nat>)
      requires Valid() && IsEnumeration(order, policyValues.Keys)
      requires |draws| == |order|
      requires forall i :: 0 <= i < |order| && !mdp.rules.isTerminal(order[i]) ==>
                 draws[i] < |mdp.rules.possibleMoves(order[i])|
      modifies this`curPolicy
      ensures Valid() && Complete()
      ensures curPolicy.Keys == NonTerminal(mdp.rules, policyValues.Keys)
      ensures forall i :: 0 <= i < |order| && !mdp.rules.isTerminal(order[i]) ==>
                curPolicy[order[i]] == mdp.rules.possibleMoves(order[i])[draws[i]]
    {
      DistinctPairs(order);
      for i := 0 to |order|
        invariant Valid()
        invariant forall j :: 0 <= j < i && !mdp.rules.isTerminal(order[j]) ==>
                    order[j] in curPolicy && curPolicy[order[j]] == mdp.rules.possibleMoves(order[j])[draws[j]]
      {
        var game := order[i];
        if !mdp.rules.isTerminal(game) {
          var possibleMoves := mdp.rules.possibleMoves(game);
          curPolicy := curPolicy[game := possibleMoves[draws[i]]];
        }
      }
    }

    /** The do-while of `evaluatePolicy` at one non-terminal state: back up the
        state under the current policy until the change is at most `delta`.
        No successor is the state itself, so the second pass recomputes the
        same value and the loop stops. */
    method EvaluateState(game: G, delta: real)
      requires Valid() && Complete() && game in policyValues && !mdp.rules.isTerminal(game)
      requires delta >= 0.0
      modifies this`policyValues
      ensures Valid() && Complete() && policyValues.Keys == old(policyValues).Keys
      ensures policyValues ==
              old(policyValues)[game := Lookahead(mdp, discount, old(policyValues), game, curPolicy[game])]
    {
      var ts := mdp.transitions(game, curPolicy[game]);
      ghost var before := policyValues;
      ghost var target := Backup(ts, discount, before);
      var updatedValue := SumTransitions(ts, discount, policyValues);
      var oldValue := policyValues[game];
      policyValues := policyValues[game := updatedValue];
      BackupFrame(ts, discount, before, policyValues);
      while Abs(policyValues[game] - oldValue) > delta
        invariant policyValues == before[game := target]
        decreases if Abs(policyValues[game] - oldValue) > delta then 1 else 0
      {
        updatedValue := SumTransitions(ts, discount, policyValues);
        oldValue := policyValues[game];
        policyValues := policyValues[game := updatedValue];
      }
    }

    /** One in-place sweep of the backup under the current policy over the
        keys in `order`; terminal states are set to 0. */
    method EvaluatePolicy(delta: real, order: seq<G>)
      requires Valid() && Complete() && IsEnumeration(order, policyValues.Keys)
      requires delta >= 0.0
      modifies this`policyValues
      ensures Valid() && Complete() && policyValues.Keys == old(policyValues).Keys
      ensures policyValues == Sweep(mdp, discount, Follow(curPolicy), order, old(policyValues))
    {
      ghost var before := policyValues;
      for j := 0 to |order|
        invariant Valid() && Complete() && policyValues.Keys == before.Keys
        invariant policyValues == Sweep(mdp, discount, Follow(curPolicy), order[..j], before)
      {
        var game := order[j];
        assert order[..j + 1][..j] == order[..j];
        assert Sweep(mdp, discount, Follow(curPolicy), order[..j + 1], before) ==
               policyValues[game := NewValue(mdp, discount, Follow(curPolicy), policyValues, game)];
        if mdp.rules.isTerminal(game) {
          policyValues := policyValues[game := 0.0];
        } else {
          EvaluateState(game, delta);
        }
      }
      assert order[..|order|] == order;
    }

    /** One improvement pass over the keys of `curPolicy` in `order`; reports
        whether the policy map differs from the copy taken before the pass. */
    method ImprovePolicy(order: seq<G>) returns (changed: bool)
      requires Valid() && IsEnumeration(order, curPolicy.Keys)
      modifies this`curPolicy
      ensures Valid() && curPolicy.Keys == old(curPolicy).Keys
      ensures curPolicy == Improve(mdp, discount, policyValues, old(curPolicy))
      ensures changed <==> curPolicy != old(curPolicy)
    {
      var duplicatePolicy := curPolicy;
      curPolicy := ImprovePass(mdp, discount, policyValues, duplicatePolicy, order);
      changed := curPolicy != duplicatePolicy;
    }

    /** The steps of `train` before its loop: a fresh random policy from the
        draws, then one improvement pass from it. Returns whether that pass
        changed the policy and, as `start`, the random policy. */
    method Start(order: seq<G>, draws: seq<nat>, policyOrder: seq<G>) returns (changed: bool, ghost start: map<G, M>)
      requires Valid() && IsEnumeration(order, policyValues.Keys)
      requires |draws| == |order|
      requires forall i :: 0 <= i < |order| && !mdp.rules.isTerminal(order[i]) ==>
                 draws[i] < |mdp.rules.possibleMoves(order[i])|
      requires IsEnumeration(policyOrder, NonTerminal(mdp.rules, policyValues.Keys))
      modifies this`curPolicy
      ensures Valid() && Complete()
      ensures curPolicy.Keys == NonTerminal(mdp.rules, policyValues.Keys)
      ensures start.Keys == NonTerminal(mdp.rules, policyValues.Keys)
      ensures LegalPolicy(mdp.rules, start, policyValues.Keys)
      ensures forall i :: 0 <= i < |order| && !mdp.rules.isTerminal(order[i]) ==>
                start[order[i]] == mdp.rules.possibleMoves(order[i])[draws[i]]
      ensures curPolicy == Improve(mdp, discount, policyValues, start)
      ensures changed <==> curPolicy != start
    {
      InitRandomPolicy(order, draws);
      start := curPolicy;
      changed := ImprovePolicy(policyOrder);
    }

    /** One round of the loop of `train`: evaluate the current policy, then
        improve it. `here` is the stage the round starts from and `after` the
        one it leaves; the ghost counters move the run one round on. */
    method Round(order: seq<G>, policyOrder: seq<G>, ghost next: Stage<G, M> -> Stage<G, M>,
                 ghost here: Stage<G, M>, ghost rest: nat, ghost left: nat, ghost goal: Stage<G, M>)
      returns (changed: bool, ghost after: Stage<G, M>, ghost rest': nat, ghost left': nat)
      requires Valid() && Complete() && IsEnumeration(order, policyValues.Keys)
      requires IsEnumeration(policyOrder, NonTerminal(mdp.rules, policyValues.Keys))
      requires curPolicy.Keys == NonTerminal(mdp.rules, policyValues.Keys)
      requires here == Snapshot(policyValues, here.evaluated, curPolicy) && Proper(mdp, order, here)
      requires next == Step(mdp, discount, order) && rest > 0 && Changed(here)
      requires OnTrack(next, Changed, here, rest, left, goal)
      modifies this`curPolicy, this`policyValues
      ensures Valid() && Complete()
      ensures policyValues.Keys == old(policyValues).Keys
      ensures curPolicy.Keys == NonTerminal(mdp.rules, policyValues.Keys)
      ensures after == Snapshot(policyValues, here.policy, curPolicy) == Next(mdp, discount, order, here)
      ensures Proper(mdp, order, after) && (changed <==> Changed(after))
      ensures rest' + 1 == rest && left' + 1 == left && OnTrack(next, Changed, after, rest', left', goal)
    {
      EvaluatePolicy(delta, order);
      changed := ImprovePolicy(policyOrder);
      after, rest', left' := RoundOnTrack(mdp, discount, order, next, here, rest, left, goal);
    }

    /** The loop of `train`, entered after the first improvement pass from
        `start`: while the last pass changed the policy it started from and
        fewer than `maxRounds` evaluations have run, evaluate the current
        policy and improve it again. Returns the number of evaluations. */
    method Loop(order: seq<G>, policyOrder: seq<G>, maxRounds: nat, changed: bool, ghost start: map<G, M>)
      returns (ghost rounds: nat)
      requires Valid() && Complete() && IsEnumeration(order, policyValues.Keys)
      requires IsEnumeration(policyOrder, NonTerminal(mdp.rules, policyValues.Keys))
      requires curPolicy.Keys == NonTerminal(mdp.rules, policyValues.Keys)
      requires start.Keys == NonTerminal(mdp.rules, policyValues.Keys)
      requires LegalPolicy(mdp.rules, start, policyValues.Keys)
      requires changed <==> curPolicy != start
      modifies this`curPolicy, this`policyValues
      ensures Valid() && Complete()
      ensures policyValues.Keys == old(policyValues).Keys
      ensures curPolicy.Keys == NonTerminal(mdp.rules, policyValues.Keys)
      ensures Ran(Snapshot(old(policyValues), start, old(curPolicy)), order, maxRounds, rounds)
    {
      var changed := changed;
      ghost var next := Step(mdp, discount, order);
      ghost var here := Snapshot(policyValues, start, curPolicy);
      ghost var goal;
      rounds, goal := OnTrackStart(next, Changed, here, maxRounds);
      ghost var rest, left := maxRounds, rounds;
      var round := 0;
      while changed && round < maxRounds
        invariant Valid() && Complete()
        invariant policyValues.Keys == old(policyValues).Keys
        invariant curPolicy.Keys == NonTerminal(mdp.rules, policyValues.Keys)
        invariant here == Snapshot(policyValues, here.evaluated, curPolicy)
        invariant Proper(mdp, order, here)
        invariant changed <==> Changed(here)
        invariant round + rest == maxRounds
        invariant next == Step(mdp, discount, order)
        invariant OnTrack(next, Changed, here, rest, left, goal)
        decreases rest
      {
        changed, here, rest, left := Round(order, policyOrder, next, here, rest, left, goal);
        round := round + 1;
      }
      OnTrackEnd(next, Changed, here, rest, left, goal);
    }

    /** `train` after its first improvement pass from the random policy
        `start`: the loop, then the agent's policy is the current policy, and
        `run` records `start` and the number of evaluations. */
    method Finish(order: seq<G>, draws: seq<nat>, policyOrder: seq<G>, maxRounds: nat, changed: bool, ghost start: map<G, M>)
      requires Valid() && Complete() && IsEnumeration(order, policyValues.Keys)
      requires IsEnumeration(policyOrder, NonTerminal(mdp.rules, policyValues.Keys))
      requires |draws| == |order|
      requires forall i :: 0 <= i < |order| && !mdp.rules.isTerminal(order[i]) ==>
                 draws[i] < |mdp.rules.possibleMoves(order[i])|
      requires curPolicy.Keys == NonTerminal(mdp.rules, policyValues.Keys)
      requires start.Keys == NonTerminal(mdp.rules, policyValues.Keys)
      requires LegalPolicy(mdp.rules, start, policyValues.Keys)
      requires forall i :: 0 <= i < |order| && !mdp.rules.isTerminal(order[i]) ==>
                 start[order[i]] == mdp.rules.possibleMoves(order[i])[draws[i]]
      requires curPolicy == Improve(mdp, discount, policyValues, start)
      requires changed <==> curPolicy != start
      modifies this`curPolicy, this`policyValues, this`policy, this`run
      ensures Valid() && Complete()
      ensures policyValues.Keys == old(policyValues).Keys
      ensures curPolicy.Keys == NonTerminal(mdp.rules, policyValues.Keys)
      ensures policy == curPolicy
      ensures Trained(run, old(policyValues), order, draws, maxRounds)
    {
      ghost var rounds := Loop(order, policyOrder, maxRounds, changed, start);
      policy := curPolicy;
      run := TrainRun(start, rounds);
    }

    /** A random legal policy, then improvement and evaluation in turn until an
        improvement pass changes nothing or `maxRounds` evaluations have run;
        the agent's policy is then the current policy, and `run` records the
        random policy and the number of evaluations. */
    method Train(order: seq<G>, draws: seq<nat>, policyOrder: seq<G>, maxRounds: nat)
      requires Valid() && IsEnumeration(order, policyValues.Keys)
      requires |draws| == |order|
      requires forall i :: 0 <= i < |order| && !mdp.rules.isTerminal(order[i]) ==>
                 draws[i] < |mdp.rules.possibleMoves(order[i])|
      requires IsEnumeration(policyOrder, NonTerminal(mdp.rules, policyValues.Keys))
      modifies this`curPolicy, this`policyValues, this`policy, this`run
      ensures Valid() && Complete()
      ensures policyValues.Keys == old(policyValues).Keys
      ensures curPolicy.Keys == NonTerminal(mdp.rules, policyValues.Keys)
      ensures policy == curPolicy
      ensures Trained(run, old(policyValues), order, draws, maxRounds)
    {
      var changed, start := Start(order, draws, policyOrder);
      Finish(order, draws, policyOrder, maxRounds, changed, start);
    }
  }
}
