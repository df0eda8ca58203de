/**
 * The running-maximum scans as the code writes them, with a starting score of
 * `-Integer.MAX_VALUE` (-2147483647) although the scores are doubles. The rest
 * of the model starts these scans with no candidate instead; this module
 * shows where the two differ.
 */
module Sentinel {
  import opened Argmax

  /** `-Integer.MAX_VALUE`, the starting score of the scans in
      `ValueIterationAgent.iterate`, `ValueIterationAgent.extractPolicy` and
      `QLearningAgent.extractPolicy`. */
  const IntSentinel: real := -2147483647.0

  /** The value `iterate` writes at a non-terminal state, as the code stands:
      the running maximum starts at the sentinel, so it agrees with the
      largest lookahead only when that lookahead is above the sentinel. */
  function SentinelMax(vals: seq<real>): (r: real)
    ensures r >= IntSentinel
    ensures |vals| > 0 && Max(vals) > IntSentinel ==> r == Max(vals)
    ensures (forall j :: 0 <= j < |vals| ==> vals[j] <= IntSentinel) ==> r == IntSentinel
  {
    FirstAboveMeaning(vals, IntSentinel);
    match FirstAbove(vals, IntSentinel)
    case None => IntSentinel
    case Some(i) => vals[i]
  }

  /** A state whose only lookahead is -3e9 gets the value -2147483647. */
  lemma SentinelMaxMisses()
    ensures SentinelMax([-3000000000.0]) == IntSentinel
    ensures Max([-3000000000.0]) == -3000000000.0
  {
    assert FirstAbove([-3000000000.0], IntSentinel).None?;
  }

  /** The move an `extractPolicy` scan records at a state, as the code stands:
      the candidate starts as `carried` (in `ValueIterationAgent` the move of
      the previously visited state, since `optimalMove` is declared outside
      the loop over states; in `QLearningAgent` nothing) and is replaced only
      by a move whose score beats the sentinel. */
  function SentinelChoice<M>(moves: seq<M>, vals: seq<real>, carried: Option<M>): (r: Option<M>)
    requires |vals| == |moves|
    ensures |vals| > 0 && Max(vals) > IntSentinel ==> r == Some(moves[FirstMax(vals)])
    ensures (forall j :: 0 <= j < |vals| ==> vals[j] <= IntSentinel) ==> r == carried
  {
    FirstAboveMeaning(vals, IntSentinel);
    match FirstAbove(vals, IntSentinel)
    case None => carried
    case Some(i) => Some(moves[i])
  }

  /** A state whose only legal move `a` scores -3e9 is recorded with the move
      `b` carried over from another state, or with no move at all. */
  lemma SentinelChoiceCarries<M>(a: M, b: M)
    ensures SentinelChoice([a], [-3000000000.0], Some(b)) == Some(b)
    ensures SentinelChoice([a], [-3000000000.0], None) == None
  {
    assert FirstAbove([-3000000000.0], IntSentinel).None?;
  }
}
