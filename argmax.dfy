/**
 * Running-maximum selection over a sequence of scores.
 *
 * Every solver scans its candidate moves left to right and keeps the best one
 * seen so far. The three variants used by the agents differ in the comparison
 * that replaces the current candidate (`>` or `>=`) and in what stands before
 * the first candidate (nothing, or an incumbent with a known score).
 */
module Argmax {

  datatype Option<T> = None | Some(value: T)

  /** The position a scan keeps when it replaces its candidate only on a
      strictly greater score: the first maximal position. */
  function FirstMax(vals: seq<real>): (i: nat)
    requires |vals| > 0
    ensures i < |vals|
    ensures forall j :: 0 <= j < |vals| ==> vals[j] <= vals[i]
    ensures forall j :: 0 <= j < i ==> vals[j] < vals[i]
  {
    if |vals| == 1 then 0
    else
      var p := FirstMax(vals[..|vals| - 1]);
      if vals[|vals| - 1] > vals[p] then |vals| - 1 else p
  }

  /** The position a scan keeps when it replaces its candidate on a greater or
      equal score: the last maximal position. */
  function LastMax(vals: seq<real>): (i: nat)
    requires |vals| > 0
    ensures i < |vals|
    ensures forall j :: 0 <= j < |vals| ==> vals[j] <= vals[i]
    ensures forall j :: i < j < |vals| ==> vals[j] < vals[i]
  {
    if |vals| == 1 then 0
    else
      var p := LastMax(vals[..|vals| - 1]);
      if vals[|vals| - 1] >= vals[p] then |vals| - 1 else p
  }

  /** The largest score. */
  function Max(vals: seq<real>): (r: real)
    requires |vals| > 0
    ensures r in vals
    ensures forall j :: 0 <= j < |vals| ==> vals[j] <= r
  {
    vals[FirstMax(vals)]
  }

  /** The position a scan keeps when its candidate starts as an incumbent of
      score `base` and is replaced only on a strictly greater score (see
      `FirstAboveMeaning`). */
  function FirstAbove(vals: seq<real>, base: real): (r: Option<nat>)
    ensures r.Some? ==> r.value < |vals|
  {
    if |vals| == 0 then None
    else
      var p := FirstAbove(vals[..|vals| - 1], base);
      var incumbent := if p.None? then base else vals[p.value];
      if vals[|vals| - 1] > incumbent then Some(|vals| - 1) else p
  }

  /** `FirstAbove` is `None` exactly when no score beats the incumbent, and
      otherwise the first maximal position, whose score beats it. */
  lemma {:induction false} FirstAboveMeaning(vals: seq<real>, base: real)
    ensures FirstAbove(vals, base).None? <==> forall j :: 0 <= j < |vals| ==> vals[j] <= base
    ensures FirstAbove(vals, base).Some? ==>
              |vals| > 0 && FirstAbove(vals, base).value == FirstMax(vals) && vals[FirstAbove(vals, base).value] > base
  {
    if |vals| > 0 {
      FirstAboveMeaning(vals[..|vals| - 1], base);
    }
  }

  /** One step of the strict scan: extending the scores by one either keeps
      the position or moves it to the new score, when that is strictly
      greater. */
  lemma FirstMaxStep(vals: seq<real>, i: nat)
    requires 0 < i < |vals|
    ensures FirstMax(vals[..i + 1]) ==
            if vals[i] > vals[FirstMax(vals[..i])] then i else FirstMax(vals[..i])
  {
    assert vals[..i + 1][..i] == vals[..i];
  }

  /** One step of the `>=` scan. */
  lemma LastMaxStep(vals: seq<real>, i: nat)
    requires 0 < i < |vals|
    ensures LastMax(vals[..i + 1]) ==
            if vals[i] >= vals[LastMax(vals[..i])] then i else LastMax(vals[..i])
  {
    assert vals[..i + 1][..i] == vals[..i];
  }

  /** A position that is maximal and beats every earlier one is the one the
      strict scan keeps; the same holds for the `>=` scan and later positions. */
  lemma MaxPositionsUnique(vals: seq<real>, i: nat)
    requires i < |vals| && forall j :: 0 <= j < |vals| ==> vals[j] <= vals[i]
    ensures (forall j :: 0 <= j < i ==> vals[j] < vals[i]) <==> i == FirstMax(vals)
    ensures (forall j :: i < j < |vals| ==> vals[j] < vals[i]) <==> i == LastMax(vals)
  {
  }

  /** The two scans agree on the maximal score; they keep the same position
      exactly when the maximum is attained once. */
  lemma FirstMaxLastMax(vals: seq<real>)
    requires |vals| > 0
    ensures FirstMax(vals) <= LastMax(vals)
    ensures vals[FirstMax(vals)] == vals[LastMax(vals)]
    ensures FirstMax(vals) == LastMax(vals) <==>
              forall j :: 0 <= j < |vals| && vals[j] == vals[FirstMax(vals)] ==> j == FirstMax(vals)
  {
  }
}
