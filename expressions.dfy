/**
 * The face-api result that the mood tick reads: a list of detections, each with an
 * expression-score object. Scores are abstracted to integers, since the tick only
 * compares them with `>`.
 */
module Expressions {

  /** An expression-score object: `keys` in the order `Object.keys` enumerates
      them, `scores` the value stored under each key. */
  datatype ExpressionScores = ExpressionScores(keys: seq<string>, scores: map<string, int>)

  /** One detected face; only its expression scores matter here. */
  datatype Detection = Detection(expressions: ExpressionScores)

  predicate KeysScored(keys: seq<string>, scores: map<string, int>) {
    forall i :: 0 <= i < |keys| ==> keys[i] in scores
  }

  predicate DistinctKeys(keys: seq<string>) {
    forall i, j :: 0 <= i < j < |keys| ==> keys[i] != keys[j]
  }

  /** What `Object.keys` guarantees: every own key exactly once, and nothing else. */
  predicate WellFormed(e: ExpressionScores) {
    DistinctKeys(e.keys) && KeysScored(e.keys, e.scores) &&
    forall k :: k in e.scores ==> k in e.keys
  }

  predicate DetectionsWellFormed(detections: seq<Detection>) {
    forall i :: 0 <= i < |detections| ==> WellFormed(detections[i].expressions)
  }

  /** Position `i` holds a maximal score, and every later position a strictly smaller one. */
  predicate IsLastMaximum(keys: seq<string>, scores: map<string, int>, i: int)
    requires KeysScored(keys, scores)
  {
    0 <= i < |keys| &&
    (forall j :: 0 <= j <= i ==> scores[keys[j]] <= scores[keys[i]]) &&
    (forall j :: i < j < |keys| ==> scores[keys[j]] < scores[keys[i]])
  }

  /**
   * `keys.reduce((a, b) => scores[a] > scores[b] ? a : b)` with no seed: the first key
   * is the initial accumulator, and each later key replaces it unless the accumulator's
   * score is strictly greater. Written as the left fold it is: reduce over all but the
   * last key, then one more step with the last key.
   */
  function ArgMax(keys: seq<string>, scores: map<string, int>): (r: string)
    requires |keys| > 0
    requires KeysScored(keys, scores)
    ensures r in scores
    ensures exists i :: IsLastMaximum(keys, scores, i) && keys[i] == r
    decreases |keys|
  {
    if |keys| == 1 then
      assert IsLastMaximum(keys, scores, 0);
      keys[0]
    else
      var init := keys[..|keys| - 1];
      var b := keys[|keys| - 1];
      var acc := ArgMax(init, scores);
      if scores[acc] > scores[b] then
        KeepAccumulator(keys, init, scores, acc);
        acc
      else
        TakeLast(keys, init, scores, acc);
        b
  }

  /** The fold step that keeps the accumulator preserves "last maximum". */
  lemma KeepAccumulator(keys: seq<string>, init: seq<string>, scores: map<string, int>, acc: string)
    requires |keys| > 1 && KeysScored(keys, scores) && init == keys[..|keys| - 1]
    requires KeysScored(init, scores)
    requires exists i :: IsLastMaximum(init, scores, i) && init[i] == acc
    requires acc in scores && scores[acc] > scores[keys[|keys| - 1]]
    ensures exists i :: IsLastMaximum(keys, scores, i) && keys[i] == acc
  {
    var i :| IsLastMaximum(init, scores, i) && init[i] == acc;
    assert forall j :: 0 <= j < |init| ==> init[j] == keys[j];
    assert IsLastMaximum(keys, scores, i);
  }

  /** The fold step that replaces the accumulator by the last key (the `>` failed)
      makes the last position the last maximum. */
  lemma TakeLast(keys: seq<string>, init: seq<string>, scores: map<string, int>, acc: string)
    requires |keys| > 1 && KeysScored(keys, scores) && init == keys[..|keys| - 1]
    requires KeysScored(init, scores)
    requires exists i :: IsLastMaximum(init, scores, i) && init[i] == acc
    requires acc in scores && !(scores[acc] > scores[keys[|keys| - 1]])
    ensures IsLastMaximum(keys, scores, |keys| - 1)
  {
    var i :| IsLastMaximum(init, scores, i) && init[i] == acc;
    assert forall j :: 0 <= j < |init| ==> init[j] == keys[j];
  }

  /** The reduce's result is a key of the map whose score no other key exceeds. */
  lemma ArgMaxIsMaximal(keys: seq<string>, scores: map<string, int>)
    requires |keys| > 0 && KeysScored(keys, scores)
    ensures ArgMax(keys, scores) in keys
    ensures forall j :: 0 <= j < |keys| ==> scores[keys[j]] <= scores[ArgMax(keys, scores)]
  {
    var r := ArgMax(keys, scores);
    var i :| IsLastMaximum(keys, scores, i) && keys[i] == r;
  }

  /** Tie-break, one direction: the last position holding a maximal score is the one
      the reduce returns. Together with ArgMax's own contract this pins the result down. */
  lemma {:induction false} ArgMaxPicksLastMaximum(keys: seq<string>, scores: map<string, int>, i: int)
    requires KeysScored(keys, scores)
    requires IsLastMaximum(keys, scores, i)
    ensures ArgMax(keys, scores) == keys[i]
  {
    var r := ArgMax(keys, scores);
    var k :| IsLastMaximum(keys, scores, k) && keys[k] == r;
    // k < i would make keys[i]'s score strictly below keys[k]'s, k > i the reverse.
    assert k == i;
  }

  /** Tie-break, other direction: with distinct keys, a key followed by another key of
      equal or greater score is never the result, so among tied maxima the earlier lose. */
  lemma ArgMaxSkipsEarlierTie(keys: seq<string>, scores: map<string, int>, i: int, j: int)
    requires KeysScored(keys, scores) && DistinctKeys(keys)
    requires 0 <= i < j < |keys|
    requires scores[keys[i]] <= scores[keys[j]]
    ensures ArgMax(keys, scores) != keys[i]
  {
    var r := ArgMax(keys, scores);
    var k :| IsLastMaximum(keys, scores, k) && keys[k] == r;
    // k == i is ruled out because keys[j] comes later with a score at least as high.
    assert k != i;
    assert keys[k] != keys[i];
  }

  /** A concrete tie: two equal top scores, and the later key wins. */
  lemma TieGoesToLaterKey()
    ensures ArgMax(["happy", "sad", "neutral"], map["happy" := 5, "sad" := 5, "neutral" := 1]) == "sad"
  {
    var keys := ["happy", "sad", "neutral"];
    var scores := map["happy" := 5, "sad" := 5, "neutral" := 1];
    assert IsLastMaximum(keys, scores, 1);
    ArgMaxPicksLastMaximum(keys, scores, 1);
  }
}
