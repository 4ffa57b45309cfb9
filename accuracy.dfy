/**
 The decision the trainer draws from a classifier's score map
 (`getMostAccurate`) and the verdict of a test run (`getTestResults`).
 */
module Accuracy {
  import opened JsObject

  /** The classifier's output: label to score. */
  type ScoreMap = seq<Entry<real>>

  /** A number `Math.max` can return: `-Infinity` for no arguments, else one of them. */
  datatype Extended = NegativeInfinity | Finite(value: real)

  /** What `getMostAccurate` returns: `{}`, or `{keyword, accuracy}`. */
  datatype Decision = Undecided | Decided(keyword: string, accuracy: real)

  /** The scores of a score map, in key order, as the first loop pushes them. */
  function Values(output: ScoreMap): (scores: seq<real>)
    ensures |scores| == |output|
    ensures forall i :: 0 <= i < |output| ==> scores[i] == output[i].value
  {
    if output == [] then [] else Values(output[..|output| - 1]) + [output[|output| - 1].value]
  }

  /** `Math.max.apply(Math, scores)` */
  function MathMax(scores: seq<real>): (m: Extended)
    ensures m == NegativeInfinity <==> scores == []
    ensures m.Finite? ==> m.value in scores
    ensures m.Finite? ==> forall i :: 0 <= i < |scores| ==> scores[i] <= m.value
  {
    if scores == [] then NegativeInfinity
    else
      var last := scores[|scores| - 1];
      match MathMax(scores[..|scores| - 1])
      case NegativeInfinity => Finite(last)
      case Finite(m) => if last < m then Finite(m) else Finite(last)
  }

  /**
   The second loop of `getMostAccurate`: every label whose score is `best`
   overwrites the result, so the last such label in key order is kept.
   */
  function LastWithScore(output: ScoreMap, best: Extended): (d: Decision)
    ensures d.Decided? ==> Entry(d.keyword, d.accuracy) in output && best == Finite(d.accuracy)
    ensures d == Undecided <==> forall i :: 0 <= i < |output| ==> Finite(output[i].value) != best
  {
    if output == [] then Undecided
    else
      var last := output[|output| - 1];
      if Finite(last.value) == best then Decided(last.key, last.value)
      else LastWithScore(output[..|output| - 1], best)
  }

  /** Label `j` has a score that no label of the map exceeds. */
  predicate IsBest(output: ScoreMap, j: int)
    requires 0 <= j < |output|
  {
    forall k :: 0 <= k < |output| ==> output[k].value <= output[j].value
  }

  /** Label `j` has the highest score and every later label scores strictly less. */
  predicate IsLastBest(output: ScoreMap, j: int)
    requires 0 <= j < |output|
  {
    IsBest(output, j) && forall k :: j < k < |output| ==> output[k].value < output[j].value
  }

  /**
   `getMostAccurate(output)`: `{}` exactly for an empty map; otherwise a label
   of the map with its own score, which no score exceeds.
   */
  function MostAccurate(output: ScoreMap): (d: Decision)
    ensures d == Undecided <==> output == []
    ensures d.Decided? ==> exists j :: 0 <= j < |output| && output[j] == Entry(d.keyword, d.accuracy) && IsBest(output, j)
  {
    var scores := Values(output);
    var best := MathMax(scores);
    var d := LastWithScore(output, best);
    assert output != [] ==> d.Decided? by {
      if output != [] {
        var i :| 0 <= i < |scores| && scores[i] == best.value;
        assert Finite(output[i].value) == best;
      }
    }
    assert d.Decided? ==> exists j :: 0 <= j < |output| && output[j] == Entry(d.keyword, d.accuracy) && IsBest(output, j) by {
      if d.Decided? {
        var j :| 0 <= j < |output| && output[j] == Entry(d.keyword, d.accuracy);
        assert IsBest(output, j);
      }
    }
    d
  }

  /**
   `getMostAccurate`: collect the scores, take their maximum, then keep the
   last label whose score equals it.
   */
  method GetMostAccurate(output: ScoreMap) returns (result: Decision)
    requires UniqueKeys(output)
    ensures result == MostAccurate(output)
  {
    result := Undecided;
    var scores: seq<real> := [];
    var keys := Keys(output);
    var i := 0;
    while i < |keys|
      invariant 0 <= i <= |keys| == |output|
      invariant scores == Values(output[..i])
    {
      var keyword := keys[i];
      ReadAt(output, keys, i);
      ValuesStep(output, i);
      scores := scores + [Get(output, keyword).value];
      i := i + 1;
    }
    assert scores == Values(output) by { assert output[..|output|] == output; }
    var mostAccurate := MathMax(scores);
    i := 0;
    while i < |keys|
      invariant 0 <= i <= |keys| == |output|
      invariant result == LastWithScore(output[..i], mostAccurate)
    {
      var keyword := keys[i];
      ReadAt(output, keys, i);
      LastWithScoreStep(output, mostAccurate, i);
      if Finite(Get(output, keyword).value) == mostAccurate {
        result := Decided(keyword, Get(output, keyword).value);
      }
      i := i + 1;
    }
    assert result == LastWithScore(output, mostAccurate) by { assert output[..|output|] == output; }
  }

  /** Reading key `i` of `Object.keys(output)` yields the score at position `i`. */
  lemma ReadAt(output: ScoreMap, keys: seq<string>, i: int)
    requires UniqueKeys(output) && keys == Keys(output) && 0 <= i < |output|
    ensures keys[i] == output[i].key && Get(output, keys[i]) == Some(output[i].value)
  {
    GetAt(output, i);
  }

  lemma ValuesStep(output: ScoreMap, i: int)
    requires 0 <= i < |output|
    ensures Values(output[..i + 1]) == Values(output[..i]) + [output[i].value]
  {
    assert output[..i + 1][..i] == output[..i];
  }

  lemma LastWithScoreStep(output: ScoreMap, best: Extended, i: int)
    requires 0 <= i < |output|
    ensures LastWithScore(output[..i + 1], best)
         == if Finite(output[i].value) == best then Decided(output[i].key, output[i].value) else LastWithScore(output[..i], best)
  {
    assert output[..i + 1][..i] == output[..i];
  }

  /** The label at `j` is kept when its score is `best` and no later label scores `best`. */
  lemma {:induction false} LastWithScoreAt(output: ScoreMap, best: Extended, j: int)
    requires 0 <= j < |output| && Finite(output[j].value) == best
    requires forall k :: j < k < |output| ==> Finite(output[k].value) != best
    ensures LastWithScore(output, best) == Decided(output[j].key, output[j].value)
  {
    if j < |output| - 1 {
      var init := output[..|output| - 1];
      assert init[j] == output[j];
      LastWithScoreAt(init, best, j);
    }
  }

  /** No label after position `j` scores `best`. */
  predicate NoLaterScore(output: ScoreMap, best: Extended, j: int)
    requires 0 <= j < |output|
  {
    forall k :: j < k < |output| ==> Finite(output[k].value) != best
  }

  /** The label that is kept sits at some index, and no later label scores `best`. */
  lemma {:induction false} LastWithScoreIsLast(output: ScoreMap, best: Extended)
    requires LastWithScore(output, best).Decided?
    ensures var d := LastWithScore(output, best);
      exists j :: 0 <= j < |output| && output[j] == Entry(d.keyword, d.accuracy) && NoLaterScore(output, best, j)
  {
    var last := output[|output| - 1];
    if Finite(last.value) == best {
      assert NoLaterScore(output, best, |output| - 1);
    } else {
      var init := output[..|output| - 1];
      LastWithScoreIsLast(init, best);
      var d := LastWithScore(init, best);
      var j :| 0 <= j < |init| && init[j] == Entry(d.keyword, d.accuracy) && NoLaterScore(init, best, j);
      NoLaterScoreSnoc(output, best, j);
    }
  }

  lemma NoLaterScoreSnoc(output: ScoreMap, best: Extended, j: int)
    requires 0 <= j < |output| - 1
    requires NoLaterScore(output[..|output| - 1], best, j) && Finite(output[|output| - 1].value) != best
    ensures output[j] == output[..|output| - 1][j]
    ensures NoLaterScore(output, best, j)
  {
  }

  /** Reading the chosen keyword back from the map yields the chosen accuracy. */
  lemma MostAccurateIsBest(output: ScoreMap)
    requires UniqueKeys(output)
    ensures var d := MostAccurate(output);
      d.Decided? ==> Get(output, d.keyword) == Some(d.accuracy)
  {
    var d := MostAccurate(output);
    if d.Decided? {
      var j :| 0 <= j < |output| && output[j] == Entry(d.keyword, d.accuracy) && IsBest(output, j);
      GetAt(output, j);
    }
  }

  /** A label with the top score that no later label ties is the one chosen. */
  lemma LastBestIsChosen(output: ScoreMap, j: int)
    requires 0 <= j < |output| && IsLastBest(output, j)
    ensures MostAccurate(output) == Decided(output[j].key, output[j].value)
  {
    var scores := Values(output);
    var best := MathMax(scores);
    assert best == Finite(output[j].value) by {
      assert scores[j] == output[j].value;
      var i :| 0 <= i < |scores| && scores[i] == best.value;
      assert scores[i] <= output[j].value;
    }
    LastWithScoreAt(output, best, j);
  }

  /** In a map with distinct keys, the chosen label has the top score and no later label ties it. */
  lemma ChosenIsLastBest(output: ScoreMap, j: int)
    requires UniqueKeys(output) && 0 <= j < |output|
    requires MostAccurate(output) == Decided(output[j].key, output[j].value)
    ensures IsLastBest(output, j)
  {
    var best := MathMax(Values(output));
    assert LastWithScore(output, best) == Decided(output[j].key, output[j].value);
    LastWithScoreIsLast(output, best);
    var j' :| 0 <= j' < |output| && output[j'] == output[j] && NoLaterScore(output, best, j');
    assert j' == j by {
      if j' < j {
        UniqueKeysAt(output, j', j);
      } else if j < j' {
        UniqueKeysAt(output, j, j');
      }
    }
    assert IsBest(output, j) by {
      var i :| 0 <= i < |output| && output[i] == output[j] && IsBest(output, i);
    }
  }

  /**
   Label `j` is the decision exactly when it has the highest score and every
   later label scores strictly less: among tied labels the last one wins.
   */
  lemma MostAccurateAt(output: ScoreMap, j: int)
    requires UniqueKeys(output) && 0 <= j < |output|
    ensures MostAccurate(output) == Decided(output[j].key, output[j].value) <==> IsLastBest(output, j)
  {
    if IsLastBest(output, j) {
      LastBestIsChosen(output, j);
    }
    if MostAccurate(output) == Decided(output[j].key, output[j].value) {
      ChosenIsLastBest(output, j);
    }
  }

  /** Two labels tied at the top and a lower one: the later of the tied labels wins. */
  lemma TieBreakExample()
    ensures MostAccurate([Entry("a", 0.9), Entry("b", 0.9), Entry("c", 0.2)]) == Decided("b", 0.9)
  {
    var output := [Entry("a", 0.9), Entry("b", 0.9), Entry("c", 0.2)];
    assert IsLastBest(output, 1);
    LastBestIsChosen(output, 1);
  }

  datatype Verdict = Passed | Failed

  /**
   The verdict of `getTestResults` on the classifier's answer: it passes when
   the most accurate keyword is the experiment's name, so a passed test always
   names a label of the answer with the top score, and an empty answer fails.
   */
  function TestVerdict(output: ScoreMap, name: string): (v: Verdict)
    ensures output == [] ==> v == Failed
    ensures v == Passed ==> exists j :: 0 <= j < |output| && output[j].key == name && IsBest(output, j)
  {
    var mostAccurate := MostAccurate(output);
    if mostAccurate.Decided? && mostAccurate.keyword == name then Passed else Failed
  }

  /**
   A test passes exactly when the selected experiment's name is a label of the
   output that has the highest score and is not followed by another label with
   that score.
   */
  lemma TestVerdictPasses(output: ScoreMap, name: string)
    requires UniqueKeys(output)
    ensures TestVerdict(output, name) == Passed
      <==> exists j :: 0 <= j < |output| && output[j].key == name && IsLastBest(output, j)
  {
    var d := MostAccurate(output);
    if TestVerdict(output, name) == Passed {
      var j :| 0 <= j < |output| && output[j] == Entry(d.keyword, d.accuracy) && IsBest(output, j);
      ChosenIsLastBest(output, j);
    }
    if exists j :: 0 <= j < |output| && output[j].key == name && IsLastBest(output, j) {
      var j :| 0 <= j < |output| && output[j].key == name && IsLastBest(output, j);
      LastBestIsChosen(output, j);
    }
  }
}
