/**
 The trainer's driver logic: gathering the patterns of all recorded
 experiments, picking one pattern for a test run, judging the test, turning
 a live board sample into the classifier's input, and choosing what to do for
 the action named on the command line.
 */
module Trainer {
  import opened JsObject
  import opened Decimal
  import opened Normalizer
  import opened Accuracy

  /** One recorded experiment file: the label it teaches and its patterns. */
  datatype Experiment = Experiment(name: string, patterns: seq<Pattern>)

  /** The trained classifier's `run`, taken as given. */
  type Network = ChannelMap -> ScoreMap

  /** Whatever the classifier is given, it answers with an object. */
  ghost predicate ObjectValued(net: Network)
  {
    forall m :: UniqueKeys(net(m))
  }

  /** The patterns of all experiments, experiment after experiment. */
  function Concat(experiments: seq<Experiment>): (patterns: seq<Pattern>)
    ensures |patterns| == PatternCount(experiments)
  {
    if experiments == [] then []
    else Concat(experiments[..|experiments| - 1]) + experiments[|experiments| - 1].patterns
  }

  /** How many patterns the experiments hold together. */
  function PatternCount(experiments: seq<Experiment>): nat
  {
    if experiments == [] then 0
    else PatternCount(experiments[..|experiments| - 1]) + |experiments[|experiments| - 1].patterns|
  }

  /**
   Pattern `j` of experiment `e` sits in the concatenation right after the
   patterns of the experiments before `e`.
   */
  lemma {:induction false} ConcatAt(experiments: seq<Experiment>, e: int, j: int)
    requires 0 <= e < |experiments| && 0 <= j < |experiments[e].patterns|
    ensures PatternCount(experiments[..e]) + j < |Concat(experiments)|
    ensures Concat(experiments)[PatternCount(experiments[..e]) + j] == experiments[e].patterns[j]
  {
    var init := experiments[..|experiments| - 1];
    if e < |experiments| - 1 {
      assert init[..e] == experiments[..e];
      ConcatAt(init, e, j);
    } else {
      assert experiments[..e] == init;
    }
  }

  /** A pattern is in the concatenation exactly when some experiment holds it. */
  lemma {:induction false} ConcatMembers(experiments: seq<Experiment>, p: Pattern)
    ensures p in Concat(experiments) <==> exists e :: 0 <= e < |experiments| && p in experiments[e].patterns
  {
    if experiments != [] {
      var init := experiments[..|experiments| - 1];
      ConcatMembers(init, p);
      assert forall e :: 0 <= e < |init| ==> init[e] == experiments[e];
    }
  }

  lemma ConcatStep(experiments: seq<Experiment>, i: int)
    requires 0 <= i < |experiments|
    ensures Concat(experiments[..i + 1]) == Concat(experiments[..i]) + experiments[i].patterns
  {
    assert experiments[..i + 1][..i] == experiments[..i];
  }

  /**
   The channel names a live sample gets: the reading at position `i` (from
   0) goes under the decimal form of `i + 1`.
   */
  function Reshaped(channelData: seq<real>): (output: ChannelMap)
    ensures |output| == |channelData|
    ensures forall i :: 0 <= i < |channelData| ==> output[i] == Entry(NatToString(i + 1), channelData[i])
  {
    if channelData == [] then []
    else Reshaped(channelData[..|channelData| - 1]) + [Entry(NatToString(|channelData|), channelData[|channelData| - 1])]
  }

  /** Channel `k` is present in a reshaped sample exactly when it names a position `1..n`. */
  lemma ReshapedKeys(channelData: seq<real>, k: string)
    ensures HasKey(Reshaped(channelData), k) <==> exists i :: 1 <= i <= |channelData| && k == NatToString(i)
  {
    var output := Reshaped(channelData);
    HasKeyIff(output, k);
    if HasKey(output, k) {
      var j :| 0 <= j < |output| && output[j].key == k;
      assert 1 <= j + 1 <= |channelData| && k == NatToString(j + 1);
    }
    if exists i :: 1 <= i <= |channelData| && k == NatToString(i) {
      var i :| 1 <= i <= |channelData| && k == NatToString(i);
      assert output[i - 1].key == k;
    }
  }

  /** A reshaped sample is an object: the names of its channels are distinct. */
  lemma {:induction false} ReshapedUnique(channelData: seq<real>)
    ensures UniqueKeys(Reshaped(channelData))
  {
    if channelData != [] {
      var n := |channelData|;
      var init := channelData[..n - 1];
      ReshapedUnique(init);
      ReshapedKeys(init, NatToString(n));
      forall i | 1 <= i <= n - 1 ensures NatToString(n) != NatToString(i) {
        NatToStringInjective(n, i);
      }
    }
  }

  /** Channel `i + 1` of a reshaped sample reads `channelData[i]` exactly as sampled. */
  lemma ReshapedGet(channelData: seq<real>, i: int)
    requires 0 <= i < |channelData|
    ensures Get(Reshaped(channelData), NatToString(i + 1)) == Some(channelData[i])
  {
    ReshapedUnique(channelData);
    GetAt(Reshaped(channelData), i);
  }

  /** Every reading of the sample is non-negative and no channel name `1..n` is filtered. */
  predicate ReadingsNormal(channelData: seq<real>, channels: seq<string>)
  {
    forall i :: 0 <= i < |channelData| ==> channelData[i] >= 0.0 && NatToString(i + 1) !in channels
  }

  lemma ReshapedAlreadyNormal(channelData: seq<real>, channels: seq<string>)
    ensures AlreadyNormal(Reshaped(channelData), channels) <==> ReadingsNormal(channelData, channels)
  {
    var output := Reshaped(channelData);
    if AlreadyNormal(output, channels) {
      forall i | 0 <= i < |channelData| ensures channelData[i] >= 0.0 && NatToString(i + 1) !in channels {
        assert output[i] == Entry(NatToString(i + 1), channelData[i]);
      }
      assert ReadingsNormal(channelData, channels);
    }
    if ReadingsNormal(channelData, channels) {
      forall i | 0 <= i < |output| ensures output[i].value >= 0.0 && output[i].key !in channels {
        assert output[i] == Entry(NatToString(i + 1), channelData[i]);
      }
      assert AlreadyNormal(output, channels);
    }
  }

  /**
   A live sample is not normalised: it reaches the classifier as the
   training patterns would only when every reading is non-negative and no
   channel is on the filter list.
   */
  lemma LiveSampleSkipsNormalization(channelData: seq<real>, channels: seq<string>)
    ensures Normalized(Reshaped(channelData), channels) == Reshaped(channelData) <==> ReadingsNormal(channelData, channels)
  {
    NormalizedFixpoint(Reshaped(channelData), channels);
    ReshapedAlreadyNormal(channelData, channels);
  }

  /** The sample `[4, -2]` reaches the classifier as `{"1": 4, "2": -2}`, with the sign kept. */
  lemma ReshapedExample()
    ensures Reshaped([4.0, -2.0]) == [Entry("1", 4.0), Entry("2", -2.0)]
    ensures Normalized(Reshaped([4.0, -2.0]), []) != Reshaped([4.0, -2.0])
  {
    var output := Reshaped([4.0, -2.0]);
    assert output[1] == Entry("2", -2.0);
    LiveSampleSkipsNormalization([4.0, -2.0], []);
  }

  /**
   The reshaping loop of `interpret`: assign each reading of the sample to
   the decimal name of its position plus one.
   */
  method ReshapeSample(channelData: seq<real>) returns (output: ChannelMap)
    ensures output == Reshaped(channelData)
    ensures UniqueKeys(output)
  {
    output := [];
    var index := 0;
    while index < |channelData|
      invariant 0 <= index <= |channelData|
      invariant output == Reshaped(channelData[..index])
    {
      assert !HasKey(output, NatToString(index + 1)) by {
        ReshapedKeys(channelData[..index], NatToString(index + 1));
        forall i | 1 <= i <= index ensures NatToString(index + 1) != NatToString(i) {
          NatToStringInjective(index + 1, i);
        }
      }
      assert channelData[..index + 1][..index] == channelData[..index];
      output := Set(output, NatToString(index + 1), channelData[index]);
      index := index + 1;
    }
    assert channelData[..index] == channelData;
    ReshapedUnique(channelData);
  }

  /**
   The label `interpret` logs for the classifier's answer, or None for
   `undefined`: there is a label exactly when the answer is non-empty, and it
   is a label of the answer with the top score.
   */
  function Reported(output: ScoreMap): (r: Option<string>)
    ensures r.Some? <==> output != []
    ensures r.Some? ==> exists j :: 0 <= j < |output| && output[j].key == r.value && IsBest(output, j)
  {
    var mostAccurate := MostAccurate(output);
    if mostAccurate.Decided? then Some(mostAccurate.keyword) else None
  }

  /**
   `interpret`: reshape the sample, run the classifier on it and report the
   most accurate label.
   */
  method Interpret(channelData: seq<real>, net: Network) returns (keyword: Option<string>)
    requires ObjectValued(net)
    ensures keyword == Reported(net(Reshaped(channelData)))
  {
    var output := ReshapeSample(channelData);
    var result := net(output);
    var mostAccurate := GetMostAccurate(result);
    keyword := if mostAccurate.Decided? then Some(mostAccurate.keyword) else None;
  }

  /** What the script runs once the experiment files are loaded. */
  datatype Branch = Exercising | Testing | Interpreting

  /**
   The dispatch on the command-line action: a load error stops everything,
   and each of the three independent tests runs its branch.
   */
  function Branches(loadFailed: bool, action: Option<string>): (taken: seq<Branch>)
    ensures |taken| <= 1
    ensures taken == [Exercising] <==> !loadFailed && action == Some("exercise")
    ensures taken == [Testing] <==> !loadFailed && action == Some("test")
    ensures taken == [Interpreting] <==> !loadFailed && action == Some("interpret")
    ensures taken == [] <==> loadFailed || action !in {Some("exercise"), Some("test"), Some("interpret")}
  {
    if loadFailed then []
    else
      var exercise := if action == Some("exercise") then [Exercising] else [];
      var test := if action == Some("test") then [Testing] else [];
      var interpret := if action == Some("interpret") then [Interpreting] else [];
      assert "exercise"[0] != "test"[0] && "test"[0] != "interpret"[0] && "exercise"[0] != "interpret"[0];
      assert [Exercising][0] != [Testing][0];
      exercise + test + interpret
  }

  /**
   The script's module-level state: the filter list and the experiment the
   last test run picked.
   */
  class Session {
    const channelsToFilter: seq<string>
    var randomExperiment: Option<Experiment>

    constructor(channelsToFilter: seq<string>)
      ensures this.channelsToFilter == channelsToFilter
      ensures randomExperiment == None
    {
      this.channelsToFilter := channelsToFilter;
      randomExperiment := None;
    }

    /**
     `getPatternsFromExperiments`: concatenate every experiment's patterns in
     order, then normalise them all in place.
     */
    method GetPatternsFromExperiments(experiments: seq<Experiment>) returns (patterns: seq<Pattern>)
      requires forall e, j :: 0 <= e < |experiments| && 0 <= j < |experiments[e].patterns| ==>
        experiments[e].patterns[j].Valid()
      modifies set p | p in Concat(experiments)
      ensures patterns == Concat(experiments)
      ensures forall e, j :: 0 <= e < |experiments| && 0 <= j < |experiments[e].patterns| ==>
        var p := experiments[e].patterns[j];
        p.Valid() && p.input == Normalized(old(p.input), channelsToFilter)
    {
      var all: seq<Pattern> := [];
      var i := 0;
      while i < |experiments|
        invariant 0 <= i <= |experiments|
        invariant all == Concat(experiments[..i])
        modifies {}
      {
        ConcatStep(experiments, i);
        all := all + experiments[i].patterns;
        i := i + 1;
      }
      assert experiments[..i] == experiments;
      assert all == Concat(experiments);
      forall p | p in all ensures p.Valid() {
        ConcatMembers(experiments, p);
      }
      patterns := FilterChannelsFromPatterns(all, channelsToFilter);
      forall e, j | 0 <= e < |experiments| && 0 <= j < |experiments[e].patterns|
        ensures experiments[e].patterns[j] in patterns
      {
        ConcatMembers(experiments, experiments[e].patterns[j]);
      }
    }

    /**
     `getRandomPatternFromExperiments` with the two random draws given as
     indices: remember the chosen experiment, then normalise the chosen
     pattern in place and return it.
     */
    method GetRandomPatternFromExperiments(experiments: seq<Experiment>, experimentIndex: int, patternIndex: int)
      returns (pattern: Pattern)
      requires 0 <= experimentIndex < |experiments|
      requires 0 <= patternIndex < |experiments[experimentIndex].patterns|
      requires experiments[experimentIndex].patterns[patternIndex].Valid()
      modifies this, experiments[experimentIndex].patterns[patternIndex]
      ensures randomExperiment == Some(experiments[experimentIndex])
      ensures pattern == experiments[experimentIndex].patterns[patternIndex]
      ensures pattern.Valid() && pattern.input == Normalized(old(pattern.input), channelsToFilter)
    {
      randomExperiment := Some(experiments[experimentIndex]);
      var randomPattern := randomExperiment.value.patterns[patternIndex];
      var filtered := FilterChannelsFromPatterns([randomPattern], channelsToFilter);
      pattern := filtered[0];
    }

    /**
     The verdict of `getTestResults`: the test passes when the most accurate
     label is the name of the experiment the test pattern came from.
     */
    method GetTestResults(output: ScoreMap) returns (verdict: Verdict)
      requires randomExperiment.Some?
      requires UniqueKeys(output)
      ensures verdict == TestVerdict(output, randomExperiment.value.name)
    {
      var mostAccurate := GetMostAccurate(output);
      verdict := if mostAccurate.Decided? && mostAccurate.keyword == randomExperiment.value.name then Passed else Failed;
    }

    /**
     The `test` action: pick a pattern, run the classifier on its normalised
     input and judge the answer.
     */
    method RunTest(experiments: seq<Experiment>, experimentIndex: int, patternIndex: int, net: Network)
      returns (verdict: Verdict)
      requires 0 <= experimentIndex < |experiments|
      requires 0 <= patternIndex < |experiments[experimentIndex].patterns|
      requires experiments[experimentIndex].patterns[patternIndex].Valid()
      requires ObjectValued(net)
      modifies this, experiments[experimentIndex].patterns[patternIndex]
      ensures randomExperiment == Some(experiments[experimentIndex])
      ensures var p := experiments[experimentIndex].patterns[patternIndex];
        p.Valid() && p.input == Normalized(old(p.input), channelsToFilter)
      ensures var experiment := experiments[experimentIndex];
        verdict == TestVerdict(net(experiment.patterns[patternIndex].input), experiment.name)
    {
      var testData := GetRandomPatternFromExperiments(experiments, experimentIndex, patternIndex);
      verdict := GetTestResults(net(testData.input));
    }
  }
}
