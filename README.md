# OpenBCI neural-network trainer: the decision logic, in Dafny

The trainer script (`trainer.js`) loads recorded EEG experiments. Each
experiment is a label (`name`) and a list of patterns, and each pattern's
`input` maps a channel id to a reading. In `exercise` mode it trains a
classifier on those patterns. In `test` mode it classifies one randomly picked
pattern and checks the answer against that pattern's experiment. In
`interpret` mode it classifies live board samples.

This project models the parts of the script that decide things:

- **Normalisation of training patterns** (`filterChannelsFromPatterns`). It
  works in place. Every reading becomes its absolute value, and every channel
  on the filter list is deleted.
- **Aggregation of patterns** over all experiments
  (`getPatternsFromExperiments`).
- **Choice of the test pattern**, from two random indices
  (`getRandomPatternFromExperiments`).
- **The best-label decision** (`getMostAccurate`). The last label in key order
  that has the top score wins. An empty score map yields `{}`.
- **The test verdict** (`getTestResults`).
- **Reshaping a live sample** into channels `"1".."n"` (`interpret`).
- **Dispatch on the command-line action.**

The modules are:

- `JsObject` (`js_object.dfy`): a JavaScript object as the list of its own
  properties in `Object.keys` order, with distinct keys. Reading, assigning
  and `delete` are modelled on that list. An assigned key that already exists
  keeps its place, and a new key is added last. JavaScript would list a new
  integer-like key among the other integer-like keys; the only keys this
  script adds, `"1".."n"` in `interpret`, arrive in that order anyway.
- `Decimal` (`decimal.dfy`): the decimal string `'' + n` of a natural number.
  It reads back to `n`, so different positions get different channel names.
- `Normalizer` (`normalizer.dfy`): the `Pattern` class, whose `input` is
  rewritten in place. `NormalizeInput` is the loop over one pattern's keys.
  `FilterChannelsFromPatterns` normalises each pattern of a list. Both are
  proved against the value-level specification `Normalized`.
- `Accuracy` (`accuracy.dfy`): `GetMostAccurate` is the two loops, proved
  against the specification `MostAccurate`. This module also holds the
  verdict comparison.
- `Trainer` (`trainer.dfy`):
  - experiments and their concatenation;
  - the live-sample reshaping loop and `Interpret`;
  - the dispatch;
  - the `Session` class, which holds the script's module-level state: the
    filter list and the randomly chosen experiment.

Readings and scores are exact real numbers. `Math.max` of no arguments is
`-Infinity`, so the model has an explicit `NegativeInfinity` value for what
`Math.max` returns (`trainer.js:169`). An empty score map yields `{}` because
the second loop (`trainer.js:170-177`) visits no key and leaves the initial
`{}` in place; the model calls that result `Undecided`.

Live samples are not normalised: the reshaping loop (`trainer.js:122-124`)
copies readings unchanged, so the sample `[4, -2]` reaches the classifier as
`{"1": 4, "2": -2}`, whereas a training pattern with those readings would be
given as `{"1": 4, "2": 2}`. `Trainer.ReshapedExample` and
`Trainer.LiveSampleSkipsNormalization` state this.

## Model

| member | source | states |
|---|---|---|
| `JsObject.Keys` | trainer.js:166-170 | `Object.keys` (here and in `filterChannelsFromPatterns`) lists one key per property, the key of property `i` at position `i` |
| `JsObject.Get` | trainer.js:149 | reading `obj[k]` yields a value exactly when `k` is a key of the object |
| `JsObject.Set` | trainer.js:123 | assigning a key the object lacks appends that property at the end |
| `JsObject.Delete` | trainer.js:151 | deleting a key the object lacks leaves it unchanged |
| `JsObject.UpdateBetween` | trainer.js:149-151 | on an object, reading a key yields its value, assigning it replaces that property in place, and deleting it removes only that property, keeping the order of the rest |
| `JsObject.GetAt` | trainer.js:147-149 | reading the key found at position `i` of `Object.keys` yields the value at position `i` |
| `Decimal.NatToString` | trainer.js:123 | `'' + n` is a non-empty string of decimal digits with no leading zero |
| `Decimal.ParseNatToString` | trainer.js:123 | the decimal form of `n` reads back as `n` |
| `Decimal.NatToStringInjective` | trainer.js:123 | two positions get the same channel name only if they are equal |
| `Normalizer.Abs` | trainer.js:149 | `Math.abs(x)` is non-negative and is `x` or `-x` |
| `Normalizer.Normalized` | trainer.js:145-156 | a normalised input is no longer than the original, every reading in it is non-negative, and no filtered channel survives |
| `Normalizer.NormalizedGet` | trainer.js:147-152 | after normalisation a filtered channel is absent, every other channel reads the absolute value of its old reading, and no channel is added |
| `Normalizer.NormalizedUnique` | trainer.js:145-156 | normalisation keeps the channel keys distinct |
| `Normalizer.NormalizedIdempotent` | trainer.js:145-156 | normalising an already normalised input changes nothing |
| `Normalizer.NormalizedFixpoint` | trainer.js:149-152 | an input is left as it is exactly when all its readings are non-negative and none of its channels is filtered |
| `Normalizer.NormalizeStep` | trainer.js:147-153 | with the first `i` keys done, overwriting key `i` with its absolute value and deleting it if filtered leaves the first `i + 1` keys done |
| `Normalizer.Pattern.NormalizeInput` | trainer.js:147-153 | walking a snapshot of the keys, one pattern's input becomes its normalised form, in place |
| `Normalizer.FilterChannelsFromPatterns` | trainer.js:145-156 | every listed pattern is normalised in place, once even if listed twice, and the same list comes back |
| `Accuracy.Values` | trainer.js:166-168 | the pushed scores are the map's values, one per key, in key order |
| `Accuracy.MathMax` | trainer.js:169 | `Math.max` of no scores is `-Infinity`; otherwise it is one of the scores and no score exceeds it |
| `Accuracy.LastWithScore` | trainer.js:170-177 | the kept result is a property of the map scoring `best`; there is none exactly when no score equals `best` |
| `Accuracy.LastWithScoreAt` | trainer.js:170-177 | the label with score `best` that no later label matches is the one kept |
| `Accuracy.LastWithScoreIsLast` | trainer.js:170-177 | no label after the kept one scores `best` |
| `Accuracy.MostAccurate` | trainer.js:162-179 | the result is `{}` exactly for an empty map; otherwise it is a property of the map, keyword with its own score, and no score exceeds it |
| `Accuracy.GetMostAccurate` | trainer.js:162-179 | the two loops compute the last label holding the maximum score, or `{}` |
| `Accuracy.MostAccurateIsBest` | trainer.js:170-177 | reading the chosen keyword back from the map yields the chosen accuracy |
| `Accuracy.LastBestIsChosen` | trainer.js:169-177 | a label with the top score that no later label ties is the one chosen |
| `Accuracy.ChosenIsLastBest` | trainer.js:169-177 | the chosen label has the top score and every later label scores strictly less |
| `Accuracy.MostAccurateAt` | trainer.js:170-177 | label `j` is chosen exactly when it has the top score and every later label scores strictly less, so among tied labels the last one wins |
| `Accuracy.TieBreakExample` | trainer.js:170-177 | `{a: 0.9, b: 0.9, c: 0.2}` yields `b` with accuracy 0.9 |
| `Accuracy.TestVerdict` | trainer.js:189-194 | an empty answer fails; a passed test names a label of the answer with the top score |
| `Accuracy.TestVerdictPasses` | trainer.js:186-194 | a test passes exactly when the experiment's name is a label with the top score and no later label ties it |
| `Trainer.Concat` | trainer.js:133-136 | the concatenated pattern list is as long as all experiments' pattern lists together |
| `Trainer.ConcatAt` | trainer.js:133-136 | pattern `j` of experiment `e` sits right after the patterns of the experiments before `e` |
| `Trainer.ConcatMembers` | trainer.js:133-136 | a pattern is in the concatenation exactly when some experiment holds it |
| `Trainer.Reshaped` | trainer.js:121-124 | a sample of `n` readings becomes `n` channels; channel `i + 1` holds reading `i`, unchanged |
| `Trainer.ReshapedKeys` | trainer.js:121-124 | the channels of a reshaped sample are exactly `"1".."n"` |
| `Trainer.ReshapedUnique` | trainer.js:121-124 | the channel names of a reshaped sample are distinct |
| `Trainer.ReshapedGet` | trainer.js:121-124 | reading channel `i + 1` yields reading `i` exactly as sampled |
| `Trainer.ReshapedAlreadyNormal` | trainer.js:121-124 | the reshaped sample has only non-negative, unfiltered channels exactly when every reading is non-negative and no name `1..n` is filtered |
| `Trainer.LiveSampleSkipsNormalization` | trainer.js:120-125 | a live sample reaches the classifier as normalised training data would only when every reading is non-negative and no channel is filtered |
| `Trainer.ReshapedExample` | trainer.js:121-124 | the sample `[4, -2]` becomes `{"1": 4, "2": -2}`, which normalisation would change |
| `Trainer.ReshapeSample` | trainer.js:121-124 | the reshaping loop builds exactly the reshaped sample, and it has distinct keys |
| `Trainer.Reported` | trainer.js:126 | a label is logged exactly when the classifier's answer is non-empty, and it is a label of the answer with the top score |
| `Trainer.Interpret` | trainer.js:120-127 | the logged label is the one reported for the classifier's answer on the reshaped sample |
| `Trainer.Branches` | trainer.js:28-46 | a load error runs nothing; otherwise `exercise`, `test` and `interpret` each run their own branch, and any other action runs none; at most one branch runs |
| `Trainer.Session.constructor` | trainer.js:9-11 | a session starts with no experiment chosen and the given filter list |
| `Trainer.Session.GetPatternsFromExperiments` | trainer.js:132-138 | the result is the concatenation of every experiment's patterns in order, each of them normalised in place |
| `Trainer.Session.GetRandomPatternFromExperiments` | trainer.js:75-78 | the chosen experiment is recorded, and the chosen pattern is normalised in place inside that experiment and returned |
| `Trainer.Session.GetTestResults` | trainer.js:185-195 | the comparison of the computed most accurate keyword with the chosen experiment's name gives the verdict `TestVerdict` |
| `Trainer.Session.RunTest` | trainer.js:35-38 | the `test` action (with `test`, which runs the classifier and calls `getTestResults`) records the chosen experiment, normalises the chosen pattern in place, and judges the classifier's answer on that pattern's new input against the experiment's name |

## Left out

- File globbing, reading the experiment files and the network state, and writing the network state (`trainer.js:23-28, 40, 99, 108`) are I/O. The load error is the `loadFailed` flag of `Trainer.Branches`.
- brain.js, which builds, trains, serialises and runs the network (`trainer.js:41, 85-101, 109-111, 125`), is foreign code. The trained network's `run` is a function parameter. `Trainer.ObjectValued` assumes it always answers with an object, whose keys are distinct.
- The OpenBCI board (discovery, connection, the `ready` and `sample` events, start, stop, disconnect) and the timers (`trainer.js:17, 42-43, 50-69, 197-207`) are hardware callbacks and are left out. `Trainer.Interpret` handles one sample's `channelData`.
- `Math.random` (`trainer.js:76-77`) is not modelled. The two random draws are the index parameters of `Trainer.Session.GetRandomPatternFromExperiments`, bounded by the list lengths. The uniform distribution is not modelled.
- Trainer.Session.GetRandomPatternFromExperiments: requires non-empty lists. The source then throws a `TypeError` on `undefined`, and that error path is not modelled.
- Console logging is left out.
- IEEE floating point is left out: NaN scores, `-0`, infinite readings and rounding. Numbers are exact reals, and a score can never equal `-Infinity`.
- Trainer.Session.GetTestResults: an experiment name is always a string. With a file lacking `name` and an empty score map, the source compares `undefined === undefined` and reports a pass, and that case is not modelled.
- `channelsToFilter` is a module constant that the script's author edits (`trainer.js:11`). The model passes it to the `Session` constructor.
- Key order is taken as given. JavaScript lists integer-like keys such as `"1"` and `"2"` first, in ascending order, and the model does not re-sort keys. Reshaping only ever appends `"1".."n"` in ascending order, so it agrees with JavaScript there.
- Normalizer.FilterChannelsFromPatterns, Normalizer.Pattern.NormalizeInput, Trainer.Session.GetPatternsFromExperiments: require each pattern's input to have distinct keys. Every JavaScript object has them.
