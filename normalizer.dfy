/**
 The pattern normaliser (`filterChannelsFromPatterns`): every channel reading of
 every pattern is replaced by its absolute value and every channel named in the
 filter list is deleted, in place.
 */
module Normalizer {
  import opened JsObject

  /** A pattern's `input`: channel id to reading. */
  type ChannelMap = seq<Entry<real>>

  /** `Math.abs` */
  function Abs(x: real): (r: real)
    ensures r >= 0.0 && (r == x || r == -x)
  {
    if x < 0.0 then -x else x
  }

  /** What normalisation does to a single reading: `undefined` stays `undefined`. */
  function AbsOf(v: Option<real>): Option<real>
  {
    if v.Some? then Some(Abs(v.value)) else None
  }

  /**
   The input a pattern holds once normalised: the channels outside `channels`,
   in their original order, each with the absolute value of its reading.
   */
  function Normalized(input: ChannelMap, channels: seq<string>): (r: ChannelMap)
    ensures |r| <= |input|
    ensures forall i :: 0 <= i < |r| ==> r[i].value >= 0.0 && r[i].key !in channels
  {
    if input == [] then []
    else
      var last := input[|input| - 1];
      Normalized(input[..|input| - 1], channels)
        + (if last.key in channels then [] else [Entry(last.key, Abs(last.value))])
  }

  /**
   Reading any channel after normalisation: a filtered channel is gone, any
   other channel has the absolute value of its old reading, and no channel
   appears that was not there before.
   */
  lemma {:induction false} NormalizedGet(input: ChannelMap, channels: seq<string>, k: string)
    ensures Get(Normalized(input, channels), k) == if k in channels then None else AbsOf(Get(input, k))
  {
    if input != [] {
      var init, last := input[..|input| - 1], input[|input| - 1];
      assert input == init + [last];
      NormalizedGet(init, channels, k);
      GetSnoc(init, last, k);
      if last.key !in channels {
        GetSnoc(Normalized(init, channels), Entry(last.key, Abs(last.value)), k);
      } else {
        assert Normalized(input, channels) == Normalized(init, channels);
      }
    }
  }

  /** Normalisation keeps the keys of an object distinct. */
  lemma {:induction false} NormalizedUnique(input: ChannelMap, channels: seq<string>)
    requires UniqueKeys(input)
    ensures UniqueKeys(Normalized(input, channels))
  {
    if input != [] {
      var init, last := input[..|input| - 1], input[|input| - 1];
      NormalizedUnique(init, channels);
      assert input[..|input| - 1] == init;
      if last.key !in channels {
        NormalizedGet(init, channels, last.key);
        UniqueKeysSnoc(Normalized(init, channels), Entry(last.key, Abs(last.value)));
      } else {
        assert Normalized(input, channels) == Normalized(init, channels);
      }
    }
  }

  /** Normalising a normalised input changes nothing more. */
  lemma {:induction false} NormalizedIdempotent(input: ChannelMap, channels: seq<string>)
    ensures Normalized(Normalized(input, channels), channels) == Normalized(input, channels)
  {
    if input != [] {
      var init, last := input[..|input| - 1], input[|input| - 1];
      var done := Normalized(init, channels);
      NormalizedIdempotent(init, channels);
      if last.key !in channels {
        var e := Entry(last.key, Abs(last.value));
        assert Normalized(input, channels) == done + [e];
        assert (done + [e])[..|done|] == done;
        assert Normalized(done + [e], channels) == Normalized(done, channels) + [Entry(e.key, Abs(e.value))];
      } else {
        assert Normalized(input, channels) == done;
      }
    }
  }

  lemma NormalizedSnoc(init: ChannelMap, e: Entry<real>, channels: seq<string>)
    ensures Normalized(init + [e], channels)
         == Normalized(init, channels) + if e.key in channels then [] else [Entry(e.key, Abs(e.value))]
  {
    assert (init + [e])[..|init|] == init;
  }

  /**
   Reading, assigning and deleting key `original[i].key` when the input is the
   normalised prefix, then property `original[i]`, then the untouched rest:
   each acts on that one property.
   */
  lemma UpdateAtStep(original: ChannelMap, channels: seq<string>, i: int)
    requires UniqueKeys(original) && 0 <= i < |original|
    ensures var done, e, rest := Normalized(original[..i], channels), original[i], original[i + 1..];
      var a := Abs(e.value);
      && Get(done + [e] + rest, e.key) == Some(e.value)
      && Set(done + [e] + rest, e.key, a) == done + [Entry(e.key, a)] + rest
      && Delete(done + [Entry(e.key, a)] + rest, e.key) == done + rest
  {
    var done, e, rest := Normalized(original[..i], channels), original[i], original[i + 1..];
    var a := Abs(e.value);
    UniqueKeysAround(original, i);
    NormalizedGet(original[..i], channels, e.key);
    assert !HasKey(done, e.key);
    UpdateBetween(done, e, rest, a);
    UpdateBetween(done, Entry(e.key, a), rest, a);
  }

  /**
   One step of the walk over a snapshot of the keys: with the first `i` keys
   done, overwriting key `i` with its absolute value and deleting it when it is
   filtered leaves the first `i + 1` keys done.
   */
  lemma NormalizeStep(original: ChannelMap, channels: seq<string>, i: int, input: ChannelMap)
    requires UniqueKeys(original) && 0 <= i < |original|
    requires input == Normalized(original[..i], channels) + original[i..]
    ensures Get(input, original[i].key) == Some(original[i].value)
    ensures var k := original[i].key;
      var written := Set(input, k, Abs(Get(input, k).value));
      (if k in channels then Delete(written, k) else written)
        == Normalized(original[..i + 1], channels) + original[i + 1..]
  {
    var done, e, rest := Normalized(original[..i], channels), original[i], original[i + 1..];
    var k, a := e.key, Abs(e.value);
    assert input == done + [e] + rest by {
      SuffixCons(original, i);
    }
    assert && Get(input, k) == Some(e.value)
           && Set(input, k, a) == done + [Entry(k, a)] + rest
           && Delete(done + [Entry(k, a)] + rest, k) == done + rest
    by {
      UpdateAtStep(original, channels, i);
    }
    assert Normalized(original[..i + 1], channels) == done + if k in channels then [] else [Entry(k, a)] by {
      PrefixSnoc(original, i);
      NormalizedSnoc(original[..i], e, channels);
    }
    var written := Set(input, k, Abs(Get(input, k).value));
    assert written == done + [Entry(k, a)] + rest;
    if k in channels {
      assert Normalized(original[..i + 1], channels) == done;
      assert Delete(written, k) == done + rest;
    } else {
      assert Normalized(original[..i + 1], channels) + rest == done + [Entry(k, a)] + rest;
    }
  }

  /** Every reading is non-negative and no channel is on the filter list. */
  predicate AlreadyNormal(input: ChannelMap, channels: seq<string>)
  {
    forall i :: 0 <= i < |input| ==> input[i].value >= 0.0 && input[i].key !in channels
  }

  /**
   An input is left as it is exactly when all its readings are non-negative and
   none of its channels is filtered.
   */
  lemma {:induction false} NormalizedFixpoint(input: ChannelMap, channels: seq<string>)
    ensures Normalized(input, channels) == input <==> AlreadyNormal(input, channels)
  {
    if input != [] {
      var init, last := input[..|input| - 1], input[|input| - 1];
      NormalizedFixpoint(init, channels);
      if AlreadyNormal(input, channels) {
        assert forall i :: 0 <= i < |init| ==> init[i] == input[i];
        assert input == init + [last];
      }
    }
  }

  /**
   A pattern met again later in the list holds either its original input or
   that input normalised; either way its keys are distinct.
   */
  lemma UniqueAfterNormalizing(before: ChannelMap, current: ChannelMap, channels: seq<string>, seen: bool)
    requires UniqueKeys(before)
    requires current == if seen then Normalized(before, channels) else before
    ensures UniqueKeys(current)
  {
    if seen {
      NormalizedUnique(before, channels);
    }
  }

  /** One recorded pattern; its `input` is rewritten in place by normalisation. */
  class Pattern {
    var input: ChannelMap

    ghost predicate Valid()
      reads this
    {
      UniqueKeys(input)
    }

    /**
     The inner loop of `filterChannelsFromPatterns` for one pattern: walk a
     snapshot of the keys, overwrite each reading with its absolute value and
     delete the key when it is filtered.
     */
    method NormalizeInput(channels: seq<string>)
      requires Valid()
      modifies this
      ensures Valid()
      ensures input == Normalized(old(input), channels)
    {
      ghost var original := input;
      var keys := Keys(input);
      var i := 0;
      assert input == Normalized(original[..i], channels) + original[i..] by {
        assert original[..i] == [] && original[i..] == original;
      }
      while i < |keys|
        invariant 0 <= i <= |keys| == |original|
        invariant forall j :: 0 <= j < |keys| ==> keys[j] == original[j].key
        invariant input == Normalized(original[..i], channels) + original[i..]
      {
        var channel := keys[i];
        NormalizeStep(original, channels, i, input);
        input := Set(input, channel, Abs(Get(input, channel).value));
        if channel in channels {
          input := Delete(input, channel);
        }
        i := i + 1;
      }
      assert input == Normalized(original, channels) by {
        assert original[..|original|] == original;
        assert original[|original|..] == [];
      }
      NormalizedUnique(original, channels);
    }
  }

  /** Growing a prefix by one element adds exactly that element. */
  lemma PrefixMembers<T>(s: seq<T>, i: int)
    requires 0 <= i < |s|
    ensures forall x :: x in s[..i + 1] <==> x in s[..i] || x == s[i]
  {
    assert s[..i + 1] == s[..i] + [s[i]];
  }

  /**
   `filterChannelsFromPatterns`: normalise every pattern in place and hand back
   the same list. A pattern object listed twice is normalised twice, which
   leaves it as after once.
   */
  method FilterChannelsFromPatterns(patterns: seq<Pattern>, channels: seq<string>) returns (result: seq<Pattern>)
    requires forall p :: p in patterns ==> p.Valid()
    modifies set p | p in patterns
    ensures result == patterns
    ensures forall p :: p in patterns ==> p.Valid() && p.input == Normalized(old(p.input), channels)
  {
    var i := 0;
    while i < |patterns|
      invariant 0 <= i <= |patterns|
      invariant forall p :: p in patterns ==>
        p.input == if p in patterns[..i] then Normalized(old(p.input), channels) else old(p.input)
    {
      var pattern := patterns[i];
      UniqueAfterNormalizing(old(pattern.input), pattern.input, channels, pattern in patterns[..i]);
      NormalizedIdempotent(old(pattern.input), channels);
      pattern.NormalizeInput(channels);
      PrefixMembers(patterns, i);
      i := i + 1;
    }
    assert patterns[..|patterns|] == patterns;
    forall p | p in patterns ensures p.Valid() {
      NormalizedUnique(old(p.input), channels);
    }
    result := patterns;
  }
}
