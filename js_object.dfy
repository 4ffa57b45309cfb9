/**
 A JavaScript plain object as the trainer uses one: its own properties in
 `Object.keys` order, each key present at most once. A pattern's `input`, the
 reshaped live sample and the classifier's score map are all objects of this
 kind. Reading, assigning and deleting a property are modelled on that list.
 */
module JsObject {

  datatype Option<T> = None | Some(value: T)

  /** One own property of an object. */
  datatype Entry<V> = Entry(key: string, value: V)

  /** `k in obj`: some property of `s` has key `k`. */
  predicate HasKey<V>(s: seq<Entry<V>>, k: string)
  {
    s != [] && (s[|s| - 1].key == k || HasKey(s[..|s| - 1], k))
  }

  /** No key occurs twice, as in every JavaScript object. */
  predicate UniqueKeys<V>(s: seq<Entry<V>>)
  {
    s == [] || (UniqueKeys(s[..|s| - 1]) && !HasKey(s[..|s| - 1], s[|s| - 1].key))
  }

  /** `Object.keys(obj)`: the keys in property order, one per property. */
  function Keys<V>(s: seq<Entry<V>>): (keys: seq<string>)
    ensures |keys| == |s|
    ensures forall i :: 0 <= i < |s| ==> keys[i] == s[i].key
  {
    if s == [] then [] else Keys(s[..|s| - 1]) + [s[|s| - 1].key]
  }

  /** Where property `k` sits in `s` (its last occurrence), or -1 when `s` has no property `k`. */
  function Position<V>(s: seq<Entry<V>>, k: string): (r: int)
    ensures -1 <= r < |s|
    ensures r == -1 <==> !HasKey(s, k)
    ensures 0 <= r ==> s[r].key == k && !HasKey(s[r + 1..], k)
  {
    if s == [] then -1
    else if s[|s| - 1].key == k then |s| - 1
    else
      var r := Position(s[..|s| - 1], k);
      assert 0 <= r ==> s[r + 1..][..|s| - r - 2] == s[..|s| - 1][r + 1..];
      r
  }

  /** `obj[k]`: the value of property `k`, or `undefined` (None). */
  function Get<V>(s: seq<Entry<V>>, k: string): (r: Option<V>)
    ensures r.Some? <==> HasKey(s, k)
  {
    var i := Position(s, k);
    if i < 0 then None else Some(s[i].value)
  }

  /**
   `obj[k] = v`: an existing property keeps its place and a new one is added
   last. (JavaScript lists integer-like keys first in ascending order; the
   keys `"1".."n"` this script adds arrive in that order anyway.)
   */
  function Set<V>(s: seq<Entry<V>>, k: string, v: V): (r: seq<Entry<V>>)
    ensures !HasKey(s, k) ==> r == s + [Entry(k, v)]
  {
    var i := Position(s, k);
    if i < 0 then s + [Entry(k, v)] else s[i := Entry(k, v)]
  }

  /** `delete obj[k]`: drops property `k`, if present, and keeps the order of the rest. */
  function Delete<V>(s: seq<Entry<V>>, k: string): (r: seq<Entry<V>>)
    ensures !HasKey(s, k) ==> r == s
  {
    var i := Position(s, k);
    if i < 0 then s else s[..i] + s[i + 1..]
  }

  /** `HasKey` holds exactly when some index carries the key. */
  lemma {:induction false} HasKeyIff<V>(s: seq<Entry<V>>, k: string)
    ensures HasKey(s, k) <==> exists i :: 0 <= i < |s| && s[i].key == k
  {
    if s != [] {
      var init := s[..|s| - 1];
      HasKeyIff(init, k);
      assert forall i :: 0 <= i < |init| ==> init[i] == s[i];
    }
  }

  /** Two different properties of an object have different keys. */
  lemma {:induction false} UniqueKeysAt<V>(s: seq<Entry<V>>, i: int, j: int)
    requires UniqueKeys(s) && 0 <= i < j < |s|
    ensures s[i].key != s[j].key
  {
    var init := s[..|s| - 1];
    if j < |s| - 1 {
      UniqueKeysAt(init, i, j);
    } else {
      HasKeyIff(init, s[i].key);
      assert init[i] == s[i];
    }
  }

  /** In an object, the property at index `i` is what reading its key yields. */
  lemma GetAt<V>(s: seq<Entry<V>>, i: int)
    requires UniqueKeys(s) && 0 <= i < |s|
    ensures Get(s, s[i].key) == Some(s[i].value)
  {
    HasKeyIff(s, s[i].key);
    var p := Position(s, s[i].key);
    if p < i {
      UniqueKeysAt(s, p, i);
    } else if p > i {
      UniqueKeysAt(s, i, p);
    }
  }

  /** Reading a property of `s + [e]` looks at `e` first, then at `s`. */
  lemma GetSnoc<V>(s: seq<Entry<V>>, e: Entry<V>, k: string)
    ensures Get(s + [e], k) == if e.key == k then Some(e.value) else Get(s, k)
  {
    assert (s + [e])[..|s|] == s;
  }

  /**
   When property `e.key` sits between `a` and `b` and nowhere else, reading it
   yields `e.value`, assigning it replaces `e` in place and deleting it leaves
   `a + b`.
   */
  lemma UpdateBetween<V>(a: seq<Entry<V>>, e: Entry<V>, b: seq<Entry<V>>, v: V)
    requires !HasKey(a, e.key) && !HasKey(b, e.key)
    ensures Get(a + [e] + b, e.key) == Some(e.value)
    ensures Set(a + [e] + b, e.key, v) == a + [Entry(e.key, v)] + b
    ensures Delete(a + [e] + b, e.key) == a + b
  {
    var s := a + [e] + b;
    var k := e.key;
    assert s == (a + [e]) + b;
    PositionSkip(a + [e], b, k);
    SplitAround(a, e, b, Entry(k, v));
  }

  /** Properties after the last occurrence of `k` do not move it. */
  lemma {:induction false} PositionSkip<V>(s: seq<Entry<V>>, t: seq<Entry<V>>, k: string)
    requires !HasKey(t, k)
    ensures Position(s + t, k) == Position(s, k)
  {
    if t == [] {
      assert s + t == s;
    } else {
      var init := t[..|t| - 1];
      assert (s + t)[..|s + t| - 1] == s + init;
      PositionSkip(s, init, k);
    }
  }

  /** The pieces around position `|a|` of `a + [x] + b`, and what replacing `x` gives. */
  lemma SplitAround<T>(a: seq<T>, x: T, b: seq<T>, y: T)
    ensures (a + [x] + b)[|a|] == x
    ensures (a + [x] + b)[..|a|] == a && (a + [x] + b)[|a| + 1..] == b
    ensures (a + [x] + b)[|a| := y] == a + [y] + b
  {
  }

  /** The key at index `i` of an object occurs neither before nor after it. */
  lemma UniqueKeysAround<V>(s: seq<Entry<V>>, i: int)
    requires UniqueKeys(s) && 0 <= i < |s|
    ensures !HasKey(s[..i], s[i].key) && !HasKey(s[i + 1..], s[i].key)
  {
    var before, after := s[..i], s[i + 1..];
    forall j | 0 <= j < |before| ensures before[j].key != s[i].key {
      UniqueKeysAt(s, j, i);
    }
    forall j | 0 <= j < |after| ensures after[j].key != s[i].key {
      assert after[j] == s[i + 1 + j];
      UniqueKeysAt(s, i, i + 1 + j);
    }
    HasKeyIff(before, s[i].key);
    HasKeyIff(after, s[i].key);
  }

  /** Adding a property whose key is new keeps the keys distinct. */
  lemma UniqueKeysSnoc<V>(s: seq<Entry<V>>, e: Entry<V>)
    requires UniqueKeys(s) && !HasKey(s, e.key)
    ensures UniqueKeys(s + [e])
  {
    assert (s + [e])[..|s|] == s;
  }

  /** Growing a prefix by one element appends that element. */
  lemma PrefixSnoc<T>(s: seq<T>, i: int)
    requires 0 <= i < |s|
    ensures s[..i + 1] == s[..i] + [s[i]]
  {
  }

  /** A suffix starting at `i` is `s[i]` followed by the suffix starting at `i + 1`. */
  lemma SuffixCons<T>(s: seq<T>, i: int)
    requires 0 <= i < |s|
    ensures s[i..] == [s[i]] + s[i + 1..]
  {
  }
}
