/** Sequence helpers that stand for the JavaScript array methods the dashboard
    and the login screen use: `find`/`findIndex` (FindFirst), `filter` (Filter),
    de-duplication through a `Set` (Distinct), and the sums that `reduce` builds. */
module Basics {

  datatype Option<T> = None | Some(value: T)

  /** `Array.prototype.find`: the index of the first element satisfying `p`, if any. */
  function FindFirst<T>(s: seq<T>, p: T -> bool): (r: Option<nat>)
    ensures r.Some? ==> r.value < |s| && p(s[r.value])
    ensures r.Some? ==> forall j :: 0 <= j < r.value ==> !p(s[j])
    ensures r.None? ==> forall j :: 0 <= j < |s| ==> !p(s[j])
  {
    if s == [] then None
    else if p(s[0]) then Some(0)
    else
      match FindFirst(s[1..], p)
      case None => None
      case Some(k) => Some(k + 1)
  }

  /** `r` is obtained from `s` by deleting elements, keeping the order of the rest. */
  ghost predicate IsSubsequence<T>(r: seq<T>, s: seq<T>)
    decreases |s|
  {
    if r == [] then true
    else if s == [] then false
    else (r[0] == s[0] && IsSubsequence(r[1..], s[1..])) || IsSubsequence(r, s[1..])
  }

  /** `Array.prototype.filter`: the elements of `s` satisfying `p`, in order, each
      as often as it occurs in `s`. */
  function Filter<T(!new)>(s: seq<T>, p: T -> bool): (r: seq<T>)
    ensures |r| <= |s| && IsSubsequence(r, s)
    ensures forall x :: x in r <==> x in s && p(x)
    ensures forall x :: multiset(r)[x] == if p(x) then multiset(s)[x] else 0
  {
    if s == [] then []
    else
      var rest := Filter(s[1..], p);
      assert s == [s[0]] + s[1..];
      if p(s[0]) then [s[0]] + rest else rest
  }

  /** Filtering twice is filtering once by the conjunction. */
  lemma {:induction false} FilterFilter<T(!new)>(s: seq<T>, p: T -> bool, q: T -> bool, pq: T -> bool)
    requires forall x :: pq(x) == (p(x) && q(x))
    ensures Filter(Filter(s, p), q) == Filter(s, pq)
  {
    if s != [] {
      FilterFilter(s[1..], p, q, pq);
    }
  }

  /** Filtering by two predicates that agree on every element gives the same result. */
  lemma {:induction false} FilterSame<T(!new)>(s: seq<T>, p: T -> bool, q: T -> bool)
    requires forall x :: x in s ==> p(x) == q(x)
    ensures Filter(s, p) == Filter(s, q)
  {
    if s != [] {
      FilterSame(s[1..], p, q);
    }
  }

  /** A predicate that holds everywhere on `s` keeps all of `s`. */
  lemma {:induction false} FilterKeepsAll<T(!new)>(s: seq<T>, p: T -> bool)
    requires forall x :: x in s ==> p(x)
    ensures Filter(s, p) == s
  {
    if s != [] {
      FilterKeepsAll(s[1..], p);
    }
  }

  ghost predicate NoDuplicates<T>(s: seq<T>) {
    forall i, j :: 0 <= i < j < |s| ==> s[i] != s[j]
  }

  /** `Array.from(new Set(s))`: the distinct elements of `s` in first-seen order. */
  function Distinct<T(==,!new)>(s: seq<T>): (r: seq<T>)
    ensures NoDuplicates(r)
    ensures forall x :: x in r <==> x in s
  {
    if s == [] then []
    else
      var prev := Distinct(s[..|s| - 1]);
      assert forall x :: x in s <==> x in s[..|s| - 1] || x == s[|s| - 1] by {
        assert s == s[..|s| - 1] + [s[|s| - 1]];
      }
      if s[|s| - 1] in prev then prev else prev + [s[|s| - 1]]
  }

  /** The sum of `f` over the elements of `s`, as the dashboard's reductions add up a column. */
  function SumSeq<T>(s: seq<T>, f: T -> int): int {
    if s == [] then 0 else SumSeq(s[..|s| - 1], f) + f(s[|s| - 1])
  }

  lemma {:induction false} SumSeqCons<T>(x: T, s: seq<T>, f: T -> int)
    ensures SumSeq([x] + s, f) == f(x) + SumSeq(s, f)
  {
    if s != [] {
      assert ([x] + s)[..|s|] == [x] + s[..|s| - 1];
      SumSeqCons(x, s[..|s| - 1], f);
    }
  }

  /** Replacing one element changes the sum by the difference of the two values. */
  lemma {:induction false} SumSeqUpdate<T>(s: seq<T>, i: nat, v: T, f: T -> int)
    requires i < |s|
    ensures SumSeq(s[i := v], f) == SumSeq(s, f) - f(s[i]) + f(v)
  {
    var n := |s| - 1;
    if i < n {
      assert s[i := v][..n] == s[..n][i := v];
      SumSeqUpdate(s[..n], i, v, f);
    } else {
      assert s[i := v][..n] == s[..n];
    }
  }

  /** Two sequences whose elements agree pointwise under `f` and `g` have equal sums. */
  lemma {:induction false} SumSeqPointwise<T, U>(s: seq<T>, f: T -> int, t: seq<U>, g: U -> int)
    requires |s| == |t|
    requires forall i :: 0 <= i < |s| ==> f(s[i]) == g(t[i])
    ensures SumSeq(s, f) == SumSeq(t, g)
  {
    if s != [] {
      SumSeqPointwise(s[..|s| - 1], f, t[..|t| - 1], g);
    }
  }

  /** The values a key-ordered dictionary yields, like `Object.values` on an object
      whose keys were inserted in the order `keys`. */
  function Values<T>(keys: seq<string>, m: map<string, T>): (r: seq<T>)
    requires forall k :: k in keys ==> k in m
    ensures |r| == |keys| && forall i :: 0 <= i < |keys| ==> r[i] == m[keys[i]]
  {
    seq(|keys|, i requires 0 <= i < |keys| => m[keys[i]])
  }

  /** `keys` lists the dictionary `m`: each key once, and exactly the keys of
      `m`. The order itself is stated apart, by `FirstSeenKeys`, where it
      matters. */
  ghost predicate KeyOrder<T>(keys: seq<string>, m: map<string, T>) {
    NoDuplicates(keys) && forall c :: c in keys <==> c in m
  }

  /** The keys of the elements of `s`, each once, in the order of their first
      occurrence: the order in which an object or a `Map` that is given the
      elements of `s` one after another lists its string keys. */
  function FirstSeenKeys<T>(s: seq<T>, key: T -> string): seq<string> {
    if s == [] then []
    else
      var seen := FirstSeenKeys(s[..|s| - 1], key);
      if key(s[|s| - 1]) in seen then seen else seen + [key(s[|s| - 1])]
  }

  /** One more element appends its key, unless the key was seen before. */
  lemma FirstSeenKeysSnoc<T>(s: seq<T>, i: nat, key: T -> string)
    requires i < |s|
    ensures FirstSeenKeys(s[..i + 1], key)
              == if key(s[i]) in FirstSeenKeys(s[..i], key) then FirstSeenKeys(s[..i], key)
                 else FirstSeenKeys(s[..i], key) + [key(s[i])]
  {
    assert s[..i + 1][..i] == s[..i];
  }

  /** The first-seen keys are distinct and are exactly the keys of the elements. */
  lemma {:induction false} FirstSeenKeysMembers<T>(s: seq<T>, key: T -> string)
    ensures NoDuplicates(FirstSeenKeys(s, key))
    ensures forall x :: x in FirstSeenKeys(s, key) <==> exists i :: 0 <= i < |s| && key(s[i]) == x
  {
    if s != [] {
      var pre := s[..|s| - 1];
      FirstSeenKeysMembers(pre, key);
      forall x ensures x in FirstSeenKeys(s, key) <==> exists i :: 0 <= i < |s| && key(s[i]) == x {
        if i :| 0 <= i < |pre| && key(pre[i]) == x {
          assert key(s[i]) == x;
        }
        if i :| 0 <= i < |s| && key(s[i]) == x {
          if i < |pre| {
            assert key(pre[i]) == x;
          }
        }
      }
    }
  }

  /** A key seen for the first time is added at the end of the dictionary's order. */
  lemma ValuesInsert<T>(keys: seq<string>, m: map<string, T>, k: string, v: T)
    requires forall x :: x in keys ==> x in m
    requires k !in keys
    ensures Values(keys + [k], m[k := v]) == Values(keys, m) + [v]
  {
  }

  /** Overwriting the value of a key already present leaves its position unchanged. */
  lemma ValuesUpdate<T>(keys: seq<string>, m: map<string, T>, i: nat, v: T)
    requires forall x :: x in keys ==> x in m
    requires NoDuplicates(keys) && i < |keys|
    ensures Values(keys, m[keys[i] := v]) == Values(keys, m)[i := v]
  {
  }

  /** Extending a sequence by one element adds that element's value to the sum. */
  lemma SumSeqSnoc<T>(s: seq<T>, i: nat, f: T -> int)
    requires i < |s|
    ensures SumSeq(s[..i + 1], f) == SumSeq(s[..i], f) + f(s[i])
  {
    assert s[..i + 1][..i] == s[..i];
  }

  /** Creating the accumulator of a key not yet in the dictionary: the key is
      appended to the insertion order and the sum of `f` over the values grows by
      `f(zero)`. */
  lemma InsertKey<T>(keys: seq<string>, m: map<string, T>, key: string, zero: T, f: T -> int)
    requires NoDuplicates(keys) && forall c :: c in keys <==> c in m
    requires key !in m
    ensures NoDuplicates(keys + [key])
    ensures forall c :: c in keys + [key] <==> c in m[key := zero]
    ensures SumSeq(Values(keys + [key], m[key := zero]), f) == SumSeq(Values(keys, m), f) + f(zero)
  {
    ValuesInsert(keys, m, key, zero);
    var s := Values(keys, m) + [zero];
    assert s[..|s| - 1] == Values(keys, m);
  }

  /** Overwriting the accumulator of a key already present: the order is unchanged and the sum
      of `f` over the values changes by the difference of the new and old value. */
  lemma UpdateKey<T>(keys: seq<string>, m: map<string, T>, key: string, v: T, f: T -> int)
    requires NoDuplicates(keys) && forall c :: c in keys <==> c in m
    requires key in m
    ensures forall c :: c in keys <==> c in m[key := v]
    ensures SumSeq(Values(keys, m[key := v]), f) == SumSeq(Values(keys, m), f) - f(m[key]) + f(v)
  {
    var j :| 0 <= j < |keys| && keys[j] == key;
    ValuesUpdate(keys, m, j, v);
    SumSeqUpdate(Values(keys, m), j, v, f);
  }
}
