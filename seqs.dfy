/**
 * The array operations the core is built from: `Array.prototype.filter`,
 * `Array.prototype.find`, and a chain `s.find(t0) || s.find(t1) || ...` of finds
 * tried in order.
 */
module Seqs {
  import opened Wrappers

  /** `r` is `s` with some elements dropped and the rest kept in order. */
  ghost predicate IsSubsequence<T>(r: seq<T>, s: seq<T>)
    decreases |s|
  {
    if |r| == 0 then true
    else if |s| == 0 then false
    else (r[0] == s[0] && IsSubsequence(r[1..], s[1..])) || IsSubsequence(r, s[1..])
  }

  /** `s.filter(p)`: exactly the elements satisfying `p`, in their original order. */
  function Filter<T>(s: seq<T>, p: T -> bool): (r: seq<T>)
    ensures |r| <= |s|
    ensures forall i :: 0 <= i < |r| ==> p(r[i]) && r[i] in s
    ensures forall i :: 0 <= i < |s| && p(s[i]) ==> s[i] in r
    ensures IsSubsequence(r, s)
    ensures forall x :: x in s ==> multiset(r)[x] == if p(x) then multiset(s)[x] else 0
    decreases |s|
  {
    if |s| == 0 then []
    else
      var rest := Filter(s[1..], p);
      FilterStep(s, p, rest);
      if p(s[0]) then [s[0]] + rest else rest
  }

  /** `Filter`'s contract carries over from a filtered tail `rest` of `s[1..]` to the
      result of keeping or dropping the head `s[0]`. */
  lemma FilterStep<T>(s: seq<T>, p: T -> bool, rest: seq<T>)
    requires |s| > 0
    requires |rest| <= |s[1..]|
    requires forall i :: 0 <= i < |rest| ==> p(rest[i]) && rest[i] in s[1..]
    requires forall i :: 0 <= i < |s[1..]| && p(s[1..][i]) ==> s[1..][i] in rest
    requires IsSubsequence(rest, s[1..])
    requires forall x :: x in s[1..] ==> multiset(rest)[x] == if p(x) then multiset(s[1..])[x] else 0
    ensures var r := if p(s[0]) then [s[0]] + rest else rest;
            && |r| <= |s|
            && (forall i :: 0 <= i < |r| ==> p(r[i]) && r[i] in s)
            && (forall i :: 0 <= i < |s| && p(s[i]) ==> s[i] in r)
            && IsSubsequence(r, s)
            && forall x :: x in s ==> multiset(r)[x] == if p(x) then multiset(s)[x] else 0
  {
    var h, t := s[0], s[1..];
    assert s == [h] + t;
    var r := if p(h) then [h] + rest else rest;
    if p(h) {
      assert r[1..] == rest;
    }
    forall i | 0 <= i < |s| && p(s[i])
      ensures s[i] in r
    {
      if i > 0 {
        assert s[i] == t[i - 1];
      }
    }
    FilterCountStep(h, t, p, rest);
  }

  /** One step of `Filter`'s element count: keeping or dropping the head `h` in front of
      a filtered tail. */
  lemma FilterCountStep<T>(h: T, t: seq<T>, p: T -> bool, rest: seq<T>)
    requires forall i :: 0 <= i < |rest| ==> rest[i] in t
    requires forall x :: x in t ==> multiset(rest)[x] == if p(x) then multiset(t)[x] else 0
    ensures forall x :: x in [h] + t ==>
              multiset(if p(h) then [h] + rest else rest)[x] == if p(x) then multiset([h] + t)[x] else 0
  {
    var r := if p(h) then [h] + rest else rest;
    assert multiset([h] + t) == multiset([h]) + multiset(t);
    assert multiset(r) == if p(h) then multiset([h]) + multiset(rest) else multiset(rest);
    forall x | x in [h] + t
      ensures multiset(r)[x] == if p(x) then multiset([h] + t)[x] else 0
    {
      if x !in t {
        assert x !in rest;
      }
    }
  }

  /** Filtering distributes over concatenation. */
  lemma {:induction false} FilterAppend<T>(a: seq<T>, b: seq<T>, p: T -> bool)
    ensures Filter(a + b, p) == Filter(a, p) + Filter(b, p)
    decreases |a|
  {
    if |a| == 0 {
      assert a + b == b;
    } else {
      assert (a + b)[1..] == a[1..] + b;
      FilterAppend(a[1..], b, p);
    }
  }

  /** A test every element passes keeps the whole sequence. */
  lemma {:induction false} FilterAll<T>(s: seq<T>, p: T -> bool)
    requires forall i :: 0 <= i < |s| ==> p(s[i])
    ensures Filter(s, p) == s
    decreases |s|
  {
    if |s| > 0 {
      FilterAll(s[1..], p);
    }
  }

  /** Two tests that agree on every element filter alike. */
  lemma {:induction false} FilterSameTest<T>(s: seq<T>, p: T -> bool, q: T -> bool)
    requires forall i :: 0 <= i < |s| ==> p(s[i]) == q(s[i])
    ensures Filter(s, p) == Filter(s, q)
    decreases |s|
  {
    if |s| > 0 {
      assert forall i :: 0 <= i < |s[1..]| ==> s[1..][i] == s[i + 1];
      FilterSameTest(s[1..], p, q);
    }
  }

  /** A test no element passes keeps nothing. */
  lemma {:induction false} FilterNone<T>(s: seq<T>, p: T -> bool)
    requires forall i :: 0 <= i < |s| ==> !p(s[i])
    ensures Filter(s, p) == []
    decreases |s|
  {
    if |s| > 0 {
      FilterNone(s[1..], p);
    }
  }

  /** The index of the first element of `s` satisfying `p` (`Array.prototype.findIndex`). */
  function FirstIndex<T>(s: seq<T>, p: T -> bool): (r: Option<nat>)
    ensures r.Some? ==> r.value < |s| && p(s[r.value])
    ensures r.Some? ==> forall j :: 0 <= j < r.value ==> !p(s[j])
    ensures r.None? ==> forall j :: 0 <= j < |s| ==> !p(s[j])
    decreases |s|
  {
    if |s| == 0 then None
    else if p(s[0]) then Some(0)
    else match FirstIndex(s[1..], p)
      case None => None
      case Some(i) => Some(i + 1)
  }

  /** `s.find(p)`: the first element satisfying `p`, if any. */
  function Find<T>(s: seq<T>, p: T -> bool): (r: Option<T>)
    ensures r.None? <==> forall j :: 0 <= j < |s| ==> !p(s[j])
    ensures r.Some? ==> exists i :: FirstAt(s, p, i) && r.value == s[i]
  {
    match FirstIndex(s, p)
    case None => None
    case Some(i) => assert FirstAt(s, p, i); Some(s[i])
  }

  /** `i` is the first index of `s` whose element satisfies `p`. */
  ghost predicate FirstAt<T>(s: seq<T>, p: T -> bool, i: int) {
    0 <= i < |s| && p(s[i]) && forall j :: 0 <= j < i ==> !p(s[j])
  }

  /** No test in `tests` holds of any element of `s`. */
  ghost predicate NoneHolds<T>(s: seq<T>, tests: seq<T -> bool>) {
    forall k, i :: 0 <= k < |tests| && 0 <= i < |s| ==> !tests[k](s[i])
  }

  /** Test `k` is the first test that holds of some element, and `i` is the first
      element it holds of. */
  ghost predicate FirstHit<T>(s: seq<T>, tests: seq<T -> bool>, k: int, i: int) {
    && 0 <= k < |tests|
    && NoneHolds(s, tests[..k])
    && FirstAt(s, tests[k], i)
  }

  /** `s.find(tests[0]) || s.find(tests[1]) || ...`: the tests are tried in order and
      the first one that holds of some element yields the first such element. */
  function Cascade<T>(s: seq<T>, tests: seq<T -> bool>): (r: Option<T>)
    ensures r.None? <==> NoneHolds(s, tests)
    ensures r.Some? ==> exists k, i :: FirstHit(s, tests, k, i) && r.value == s[i]
    decreases |tests|
  {
    if |tests| == 0 then None
    else
      var hit := Find(s, tests[0]);
      if hit.Some? then
        CascadeHead(s, tests, hit);
        hit
      else
        var r := Cascade(s, tests[1..]);
        CascadeStep(s, tests, r);
        r
  }

  /** A hit of the first test is the cascade's first hit. */
  lemma CascadeHead<T>(s: seq<T>, tests: seq<T -> bool>, hit: Option<T>)
    requires |tests| > 0
    requires hit.Some? && exists i :: FirstAt(s, tests[0], i) && hit.value == s[i]
    ensures !NoneHolds(s, tests)
    ensures exists k, i :: FirstHit(s, tests, k, i) && hit.value == s[i]
  {
    var i :| FirstAt(s, tests[0], i) && hit.value == s[i];
    assert NoneHolds(s, tests[..0]);
    assert FirstHit(s, tests, 0, i);
  }

  /** A cascade whose first test holds of nothing behaves like the cascade of the rest. */
  lemma CascadeStep<T>(s: seq<T>, tests: seq<T -> bool>, r: Option<T>)
    requires |tests| > 0
    requires forall j :: 0 <= j < |s| ==> !tests[0](s[j])
    requires r.None? <==> NoneHolds(s, tests[1..])
    requires r.Some? ==> exists k, i :: FirstHit(s, tests[1..], k, i) && r.value == s[i]
    ensures r.None? <==> NoneHolds(s, tests)
    ensures r.Some? ==> exists k, i :: FirstHit(s, tests, k, i) && r.value == s[i]
  {
    if r.Some? {
      var k, i :| FirstHit(s, tests[1..], k, i) && r.value == s[i];
      assert tests[1..][..k] == tests[1..k + 1];
      assert FirstHit(s, tests, k + 1, i);
    } else {
      forall k, i | 0 <= k < |tests| && 0 <= i < |s| ensures !tests[k](s[i]) {
        if k > 0 { assert tests[k] == tests[1..][k - 1]; }
      }
    }
  }

  /** `Find` returns the element at the first index satisfying `p`. */
  lemma FindFirstAt<T>(s: seq<T>, p: T -> bool, i: nat)
    requires FirstAt(s, p, i)
    ensures Find(s, p) == Some(s[i])
  {
    var r := FirstIndex(s, p);
    assert r.Some?;
  }

  /** When the first test holds of some element, the cascade stops there. */
  lemma CascadeFirst<T>(s: seq<T>, tests: seq<T -> bool>, i: nat)
    requires |tests| > 0 && FirstAt(s, tests[0], i)
    ensures Cascade(s, tests) == Some(s[i])
  {
    FindFirstAt(s, tests[0], i);
  }

  /** When the first test holds of nothing, the cascade goes on with the remaining tests. */
  lemma CascadeSkip<T>(s: seq<T>, tests: seq<T -> bool>)
    requires |tests| > 0 && forall j :: 0 <= j < |s| ==> !tests[0](s[j])
    ensures Cascade(s, tests) == Cascade(s, tests[1..])
  {
  }

  /** No test of a four-test cascade holds, spelled out test by test. */
  lemma NoneHoldsOfFour<T>(s: seq<T>, tests: seq<T -> bool>)
    requires |tests| == 4
    ensures NoneHolds(s, tests) <==>
              forall i :: 0 <= i < |s| ==>
                !tests[0](s[i]) && !tests[1](s[i]) && !tests[2](s[i]) && !tests[3](s[i])
  {
    if forall i :: 0 <= i < |s| ==> !tests[0](s[i]) && !tests[1](s[i]) && !tests[2](s[i]) && !tests[3](s[i]) {
      forall k, i | 0 <= k < |tests| && 0 <= i < |s| ensures !tests[k](s[i]) {
        assert k == 0 || k == 1 || k == 2 || k == 3;
      }
    }
  }

  /** No test of a five-test cascade holds, spelled out test by test. */
  lemma NoneHoldsOfFive<T>(s: seq<T>, tests: seq<T -> bool>)
    requires |tests| == 5
    ensures NoneHolds(s, tests) <==>
              forall i :: 0 <= i < |s| ==>
                !tests[0](s[i]) && !tests[1](s[i]) && !tests[2](s[i]) && !tests[3](s[i]) && !tests[4](s[i])
  {
    if forall i :: 0 <= i < |s| ==>
         !tests[0](s[i]) && !tests[1](s[i]) && !tests[2](s[i]) && !tests[3](s[i]) && !tests[4](s[i]) {
      forall k, i | 0 <= k < |tests| && 0 <= i < |s| ensures !tests[k](s[i]) {
        assert k == 0 || k == 1 || k == 2 || k == 3 || k == 4;
      }
    }
  }
}
