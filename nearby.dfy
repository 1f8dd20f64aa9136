/**
 * Ordering nearby content by distance (src/screens/LiveScreen.tsx, the `sort`
 * calls of the pin and tip pipelines). Distances are opaque numbers supplied by
 * the caller; a missing distance is `null`. `Array.prototype.sort` is stable, so
 * the model is a stable insertion sort.
 */
module Nearby {
  import opened Wrappers
  import opened Geo

  /** A record with the fields the screen adds to it: its position and its distance
      from the user (`None` for `null`, when it has no position). */
  datatype Tagged<T> = Tagged(item: T, coord: Option<Coord>, distance: Option<real>)

  /** The order both comparators aim at: known distances ascending, unknown ones last. */
  predicate DistLe(a: Option<real>, b: Option<real>) {
    match a
    case None => b.None?
    case Some(x) => b.None? || x <= b.value
  }

  /** Non-decreasing in distance, unknown distances last. */
  ghost predicate Sorted<T>(s: seq<Tagged<T>>) {
    forall i, j :: 0 <= i < j < |s| ==> DistLe(s[i].distance, s[j].distance)
  }

  /** The records of `s` with distance `d`, in order. */
  function WithDistance<T>(s: seq<Tagged<T>>, d: Option<real>): seq<Tagged<T>>
    decreases |s|
  {
    if |s| == 0 then []
    else if s[0].distance == d then [s[0]] + WithDistance(s[1..], d)
    else WithDistance(s[1..], d)
  }

  /** Place `x` before the first record it does not exceed. */
  function Insert<T>(x: Tagged<T>, s: seq<Tagged<T>>): seq<Tagged<T>>
    decreases |s|
  {
    if |s| == 0 then [x]
    else if DistLe(x.distance, s[0].distance) then [x] + s
    else [s[0]] + Insert(x, s[1..])
  }

  lemma {:induction false} InsertSorted<T>(x: Tagged<T>, s: seq<Tagged<T>>)
    requires Sorted(s)
    ensures Sorted(Insert(x, s))
    ensures multiset(Insert(x, s)) == multiset(s) + multiset{x}
    decreases |s|
  {
    if |s| > 0 && !DistLe(x.distance, s[0].distance) {
      InsertSorted(x, s[1..]);
      var t := Insert(x, s[1..]);
      assert s == [s[0]] + s[1..];
      forall j | 0 <= j < |t| ensures DistLe(s[0].distance, t[j].distance) {
        assert t[j] in multiset(s[1..]) + multiset{x};
        if t[j] == x {
        } else {
          assert t[j] in s[1..];
        }
      }
    }
  }

  lemma {:induction false} InsertWithDistance<T>(x: Tagged<T>, s: seq<Tagged<T>>, d: Option<real>)
    ensures WithDistance(Insert(x, s), d) ==
              if x.distance == d then [x] + WithDistance(s, d) else WithDistance(s, d)
    decreases |s|
  {
    if |s| > 0 && !DistLe(x.distance, s[0].distance) {
      InsertWithDistance(x, s[1..], d);
      assert ([s[0]] + Insert(x, s[1..]))[1..] == Insert(x, s[1..]);
    } else if |s| > 0 {
      assert ([x] + s)[1..] == s;
    }
  }

  /** The stable sort: ordered by distance, a permutation of its input, and records of
      equal distance keep their relative order. */
  function SortByDistance<T>(s: seq<Tagged<T>>): (r: seq<Tagged<T>>)
    ensures Sorted(r)
    ensures multiset(r) == multiset(s)
    ensures forall d :: WithDistance(r, d) == WithDistance(s, d)
    decreases |s|
  {
    if |s| == 0 then []
    else
      var rest := SortByDistance(s[1..]);
      InsertSorted(s[0], rest);
      assert s == [s[0]] + s[1..];
      StableStep(s, rest);
      Insert(s[0], rest)
  }

  lemma StableStep<T>(s: seq<Tagged<T>>, rest: seq<Tagged<T>>)
    requires |s| > 0
    requires forall d :: WithDistance(rest, d) == WithDistance(s[1..], d)
    ensures forall d :: WithDistance(Insert(s[0], rest), d) == WithDistance(s, d)
  {
    forall d ensures WithDistance(Insert(s[0], rest), d) == WithDistance(s, d) {
      InsertWithDistance(s[0], rest, d);
    }
  }

  /** In a sorted sequence every record with a distance precedes every record without. */
  lemma UnknownLast<T>(s: seq<Tagged<T>>, i: nat, j: nat)
    requires Sorted(s) && i < j < |s| && s[i].distance.None?
    ensures s[j].distance.None?
  {
  }

  // ---------------------------------------------------------------------------
  // The comparators passed to `sort`.

  /** The pins comparator `a.distance - b.distance`, on known distances. */
  function ComparePins(a: real, b: real): real {
    a - b
  }

  /** The pins comparator orders exactly as `DistLe` does. */
  lemma ComparePinsAgrees(a: real, b: real)
    ensures ComparePins(a, b) <= 0.0 <==> DistLe(Some(a), Some(b))
  {
  }

  /** The tips comparator as written: `a.distance === null` gives 1, then
      `b.distance === null` gives -1, otherwise the difference. */
  function CompareTipsAsWritten(a: Option<real>, b: Option<real>): real {
    if a.None? then 1.0 else if b.None? then -1.0 else a.value - b.value
  }

  /** Two tips without a distance: each compares greater than the other. An ECMAScript
      comparator must give opposite signs for swapped arguments; when it does not, the
      order `sort` produces is implementation-defined. */
  lemma TipsComparatorAsWrittenInconsistent(a: Option<real>, b: Option<real>)
    requires a.None? && b.None?
    ensures CompareTipsAsWritten(a, b) > 0.0 && CompareTipsAsWritten(b, a) > 0.0
  {
  }

  /** The tips comparator with equal `null` distances comparing equal. */
  function CompareTips(a: Option<real>, b: Option<real>): real {
    if a.None? && b.None? then 0.0
    else if a.None? then 1.0
    else if b.None? then -1.0
    else a.value - b.value
  }

  /** The corrected comparator is consistent (swapping the arguments flips the sign) and
      orders exactly as `DistLe`. */
  lemma CompareTipsConsistent(a: Option<real>, b: Option<real>)
    ensures CompareTips(a, b) == -CompareTips(b, a)
    ensures CompareTips(a, b) <= 0.0 <==> DistLe(a, b)
  {
  }

  /** The two comparators differ only when both distances are missing. */
  lemma CompareTipsDiffersOnlyOnNulls(a: Option<real>, b: Option<real>)
    requires a.Some? || b.Some?
    ensures CompareTipsAsWritten(a, b) == CompareTips(a, b)
  {
  }
}
