/**
 `Array.prototype.sort` with a comparator, as the observatory uses it: a
 stable sort under a total preorder `le` ("may come before"). Elements that
 compare equal keep their input order, which is what ECMAScript 2019 and
 later require of `sort`.
 */
module Sorting {
  import opened Js

  /** `le` is total and transitive, which is what a consistent comparator gives. */
  ghost predicate TotalPreorder<T(!new)>(le: (T, T) -> bool) {
    && (forall a, b :: le(a, b) || le(b, a))
    && (forall a, b, c :: le(a, b) && le(b, c) ==> le(a, c))
  }

  /** Every element may come before every later one. */
  predicate Sorted<T>(s: seq<T>, le: (T, T) -> bool) {
    forall i, j :: 0 <= i < j < |s| ==> le(s[i], s[j])
  }

  /** If `h` may precede every element of `xs` (as a multiset), it may precede
      every position of `xs`. */
  lemma PrecedesAll<T>(h: T, xs: seq<T>, le: (T, T) -> bool)
    requires forall y :: y in multiset(xs) ==> le(h, y)
    ensures forall k :: 0 <= k < |xs| ==> le(h, xs[k])
  {
    forall k | 0 <= k < |xs|
      ensures le(h, xs[k])
    {
      assert xs[k] in multiset(xs);
    }
  }

  /** Insertion of `x` before the first element it may precede. */
  function Insert<T>(x: T, s: seq<T>, le: (T, T) -> bool): seq<T> {
    if s == [] then [x]
    else if le(x, s[0]) then [x] + s
    else [s[0]] + Insert(x, s[1..], le)
  }

  /** What insertion into a sorted sequence gives: `x` added, still sorted. */
  ghost predicate Inserted<T>(x: T, s: seq<T>, r: seq<T>, le: (T, T) -> bool) {
    && |r| == |s| + 1
    && multiset(r) == multiset(s) + multiset{x}
    && Sorted(r, le)
  }

  lemma {:induction false} InsertSorted<T(!new)>(x: T, s: seq<T>, le: (T, T) -> bool)
    requires TotalPreorder(le)
    requires Sorted(s, le)
    ensures Inserted(x, s, Insert(x, s, le), le)
  {
    if s != [] && le(x, s[0]) {
      InsertFront(x, s, le);
    } else if s != [] {
      InsertSorted(x, s[1..], le);
      InsertBehind(x, s, le);
    }
  }

  /** `x` goes in front of an element it may precede, and so of all of them. */
  lemma InsertFront<T(!new)>(x: T, s: seq<T>, le: (T, T) -> bool)
    requires TotalPreorder(le)
    requires Sorted(s, le)
    requires s != [] && le(x, s[0])
    ensures Inserted(x, s, Insert(x, s, le), le)
  {
    assert forall k :: 0 <= k < |s| ==> le(x, s[k]) by {
      forall k | 0 <= k < |s| ensures le(x, s[k]) {
        if k > 0 { assert le(s[0], s[k]); }
      }
    }
    assert Insert(x, s, le) == [x] + s;
  }

  /** `x` goes behind the first element, which may precede everything that
      follows it, `x` included. */
  lemma InsertBehind<T(!new)>(x: T, s: seq<T>, le: (T, T) -> bool)
    requires TotalPreorder(le)
    requires Sorted(s, le)
    requires s != [] && !le(x, s[0])
    requires Inserted(x, s[1..], Insert(x, s[1..], le), le)
    ensures Inserted(x, s, Insert(x, s, le), le)
  {
    var rest := Insert(x, s[1..], le);
    FirstPrecedesRest(x, s, rest, le);
    ConsSorted(s[0], rest, le);
    assert Insert(x, s, le) == [s[0]] + rest;
    assert s == [s[0]] + s[1..];
  }

  /** The first element of a sorted sequence may precede the rest with an
      `x` it may precede added in. */
  lemma FirstPrecedesRest<T(!new)>(x: T, s: seq<T>, rest: seq<T>, le: (T, T) -> bool)
    requires TotalPreorder(le)
    requires Sorted(s, le)
    requires s != [] && !le(x, s[0])
    requires multiset(rest) == multiset(s[1..]) + multiset{x}
    ensures forall k :: 0 <= k < |rest| ==> le(s[0], rest[k])
  {
    assert forall y :: y in multiset(rest) ==> le(s[0], y) by {
      forall y | y in multiset(rest) ensures le(s[0], y) {
        if y != x {
          assert y in multiset(s[1..]);
          var k :| 0 <= k < |s[1..]| && s[1..][k] == y;
          assert le(s[0], s[k + 1]);
        }
      }
    }
    PrecedesAll(s[0], rest, le);
  }

  /** A sorted sequence stays sorted behind an element that may precede
      all of it. */
  lemma ConsSorted<T>(h: T, rest: seq<T>, le: (T, T) -> bool)
    requires forall k :: 0 <= k < |rest| ==> le(h, rest[k])
    requires Sorted(rest, le)
    ensures Sorted([h] + rest, le)
  {
  }

  /** Insertion sort: each element, from the last to the first, is inserted
      into the sorted rest, so among equal elements the earlier one stays first. */
  function Sort<T(!new)>(s: seq<T>, le: (T, T) -> bool): (r: seq<T>)
    requires TotalPreorder(le)
    ensures |r| == |s|
    ensures multiset(r) == multiset(s)
    ensures Sorted(r, le)
  {
    if s == [] then []
    else
      var rest := Sort(s[1..], le);
      InsertSorted(s[0], rest, le);
      SortStep(s, rest, Insert(s[0], rest, le), le);
      Insert(s[0], rest, le)
  }

  /** Inserting the first element into the sorted rest sorts the whole. */
  lemma SortStep<T>(s: seq<T>, rest: seq<T>, r: seq<T>, le: (T, T) -> bool)
    requires s != []
    requires |rest| == |s| - 1 && multiset(rest) == multiset(s[1..])
    requires Inserted(s[0], rest, r, le)
    ensures |r| == |s| && multiset(r) == multiset(s) && Sorted(r, le)
  {
    assert s == [s[0]] + s[1..];
  }

  /** `p` picks elements that all compare equal to one another. */
  ghost predicate Tied<T(!new)>(le: (T, T) -> bool, p: T -> bool) {
    forall a, b :: p(a) && p(b) ==> le(a, b)
  }

  /** The elements that compare equal to `z`. */
  function Ties<T>(le: (T, T) -> bool, z: T): T -> bool {
    y => le(y, z) && le(z, y)
  }

  lemma TiesAreTied<T(!new)>(le: (T, T) -> bool, z: T)
    requires TotalPreorder(le)
    ensures Tied(le, Ties(le, z))
  {
    forall a, b | Ties(le, z)(a) && Ties(le, z)(b) ensures le(a, b) {
      assert le(a, z) && le(z, b);
    }
  }

  /** Inserting `x` puts it before every element tied with it. (Stated on
      `FilterMap`, whose lack of a contract keeps the proof small.) */
  lemma {:induction false} InsertTied<T(!new)>(x: T, s: seq<T>, le: (T, T) -> bool, p: T -> bool)
    requires Tied(le, p)
    ensures FilterMap(Insert(x, s, le), Keep(p)) == (if p(x) then [x] else []) + FilterMap(s, Keep(p))
  {
    if s != [] && !le(x, s[0]) {
      InsertTied(x, s[1..], le, p);
      assert !(p(x) && p(s[0]));
      InsertPast(x, s, le, p);
    } else if s != [] {
      assert ([x] + s)[1..] == s;
    }
  }

  /** The step where `x` goes past the first element: that element is not
      tied with `x`, so the two keep no relative order. */
  lemma InsertPast<T>(x: T, s: seq<T>, le: (T, T) -> bool, p: T -> bool)
    requires s != [] && !le(x, s[0]) && !(p(x) && p(s[0]))
    requires FilterMap(Insert(x, s[1..], le), Keep(p)) == (if p(x) then [x] else []) + FilterMap(s[1..], Keep(p))
    ensures FilterMap(Insert(x, s, le), Keep(p)) == (if p(x) then [x] else []) + FilterMap(s, Keep(p))
  {
    var rest := Insert(x, s[1..], le);
    var ins := Insert(x, s, le);
    assert ins == [s[0]] + rest;
    assert ins[0] == s[0] && ins[1..] == rest;
    var head := if p(s[0]) then [s[0]] else [];
    assert FilterMap(ins, Keep(p)) == head + FilterMap(rest, Keep(p));
    assert FilterMap(s, Keep(p)) == head + FilterMap(s[1..], Keep(p));
    var tail := FilterMap(s[1..], Keep(p));
    if p(x) {
      assert head == [];
      assert FilterMap(ins, Keep(p)) == FilterMap(rest, Keep(p)) == [x] + tail;
      assert FilterMap(s, Keep(p)) == tail;
    } else {
      assert FilterMap(rest, Keep(p)) == tail;
      assert FilterMap(ins, Keep(p)) == head + tail == FilterMap(s, Keep(p));
    }
  }

  /** The sort is stable: the elements of a tied group come out in the
      order they went in. */
  lemma {:induction false} SortStable<T(!new)>(s: seq<T>, le: (T, T) -> bool, p: T -> bool)
    requires TotalPreorder(le)
    requires Tied(le, p)
    ensures Filter(Sort(s, le), p) == Filter(s, p)
  {
    SortTied(s, le, p);
    FilterIsFilterMap(Sort(s, le), p);
    FilterIsFilterMap(s, p);
  }

  lemma {:induction false} SortTied<T(!new)>(s: seq<T>, le: (T, T) -> bool, p: T -> bool)
    requires TotalPreorder(le)
    requires Tied(le, p)
    ensures FilterMap(Sort(s, le), Keep(p)) == FilterMap(s, Keep(p))
  {
    if s != [] {
      SortTied(s[1..], le, p);
      InsertTied(s[0], Sort(s[1..], le), le, p);
    }
  }

  /** In particular, the elements that compare equal to any `z` keep their
      input order. */
  lemma SortKeepsTieOrder<T(!new)>(s: seq<T>, le: (T, T) -> bool, z: T)
    requires TotalPreorder(le)
    ensures Filter(Sort(s, le), Ties(le, z)) == Filter(s, Ties(le, z))
  {
    TiesAreTied(le, z);
    SortStable(s, le, Ties(le, z));
  }

  /** A single element is already sorted. */
  lemma SortSingleton<T(!new)>(s: seq<T>, le: (T, T) -> bool)
    requires TotalPreorder(le)
    requires |s| == 1
    ensures Sort(s, le) == s
  {
    assert s[1..] == [];
  }

  /** A prefix of a sorted sequence is sorted. */
  lemma SortedPrefix<T>(s: seq<T>, n: nat, le: (T, T) -> bool)
    requires Sorted(s, le)
    requires n <= |s|
    ensures Sorted(s[..n], le)
  {
  }
}
