/**
 The small part of JavaScript's runtime semantics that the observatory's
 server and client code lean on: `undefined`, truthiness, the
 `slice`/`reverse`/`find`/`filter` array methods, and the string predicates
 `startsWith`, `endsWith`, `includes`, with ASCII-only case mapping and
 `split`/`join` on one separator character.
 */
module Js {

  /** A value that may be `undefined` (or `null`). */
  datatype Option<+T> = None | Some(value: T)

  /** JavaScript truthiness of an optional string: present and not "". */
  predicate Truthy(o: Option<string>) {
    o.Some? && o.value != ""
  }

  function Min(a: int, b: int): int {
    if a <= b then a else b
  }

  // ---------------------------------------------------------------------
  // Array.prototype.slice / String.prototype.slice
  // ---------------------------------------------------------------------

  /** How `slice` turns a relative index into a position: a negative index
      counts from the end and is clamped at 0, a positive one is clamped at
      the length. */
  function ResolveIndex(rel: int, len: nat): (k: nat)
    ensures k <= len
    ensures 0 <= rel ==> k == Min(rel, len)
    ensures rel < 0 ==> k == len - Min(-rel, len)
  {
    if rel < 0 then (if len + rel < 0 then 0 else len + rel)
    else if rel > len then len
    else rel
  }

  /** `s.slice(start, end)`. */
  function Slice<T>(s: seq<T>, start: int, end: int): (r: seq<T>)
    ensures |r| <= |s|
    ensures 0 <= end && start == 0 ==> r == s[..Min(end, |s|)]
    ensures 0 <= start && |s| <= end ==> r == s[Min(start, |s|)..]
    ensures start < 0 && |s| <= end ==> r == s[|s| - Min(-start, |s|)..]
  {
    var from := ResolveIndex(start, |s|);
    var to := ResolveIndex(end, |s|);
    if from < to then s[from..to] else []
  }

  /** `s.slice(start)`. */
  function SliceFrom<T>(s: seq<T>, start: int): (r: seq<T>)
    ensures 0 <= start ==> r == s[Min(start, |s|)..]
    ensures start < 0 ==> r == s[|s| - Min(-start, |s|)..]
  {
    Slice(s, start, |s|)
  }

  /** `s.reverse()`, as a value. */
  function Reverse<T>(s: seq<T>): (r: seq<T>)
    ensures |r| == |s|
    ensures forall i :: 0 <= i < |s| ==> r[i] == s[|s| - 1 - i]
  {
    if s == [] then [] else Reverse(s[1..]) + [s[0]]
  }

  // ---------------------------------------------------------------------
  // Array.prototype.filter / Array.prototype.find
  // ---------------------------------------------------------------------

  /** `s.filter(p)`: the elements satisfying `p`, in their original order. */
  function Filter<T>(s: seq<T>, p: T -> bool): (r: seq<T>)
    ensures |r| <= |s|
    ensures forall i :: 0 <= i < |r| ==> r[i] in s && p(r[i])
    ensures forall i :: 0 <= i < |s| && p(s[i]) ==> s[i] in r
  {
    if s == [] then []
    else (if p(s[0]) then [s[0]] else []) + Filter(s[1..], p)
  }

  /** Filtering distributes over concatenation. */
  lemma {:induction false} FilterAppend<T>(a: seq<T>, b: seq<T>, p: T -> bool)
    ensures Filter(a + b, p) == Filter(a, p) + Filter(b, p)
  {
    if a == [] {
      assert a + b == b;
    } else {
      assert (a + b)[1..] == a[1..] + b;
      FilterAppend(a[1..], b, p);
    }
  }

  /** Filtering a sequence whose every element passes keeps it whole. */
  lemma {:induction false} FilterKeepsAll<T>(s: seq<T>, p: T -> bool)
    requires forall i :: 0 <= i < |s| ==> p(s[i])
    ensures Filter(s, p) == s
  {
    if s != [] {
      FilterKeepsAll(s[1..], p);
    }
  }

  /** Two predicates that disagree everywhere split a sequence in two. */
  lemma {:induction false} FilterPartition<T>(s: seq<T>, p: T -> bool, q: T -> bool)
    requires forall x :: p(x) != q(x)
    ensures |Filter(s, p)| + |Filter(s, q)| == |s|
  {
    if s != [] {
      FilterPartition(s[1..], p, q);
    }
  }

  /** Filtering by counted property alone: two sequences holding the same
      elements, in any order, keep equally many. */
  lemma {:induction false} FilterLengthPerm<T>(a: seq<T>, b: seq<T>, p: T -> bool)
    requires multiset(a) == multiset(b)
    ensures |Filter(a, p)| == |Filter(b, p)|
  {
    if a == [] {
      assert |b| == |multiset(b)| == 0;
    } else {
      var x := a[0];
      assert x in multiset(b);
      var j :| 0 <= j < |b| && b[j] == x;
      var rest := b[..j] + b[j + 1..];
      assert b == b[..j] + [x] + b[j + 1..];
      assert a == [x] + a[1..];
      calc {
        multiset(rest);
        multiset(b[..j]) + multiset(b[j + 1..]);
        multiset(b) - multiset{x};
        multiset(a) - multiset{x};
        multiset(a[1..]);
      }
      FilterLengthPerm(a[1..], rest, p);
      FilterAppend(b[..j] + [x], b[j + 1..], p);
      FilterAppend(b[..j], [x], p);
      FilterAppend(b[..j], b[j + 1..], p);
    }
  }

  /** Two sequences of equal length whose elements pass `p` and `q` at the
      same positions keep equally many. */
  lemma {:induction false} FilterLengthPointwise<A, B>(a: seq<A>, b: seq<B>, p: A -> bool, q: B -> bool)
    requires |a| == |b|
    requires forall i :: 0 <= i < |a| ==> p(a[i]) == q(b[i])
    ensures |Filter(a, p)| == |Filter(b, q)|
  {
    if a != [] {
      assert p(a[0]) == q(b[0]);
      FilterLengthPointwise(a[1..], b[1..], p, q);
    }
  }

  // ---------------------------------------------------------------------
  // Keeping the results of a partial map, in order
  // ---------------------------------------------------------------------

  /** The results of `f` on the elements where it yields one, in order: a
      loop that pushes `f`'s result when there is one. */
  function FilterMap<A, B>(s: seq<A>, f: A -> Option<B>): seq<B> {
    if s == [] then []
    else (if f(s[0]).Some? then [f(s[0]).value] else []) + FilterMap(s[1..], f)
  }

  /** The positions, counted from `base`, where `f` yields a result. */
  function KeptFrom<A, B>(s: seq<A>, f: A -> Option<B>, base: nat): seq<nat> {
    if s == [] then []
    else (if f(s[0]).Some? then [base] else []) + KeptFrom(s[1..], f, base + 1)
  }

  function KeptIndices<A, B>(s: seq<A>, f: A -> Option<B>): seq<nat> {
    KeptFrom(s, f, 0)
  }

  /** `r` lists `f`'s results at the positions `idx` of `s`, which are
      increasing and are all the positions where `f` yields: every such
      element is represented exactly once, in the order of `s`. */
  ghost predicate OrderedSelection<A, B>(s: seq<A>, f: A -> Option<B>, r: seq<B>, idx: seq<nat>) {
    && |idx| == |r|
    && (forall k, l :: 0 <= k < l < |idx| ==> idx[k] < idx[l])
    && (forall k :: 0 <= k < |idx| ==> idx[k] < |s| && f(s[idx[k]]) == Some(r[k]))
    && (forall i :: 0 <= i < |s| && f(s[i]).Some? ==> i in idx)
  }

  lemma {:induction false} KeptFromLength<A, B>(s: seq<A>, f: A -> Option<B>, base: nat)
    ensures |KeptFrom(s, f, base)| == |FilterMap(s, f)|
  {
    if s != [] {
      KeptFromLength(s[1..], f, base + 1);
    }
  }

  lemma {:induction false} KeptFromBounds<A, B>(s: seq<A>, f: A -> Option<B>, base: nat)
    ensures forall k :: 0 <= k < |KeptFrom(s, f, base)| ==> base <= KeptFrom(s, f, base)[k] < base + |s|
  {
    if s != [] {
      KeptFromBounds(s[1..], f, base + 1);
      var idx, idx' := KeptFrom(s, f, base), KeptFrom(s[1..], f, base + 1);
      if f(s[0]).Some? {
        assert idx == [base] + idx';
      } else {
        assert idx == idx';
      }
    }
  }

  lemma {:induction false} KeptFromIncreasing<A, B>(s: seq<A>, f: A -> Option<B>, base: nat, k: nat, l: nat)
    requires k < l < |KeptFrom(s, f, base)|
    ensures KeptFrom(s, f, base)[k] < KeptFrom(s, f, base)[l]
  {
    var idx, idx' := KeptFrom(s, f, base), KeptFrom(s[1..], f, base + 1);
    if f(s[0]).Some? {
      assert idx == [base] + idx';
      if k == 0 {
        KeptFromBounds(s[1..], f, base + 1);
        assert idx'[l - 1] >= base + 1;
      } else {
        KeptFromIncreasing(s[1..], f, base + 1, k - 1, l - 1);
      }
    } else {
      assert idx == idx';
      KeptFromIncreasing(s[1..], f, base + 1, k, l);
    }
  }

  lemma {:induction false} KeptFromYields<A, B>(s: seq<A>, f: A -> Option<B>, base: nat, k: nat)
    requires k < |KeptFrom(s, f, base)| && k < |FilterMap(s, f)|
    ensures base <= KeptFrom(s, f, base)[k] < base + |s|
    ensures f(s[KeptFrom(s, f, base)[k] - base]) == Some(FilterMap(s, f)[k])
  {
    KeptFromBounds(s, f, base);
    var r', idx' := FilterMap(s[1..], f), KeptFrom(s[1..], f, base + 1);
    if f(s[0]).Some? {
      assert FilterMap(s, f) == [f(s[0]).value] + r';
      assert KeptFrom(s, f, base) == [base] + idx';
      if k > 0 {
        KeptFromYields(s[1..], f, base + 1, k - 1);
        assert s[1..][idx'[k - 1] - (base + 1)] == s[idx'[k - 1] - base];
      }
    } else {
      assert FilterMap(s, f) == r' && KeptFrom(s, f, base) == idx';
      KeptFromYields(s[1..], f, base + 1, k);
      assert s[1..][idx'[k] - (base + 1)] == s[idx'[k] - base];
    }
  }

  lemma {:induction false} KeptFromComplete<A, B>(s: seq<A>, f: A -> Option<B>, base: nat)
    ensures forall i :: 0 <= i < |s| && f(s[i]).Some? ==> base + i in KeptFrom(s, f, base)
  {
    if s != [] {
      KeptFromComplete(s[1..], f, base + 1);
      forall i | 0 < i < |s| && f(s[i]).Some? ensures base + i in KeptFrom(s, f, base) {
        assert s[1..][i - 1] == s[i];
      }
    }
  }

  /** `FilterMap` keeps each result once, in order. */
  lemma FilterMapSelects<A, B>(s: seq<A>, f: A -> Option<B>)
    ensures OrderedSelection(s, f, FilterMap(s, f), KeptIndices(s, f))
  {
    KeptFromLength(s, f, 0);
    KeptFromBounds(s, f, 0);
    forall k, l | 0 <= k < l < |KeptIndices(s, f)| {
      KeptFromIncreasing(s, f, 0, k, l);
    }
    forall k | 0 <= k < |KeptIndices(s, f)| {
      KeptFromYields(s, f, 0, k);
    }
    KeptFromComplete(s, f, 0);
  }

  /** A predicate as a partial map that keeps the element itself. */
  function Keep<T>(p: T -> bool): T -> Option<T> {
    x => if p(x) then Some(x) else None
  }

  lemma {:induction false} FilterIsFilterMap<T>(s: seq<T>, p: T -> bool)
    ensures Filter(s, p) == FilterMap(s, Keep(p))
  {
    if s != [] {
      FilterIsFilterMap(s[1..], p);
    }
  }

  /** `Filter` keeps every passing element exactly once, in order. */
  lemma FilterSelects<T>(s: seq<T>, p: T -> bool)
    ensures OrderedSelection(s, Keep(p), Filter(s, p), KeptIndices(s, Keep(p)))
  {
    FilterIsFilterMap(s, p);
    FilterMapSelects(s, Keep(p));
  }

  /** `s.findIndex(p)`, with -1 as `None`: the position of the first element
      satisfying `p`. */
  function FindIndex<T>(s: seq<T>, p: T -> bool): (r: Option<nat>)
    ensures r.None? <==> forall i :: 0 <= i < |s| ==> !p(s[i])
    ensures r.Some? ==> r.value < |s| && p(s[r.value])
    ensures r.Some? ==> forall j :: 0 <= j < r.value ==> !p(s[j])
  {
    if s == [] then None
    else if p(s[0]) then Some(0)
    else match FindIndex(s[1..], p)
      case None => None
      case Some(k) => Some(k + 1)
  }

  /** `s.find(p)`: the first element satisfying `p`. */
  function Find<T>(s: seq<T>, p: T -> bool): (r: Option<T>)
    ensures r.None? <==> forall i :: 0 <= i < |s| ==> !p(s[i])
    ensures r.Some? ==> exists i :: 0 <= i < |s| && s[i] == r.value && p(s[i]) &&
                                    forall j :: 0 <= j < i ==> !p(s[j])
  {
    match FindIndex(s, p)
    case None => None
    case Some(i) => Some(s[i])
  }

  // ---------------------------------------------------------------------
  // Strings
  // ---------------------------------------------------------------------

  predicate StartsWith(s: string, prefix: string) {
    |prefix| <= |s| && s[..|prefix|] == prefix
  }

  predicate EndsWith(s: string, suffix: string) {
    |suffix| <= |s| && s[|s| - |suffix|..] == suffix
  }

  /** `s.includes(sub)`, scanning start positions left to right. */
  predicate Includes(s: string, sub: string)
    decreases |s|
  {
    StartsWith(s, sub) || (|s| > 0 && Includes(s[1..], sub))
  }

  /** `sub` occurs in `s` at position `i`. */
  ghost predicate OccursAt(s: string, sub: string, i: int) {
    0 <= i && i + |sub| <= |s| && s[i..i + |sub|] == sub
  }

  /** The left-to-right scan finds `sub` exactly when it occurs somewhere. */
  lemma {:induction false} IncludesIffOccurs(s: string, sub: string)
    ensures Includes(s, sub) <==> exists i :: OccursAt(s, sub, i)
    decreases |s|
  {
    if StartsWith(s, sub) {
      assert OccursAt(s, sub, 0);
    } else if |s| == 0 {
      forall i: int ensures !OccursAt(s, sub, i) {
        if i == 0 {
          assert !StartsWith(s, sub);
        }
      }
    } else {
      IncludesIffOccurs(s[1..], sub);
      if Includes(s[1..], sub) {
        var i :| OccursAt(s[1..], sub, i);
        assert s[1..][i..i + |sub|] == s[i + 1..i + 1 + |sub|];
        assert OccursAt(s, sub, i + 1);
      } else {
        forall i: int ensures !OccursAt(s, sub, i) {
          if 0 < i && i + |sub| <= |s| {
            assert s[1..][i - 1..i - 1 + |sub|] == s[i..i + |sub|];
            assert !OccursAt(s[1..], sub, i - 1);
          }
        }
      }
    }
  }

  /** Every string includes itself. */
  lemma IncludesSelf(s: string)
    ensures Includes(s, s)
  {
    assert s[..|s|] == s;
  }

  /** Lexicographic order by character, that is by Unicode code point
      (Dafny's `char`): `a` may come before `b`. Stands for
      `a.localeCompare(b) <= 0`. */
  predicate LexLe(a: string, b: string) {
    a == [] || (b != [] && (a[0] < b[0] || (a[0] == b[0] && LexLe(a[1..], b[1..]))))
  }

  lemma {:induction false} LexLeTotal(a: string, b: string)
    ensures LexLe(a, b) || LexLe(b, a)
  {
    if a != [] && b != [] && a[0] == b[0] {
      LexLeTotal(a[1..], b[1..]);
    }
  }

  lemma {:induction false} LexLeTransitive(a: string, b: string, c: string)
    requires LexLe(a, b) && LexLe(b, c)
    ensures LexLe(a, c)
  {
    if a != [] && b != [] && c != [] && a[0] == b[0] && b[0] == c[0] {
      LexLeTransitive(a[1..], b[1..], c[1..]);
    }
  }

  /** ASCII `toLowerCase` of one character. */
  function LowerChar(c: char): char {
    if 'A' <= c <= 'Z' then (c as int + 32) as char else c
  }

  /** ASCII `toUpperCase` of one character. */
  function UpperChar(c: char): char {
    if 'a' <= c <= 'z' then (c as int - 32) as char else c
  }

  /** `s.toLowerCase()`, for ASCII letters. */
  function Lower(s: string): (r: string)
    ensures |r| == |s|
    ensures forall i :: 0 <= i < |s| ==> r[i] == LowerChar(s[i])
  {
    seq(|s|, i requires 0 <= i < |s| => LowerChar(s[i]))
  }

  /** Lower-casing twice is lower-casing once. */
  lemma LowerIdempotent(s: string)
    ensures Lower(Lower(s)) == Lower(s)
  {
    forall i | 0 <= i < |s|
      ensures Lower(Lower(s))[i] == Lower(s)[i]
    {
      var c := s[i];
      if 'A' <= c <= 'Z' {
        assert 'a' <= LowerChar(c) <= 'z';
      }
    }
  }

  /** Lower-casing works character by character, so it distributes over
      concatenation. */
  lemma LowerAppend(a: string, b: string)
    ensures Lower(a + b) == Lower(a) + Lower(b)
  {
    assert forall i :: 0 <= i < |a + b| ==> Lower(a + b)[i] == (Lower(a) + Lower(b))[i];
  }

  /** A string includes every piece it is built around. */
  lemma IncludesMiddle(a: string, w: string, b: string)
    ensures Includes(a + w + b, w)
  {
    var s := a + w + b;
    assert s[|a|..|a| + |w|] == w;
    assert OccursAt(s, w, |a|);
    IncludesIffOccurs(s, w);
  }

  /** Every character of an included string occurs in the string. */
  lemma IncludedChars(s: string, sub: string)
    requires Includes(s, sub)
    ensures forall k :: 0 <= k < |sub| ==> sub[k] in s
  {
    IncludesIffOccurs(s, sub);
    var i :| OccursAt(s, sub, i);
    forall k | 0 <= k < |sub|
      ensures sub[k] in s
    {
      assert s[i..i + |sub|][k] == s[i + k];
    }
  }

  /** A string cannot include a piece with a character the string lacks. */
  lemma MissingCharExcludes(s: string, sub: string, k: nat)
    requires k < |sub| && sub[k] !in s
    ensures !Includes(s, sub)
  {
    if Includes(s, sub) {
      IncludedChars(s, sub);
    }
  }

  /** `s.includes(a) || s.includes(b) || s.includes(c)` is "`s` includes one
      of the three". */
  lemma IncludesOneOfThree(s: string, a: string, b: string, c: string)
    ensures (exists i :: 0 <= i < 3 && Includes(s, [a, b, c][i])) <==>
            Includes(s, a) || Includes(s, b) || Includes(s, c)
  {
    if Includes(s, a) {
      assert [a, b, c][0] == a;
    } else if Includes(s, b) {
      assert [a, b, c][1] == b;
    } else if Includes(s, c) {
      assert [a, b, c][2] == c;
    }
  }

  /** `s.split(sep)` for a one-character separator: the pieces between
      separators, always at least one (`"".split("-")` is `[""]`). */
  function Split(s: string, sep: char): (words: seq<string>)
    ensures |words| >= 1
    ensures forall w :: w in words ==> sep !in w
    decreases |s|
  {
    if |s| == 0 then [""]
    else
      var rest := Split(s[1..], sep);
      if s[0] == sep then [""] + rest
      else [[s[0]] + rest[0]] + rest[1..]
  }

  /** `words.join(sep)`. */
  function Join(words: seq<string>, sep: string): string
    decreases |words|
  {
    if |words| == 0 then ""
    else if |words| == 1 then words[0]
    else words[0] + sep + Join(words[1..], sep)
  }

  /** Joining the pieces of a split with the separator gives the string back. */
  lemma {:induction false} JoinSplit(s: string, sep: char)
    ensures Join(Split(s, sep), [sep]) == s
    decreases |s|
  {
    if |s| > 0 {
      var rest := Split(s[1..], sep);
      JoinSplit(s[1..], sep);
      if s[0] == sep {
        assert Join([""] + rest, [sep]) == "" + [sep] + Join(rest, [sep]);
        assert s == [s[0]] + s[1..];
      } else {
        JoinConsFirst([s[0]], rest, [sep]);
        assert s == [s[0]] + s[1..];
      }
    }
  }

  /** Prefixing the first word prefixes the joined string. */
  lemma JoinConsFirst(a: string, words: seq<string>, sep: string)
    requires |words| >= 1
    ensures Join([a + words[0]] + words[1..], sep) == a + Join(words, sep)
  {
    var ws := [a + words[0]] + words[1..];
    if |words| > 1 {
      assert ws[1..] == words[1..];
    }
  }
}
