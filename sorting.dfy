/** Python's `sorted()`: on strings (code-point lexicographic order, as
    `sorted(dict.keys())` and `sorted(list_of_str)` use it) and the stable
    descending sort by a numeric key of `list.sort(key=..., reverse=True)`. */
module Sorting {

  // ---------------------------------------------------------------------
  // Strings in Python's order

  /** Python's `a <= b` on strings. */
  predicate LexLe(a: string, b: string)
    decreases |a|
  {
    if a == [] then true
    else if b == [] then false
    else if a[0] != b[0] then a[0] < b[0]
    else LexLe(a[1..], b[1..])
  }

  lemma {:induction false} LexLeReflexive(a: string)
    ensures LexLe(a, a)
    decreases |a|
  {
    if a != [] { LexLeReflexive(a[1..]); }
  }

  lemma {:induction false} LexLeAntisymmetric(a: string, b: string)
    requires LexLe(a, b) && LexLe(b, a)
    ensures a == b
    decreases |a|
  {
    if a != [] && b != [] {
      LexLeAntisymmetric(a[1..], b[1..]);
      assert a == [a[0]] + a[1..] && b == [b[0]] + b[1..];
    }
  }

  lemma {:induction false} LexLeTransitive(a: string, b: string, c: string)
    requires LexLe(a, b) && LexLe(b, c)
    ensures LexLe(a, c)
    decreases |a|
  {
    if a != [] && b != [] && c != [] && a[0] == b[0] && b[0] == c[0] {
      LexLeTransitive(a[1..], b[1..], c[1..]);
    }
  }

  lemma {:induction false} LexLeTotal(a: string, b: string)
    ensures LexLe(a, b) || LexLe(b, a)
    decreases |a|
  {
    if a != [] && b != [] && a[0] == b[0] {
      LexLeTotal(a[1..], b[1..]);
    }
  }

  predicate Sorted(s: seq<string>) {
    forall i, j :: 0 <= i < j < |s| ==> LexLe(s[i], s[j])
  }

  /** Places `x` before the first element it does not follow. */
  function Insert(x: string, s: seq<string>): (r: seq<string>)
    ensures multiset(r) == multiset(s) + multiset{x}
    ensures |r| == |s| + 1
  {
    if s == [] then [x]
    else if LexLe(x, s[0]) then [x] + s
    else
      assert s == [s[0]] + s[1..];
      [s[0]] + Insert(x, s[1..])
  }

  lemma {:induction false} InsertSorted(x: string, s: seq<string>)
    requires Sorted(s)
    ensures Sorted(Insert(x, s))
    ensures forall y :: y in Insert(x, s) ==> y == x || y in s
  {
    var r := Insert(x, s);
    if s == [] {
    } else if LexLe(x, s[0]) {
      forall i, j | 0 <= i < j < |r| ensures LexLe(r[i], r[j]) {
        if i == 0 && j > 1 { LexLeTransitive(x, s[0], s[j - 1]); }
      }
    } else {
      SortedTail(s);
      InsertSorted(x, s[1..]);
      var t := Insert(x, s[1..]);
      LexLeTotal(x, s[0]);
      forall y | y in t ensures LexLe(s[0], y) {
        if y != x {
          SortedHeadFirst(s, y);
        }
      }
      SortedCons(s[0], t);
      assert r == [s[0]] + t;
    }
  }

  /** An element preceding every element of a sorted list heads a sorted list. */
  lemma SortedCons(h: string, t: seq<string>)
    requires Sorted(t) && forall y :: y in t ==> LexLe(h, y)
    ensures Sorted([h] + t)
  {
    var r := [h] + t;
    forall i, j | 0 <= i < j < |r| ensures LexLe(r[i], r[j]) {
      assert r[j] == t[j - 1];
      if i > 0 {
        assert r[i] == t[i - 1];
      }
    }
  }

  /** Python `sorted(s)` for a list of strings. */
  function SortStrings(s: seq<string>): (r: seq<string>)
    ensures Sorted(r)
    ensures multiset(r) == multiset(s)
  {
    if s == [] then []
    else
      assert s == [s[0]] + s[1..];
      InsertSorted(s[0], SortStrings(s[1..]));
      Insert(s[0], SortStrings(s[1..]))
  }

  /** The head of a sorted list precedes every element of it. */
  lemma SortedHeadFirst(a: seq<string>, x: string)
    requires Sorted(a) && x in a
    ensures LexLe(a[0], x)
  {
    var i :| 0 <= i < |a| && a[i] == x;
    if i == 0 { LexLeReflexive(x); }
  }

  lemma SortedTail(a: seq<string>)
    requires Sorted(a) && a != []
    ensures Sorted(a[1..])
  {
    forall i, j | 0 <= i < j < |a| - 1 ensures LexLe(a[1..][i], a[1..][j]) {
      assert a[1..][i] == a[i + 1] && a[1..][j] == a[j + 1];
    }
  }

  lemma MultisetTail<T>(a: seq<T>)
    requires a != []
    ensures multiset(a[1..]) == multiset(a) - multiset{a[0]}
  {
    assert a == [a[0]] + a[1..];
  }

  /** Two sorted lists with the same elements are the same list. */
  lemma {:induction false} SortedUnique(a: seq<string>, b: seq<string>)
    requires Sorted(a) && Sorted(b)
    requires multiset(a) == multiset(b)
    ensures a == b
    decreases |a|
  {
    if a != [] {
      assert |a| == |multiset(a)| == |multiset(b)| == |b|;
      assert a[0] in multiset(b) && b[0] in multiset(a);
      SortedHeadFirst(b, a[0]);
      SortedHeadFirst(a, b[0]);
      LexLeAntisymmetric(a[0], b[0]);
      MultisetTail(a);
      MultisetTail(b);
      SortedTail(a);
      SortedTail(b);
      SortedUnique(a[1..], b[1..]);
      HeadTailEqual(a, b);
    }
  }

  lemma HeadTailEqual<T>(a: seq<T>, b: seq<T>)
    requires a != [] && b != [] && a[0] == b[0] && a[1..] == b[1..]
    ensures a == b
  {
    assert a == [a[0]] + a[1..] && b == [b[0]] + b[1..];
  }

  /** `sorted` depends only on the elements, not on their order. */
  lemma SortStringsPermutationInvariant(a: seq<string>, b: seq<string>)
    requires multiset(a) == multiset(b)
    ensures SortStrings(a) == SortStrings(b)
  {
    SortedUnique(SortStrings(a), SortStrings(b));
  }

  /** No element occurs twice (a Python `set` turned into a list). */
  predicate Distinct<T(==)>(s: seq<T>) {
    forall i, j :: 0 <= i < j < |s| ==> s[i] != s[j]
  }

  /** A list is duplicate-free exactly when each element occurs once in its
      multiset. */
  lemma {:induction false} DistinctCounts<T>(s: seq<T>)
    ensures Distinct(s) <==> forall x :: multiset(s)[x] <= 1
  {
    if s != [] {
      var t := s[1..];
      assert s == [s[0]] + t;
      DistinctCounts(t);
      assert Distinct(s) <==> Distinct(t) && s[0] !in t by {
        if Distinct(s) {
          forall i, j | 0 <= i < j < |t| ensures t[i] != t[j] {
            assert t[i] == s[i + 1] && t[j] == s[j + 1];
          }
          forall k | 0 <= k < |t| ensures t[k] != s[0] {
            assert t[k] == s[k + 1];
          }
        }
        if Distinct(t) && s[0] !in t {
          forall i, j | 0 <= i < j < |s| ensures s[i] != s[j] {
            if i == 0 {
              assert s[j] == t[j - 1];
            } else {
              assert s[i] == t[i - 1] && s[j] == t[j - 1];
            }
          }
        }
      }
      assert forall x :: multiset(s)[x] == multiset(t)[x] + (if x == s[0] then 1 else 0);
      assert s[0] !in t <==> multiset(t)[s[0]] == 0;
      if forall x :: multiset(s)[x] <= 1 {
        assert multiset(t)[s[0]] == 0;
        assert forall x :: multiset(t)[x] <= 1;
      }
    }
  }

  /** A permutation of a duplicate-free list is duplicate-free. */
  lemma PermutationDistinct<T>(a: seq<T>, b: seq<T>)
    requires multiset(a) == multiset(b) && Distinct(a)
    ensures Distinct(b)
  {
    DistinctCounts(a);
    DistinctCounts(b);
  }

  /** Sorting a duplicate-free list leaves it duplicate-free. */
  lemma SortStringsDistinct(s: seq<string>)
    requires Distinct(s)
    ensures Distinct(SortStrings(s))
  {
    PermutationDistinct(s, SortStrings(s));
  }

  /** `sorted(s)` as a new list: sorted, a permutation of `s`, and
      duplicate-free when `s` is. */
  method SortedCopy(s: seq<string>) returns (r: seq<string>)
    ensures Sorted(r) && multiset(r) == multiset(s)
    ensures Distinct(s) ==> Distinct(r)
  {
    r := SortStrings(s);
    if Distinct(s) {
      SortStringsDistinct(s);
    }
  }

  // ---------------------------------------------------------------------
  // Stable descending sort by a score

  /** The elements of `xs` whose score is `v`, in their order in `xs`. */
  function WithScore<T>(xs: seq<T>, score: T -> real, v: real): seq<T> {
    if xs == [] then []
    else (if score(xs[0]) == v then [xs[0]] else []) + WithScore(xs[1..], score, v)
  }

  predicate SortedDesc<T>(xs: seq<T>, score: T -> real) {
    forall i, j :: 0 <= i < j < |xs| ==> score(xs[i]) >= score(xs[j])
  }

  /** Places `x` before the first element whose score is not above its own. */
  function InsertDesc<T>(x: T, s: seq<T>, score: T -> real): (r: seq<T>)
    ensures multiset(r) == multiset(s) + multiset{x}
    ensures |r| == |s| + 1
  {
    if s == [] then [x]
    else if score(s[0]) <= score(x) then [x] + s
    else
      assert s == [s[0]] + s[1..];
      [s[0]] + InsertDesc(x, s[1..], score)
  }

  lemma {:induction false} InsertDescSorted<T>(x: T, s: seq<T>, score: T -> real)
    requires SortedDesc(s, score)
    ensures SortedDesc(InsertDesc(x, s, score), score)
    ensures forall y :: y in InsertDesc(x, s, score) ==> y == x || y in s
  {
    var r := InsertDesc(x, s, score);
    if s == [] {
    } else if score(s[0]) <= score(x) {
      forall y | y in s ensures score(x) >= score(y) {
        SortedDescHeadFirst(s, score, y);
      }
      SortedDescCons(x, s, score);
    } else {
      SortedDescTail(s, score);
      InsertDescSorted(x, s[1..], score);
      var t := InsertDesc(x, s[1..], score);
      forall y | y in t ensures score(s[0]) >= score(y) {
        if y != x {
          SortedDescHeadFirst(s, score, y);
        }
      }
      SortedDescCons(s[0], t, score);
      assert r == [s[0]] + t;
    }
  }

  lemma SortedDescHeadFirst<T>(s: seq<T>, score: T -> real, y: T)
    requires SortedDesc(s, score) && y in s
    ensures score(s[0]) >= score(y)
  {
    var i :| 0 <= i < |s| && s[i] == y;
  }

  lemma SortedDescTail<T>(s: seq<T>, score: T -> real)
    requires SortedDesc(s, score) && s != []
    ensures SortedDesc(s[1..], score)
  {
    forall i, j | 0 <= i < j < |s| - 1 ensures score(s[1..][i]) >= score(s[1..][j]) {
      assert s[1..][i] == s[i + 1] && s[1..][j] == s[j + 1];
    }
  }

  /** An element scoring at least every element of a descending list heads
      a descending list. */
  lemma SortedDescCons<T>(h: T, t: seq<T>, score: T -> real)
    requires SortedDesc(t, score) && forall y :: y in t ==> score(h) >= score(y)
    ensures SortedDesc([h] + t, score)
  {
    var r := [h] + t;
    forall i, j | 0 <= i < j < |r| ensures score(r[i]) >= score(r[j]) {
      assert r[j] == t[j - 1];
      if i > 0 {
        assert r[i] == t[i - 1];
      }
    }
  }

  /** Inserting `x` in front of the elements it does not follow keeps, among
      the elements of any one score, `x` first and the rest in order. */
  lemma {:induction false} InsertDescStable<T>(x: T, s: seq<T>, score: T -> real, v: real)
    requires SortedDesc(s, score)
    ensures WithScore(InsertDesc(x, s, score), score, v) == WithScore([x] + s, score, v)
  {
    if s != [] && score(s[0]) > score(x) {
      SortedDescTail(s, score);
      InsertDescStable(x, s[1..], score, v);
      var t := InsertDesc(x, s[1..], score);
      var a := if score(s[0]) == v then [s[0]] else [];
      var b := if score(x) == v then [x] else [];
      var w := WithScore(s[1..], score, v);
      assert InsertDesc(x, s, score) == [s[0]] + t;
      WithScoreCons(s[0], t, score, v);
      WithScoreCons(x, s[1..], score, v);
      assert WithScore(InsertDesc(x, s, score), score, v) == a + (b + w);
      assert [s[0]] + s[1..] == s;
      WithScoreCons(s[0], s[1..], score, v);
      WithScoreCons(x, s, score, v);
      assert WithScore([x] + s, score, v) == b + (a + w);
      assert a == [] || b == [];
    }
  }

  lemma WithScoreCons<T>(x: T, s: seq<T>, score: T -> real, v: real)
    ensures WithScore([x] + s, score, v) == (if score(x) == v then [x] else []) + WithScore(s, score, v)
  {
    assert ([x] + s)[1..] == s;
  }

  /** Python `xs.sort(key=score, reverse=True)`: descending and stable. */
  function SortDesc<T>(xs: seq<T>, score: T -> real): (r: seq<T>)
    ensures SortedDesc(r, score)
    ensures multiset(r) == multiset(xs)
    ensures forall v :: WithScore(r, score, v) == WithScore(xs, score, v)
  {
    if xs == [] then []
    else
      var rest := SortDesc(xs[1..], score);
      assert xs == [xs[0]] + xs[1..];
      InsertDescSorted(xs[0], rest, score);
      forall v ensures WithScore(InsertDesc(xs[0], rest, score), score, v) == WithScore(xs, score, v) {
        InsertDescStable(xs[0], rest, score, v);
      }
      InsertDesc(xs[0], rest, score)
  }
}
