/** The set similarity measures of the back end: the overlap coefficient,
    the Sørensen–Dice coefficient and the Jaccard index of two lists, each
    computed on the SETS of their elements, as exact ratios of cardinalities.
    Python raises `ZeroDivisionError` when a denominator is zero; here the
    result is then `None`. */
module SimilarityService {
  import opened Wrappers

  /** `set(a)`. */
  function Elements<T(==,!new)>(a: seq<T>): (s: set<T>)
    ensures forall x :: x in s <==> x in a
    ensures s == {} <==> a == []
  {
    var s := set x | x in a;
    assert a != [] ==> a[0] in s;
    s
  }

  function Min(x: nat, y: nat): nat {
    if x <= y then x else y
  }

  /** |A ∩ B| / min(|A|, |B|). */
  function OverlapCoefficient<T(==,!new)>(a: seq<T>, b: seq<T>): (r: Option<real>)
    ensures r.None? <==> a == [] || b == []
    ensures r.Some? ==> 0.0 <= r.value <= 1.0
  {
    var sa, sb := Elements(a), Elements(b);
    var m := Min(|sa|, |sb|);
    CommonBounds(sa, sb);
    if m == 0 then None
    else
      RatioBounds(|sa * sb|, m);
      Some(|sa * sb| as real / m as real)
  }

  /** 2·|A ∩ B| / (|A| + |B|). */
  function SorensenDice<T(==,!new)>(a: seq<T>, b: seq<T>): (r: Option<real>)
    ensures r.None? <==> a == [] && b == []
    ensures r.Some? ==> 0.0 <= r.value <= 1.0
  {
    var sa, sb := Elements(a), Elements(b);
    CommonBounds(sa, sb);
    if |sa| + |sb| == 0 then None
    else
      RatioBounds(2 * |sa * sb|, |sa| + |sb|);
      Some((2 * |sa * sb|) as real / (|sa| + |sb|) as real)
  }

  /** |A ∩ B| / |A ∪ B|. */
  function Jaccard<T(==,!new)>(a: seq<T>, b: seq<T>): (r: Option<real>)
    ensures r.None? <==> a == [] && b == []
    ensures r.Some? ==> 0.0 <= r.value <= 1.0
  {
    var sa, sb := Elements(a), Elements(b);
    CommonBounds(sa, sb);
    if |sa + sb| == 0 then None
    else
      RatioBounds(|sa * sb|, |sa + sb|);
      Some(|sa * sb| as real / |sa + sb| as real)
  }

  /** The common elements are no more than either side, and the union is at
      least either side. */
  lemma CommonBounds<T(!new)>(sa: set<T>, sb: set<T>)
    ensures |sa * sb| <= |sa| && |sa * sb| <= |sb|
    ensures |sa| <= |sa + sb| && |sb| <= |sa + sb|
    ensures sa + sb == {} <==> sa == {} && sb == {}
  {
    assert sa == (sa - sb) + (sa * sb);
    assert sb == (sb - sa) + (sa * sb);
    assert sa + sb == (sa - sb) + sb;
    assert sa + sb == (sb - sa) + sa;
  }

  /** A ratio n / d with n ≤ d and d > 0 lies between 0 and 1. */
  lemma RatioBounds(n: nat, d: nat)
    requires 0 < d && n <= d
    ensures 0.0 <= n as real / d as real <= 1.0
  {
    assert n as real <= d as real;
  }

  /** A ratio r = n / d with n ≤ d and d > 0 is 1 exactly when n = d. */
  lemma RatioOne(n: nat, d: nat)
    requires 0 < d
    ensures n as real / d as real == 1.0 <==> n == d
  {
  }

  // ---------------------------------------------------------------------
  // Properties

  /** The measures see only the sets of elements: repeating or reordering
      elements changes nothing. */
  lemma {:induction false} DuplicatesIgnored<T(!new)>(a: seq<T>, a': seq<T>, b: seq<T>, b': seq<T>)
    requires forall x :: x in a <==> x in a'
    requires forall x :: x in b <==> x in b'
    ensures OverlapCoefficient(a, b) == OverlapCoefficient(a', b')
    ensures SorensenDice(a, b) == SorensenDice(a', b')
    ensures Jaccard(a, b) == Jaccard(a', b')
  {
    assert Elements(a) == Elements(a');
    assert Elements(b) == Elements(b');
  }

  /** All three measures are symmetric. */
  lemma Symmetric<T(!new)>(a: seq<T>, b: seq<T>)
    ensures OverlapCoefficient(a, b) == OverlapCoefficient(b, a)
    ensures SorensenDice(a, b) == SorensenDice(b, a)
    ensures Jaccard(a, b) == Jaccard(b, a)
  {
    var sa, sb := Elements(a), Elements(b);
    assert sa * sb == sb * sa;
    assert sa + sb == sb + sa;
  }

  /** A non-empty list is fully similar to itself under every measure. */
  lemma {:induction false} IdenticalIsOne<T(!new)>(a: seq<T>)
    requires a != []
    ensures OverlapCoefficient(a, a) == Some(1.0)
    ensures SorensenDice(a, a) == Some(1.0)
    ensures Jaccard(a, a) == Some(1.0)
  {
    var s := Elements(a);
    assert s * s == s && s + s == s;
    RatioOne(|s|, |s|);
    RatioOne(2 * |s|, |s| + |s|);
  }

  /** Lists with no element in common have similarity 0 whenever the
      measure is defined. */
  lemma {:induction false} DisjointIsZero<T(!new)>(a: seq<T>, b: seq<T>)
    requires forall x :: x in a ==> x !in b
    ensures a != [] && b != [] ==> OverlapCoefficient(a, b) == Some(0.0)
    ensures a != [] || b != [] ==> SorensenDice(a, b) == Some(0.0)
    ensures a != [] || b != [] ==> Jaccard(a, b) == Some(0.0)
  {
    var sa, sb := Elements(a), Elements(b);
    assert sa * sb == {};
    assert |sa * sb| == 0;
    CommonBounds(sa, sb);
  }

  /** A measure is 1 only when the sets are equal (Dice, Jaccard) or one
      contains the other (overlap). */
  lemma {:induction false} OneMeansSameSets<T(!new)>(a: seq<T>, b: seq<T>)
    ensures Jaccard(a, b) == Some(1.0) ==> Elements(a) == Elements(b)
    ensures SorensenDice(a, b) == Some(1.0) ==> Elements(a) == Elements(b)
    ensures OverlapCoefficient(a, b) == Some(1.0) ==>
              Elements(a) <= Elements(b) || Elements(b) <= Elements(a)
  {
    var sa, sb := Elements(a), Elements(b);
    CommonBounds(sa, sb);
    var i := |sa * sb|;
    if Jaccard(a, b) == Some(1.0) {
      RatioOne(i, |sa + sb|);
      SameSizeSubset(sa * sb, sa + sb);
      assert sa == sb by {
        forall x | x in sa + sb ensures x in sa && x in sb {
          assert x in sa * sb;
        }
      }
    }
    if SorensenDice(a, b) == Some(1.0) {
      RatioOne(2 * i, |sa| + |sb|);
      SameSizeSubset(sa * sb, sa);
      SameSizeSubset(sa * sb, sb);
    }
    if OverlapCoefficient(a, b) == Some(1.0) {
      RatioOne(i, Min(|sa|, |sb|));
      if |sa| <= |sb| {
        SameSizeSubset(sa * sb, sa);
      } else {
        SameSizeSubset(sa * sb, sb);
      }
    }
  }

  /** A subset as large as its superset is the superset. */
  lemma SameSizeSubset<T(!new)>(s: set<T>, t: set<T>)
    requires s <= t && |s| == |t|
    ensures s == t
  {
    assert t == s + (t - s);
    assert |t - s| == 0;
  }
}
