/** Filtering, sums and arrangements of sequences. */
module Sequences {

  lemma SameLength<T>(a: seq<T>, b: seq<T>)
    requires multiset(a) == multiset(b)
    ensures |a| == |b|
  {
    assert |a| == |multiset(a)| && |b| == |multiset(b)|;
  }

  lemma SameMembers<T>(a: seq<T>, b: seq<T>)
    requires multiset(a) == multiset(b)
    ensures forall x :: x in a <==> x in b
  {
    forall x ensures x in a <==> x in b {
      assert x in multiset(a) <==> x in multiset(b);
    }
  }

  function Without<T>(t: seq<T>, p: nat): seq<T>
    requires p < |t|
  {
    t[..p] + t[p + 1..]
  }

  lemma RemoveAt<T>(t: seq<T>, p: nat)
    requires p < |t|
    ensures multiset(Without(t, p)) == multiset(t) - multiset{t[p]}
    ensures multiset([t[p]] + Without(t, p)) == multiset(t)
  {
    assert t == t[..p] + [t[p]] + t[p + 1..];
  }

  /** The last element of one arrangement can be removed from another. */
  lemma DropLast<T>(a: seq<T>, b: seq<T>) returns (p: nat)
    requires multiset(a) == multiset(b) && a != []
    ensures p < |b| && b[p] == a[|a| - 1] && multiset(a[..|a| - 1]) == multiset(Without(b, p))
  {
    var n := |a| - 1;
    SameMembers(a, b);
    assert a[n] in b;
    p :| p < |b| && b[p] == a[n];
    RemoveAt(a, n);
    RemoveAt(b, p);
    assert Without(a, n) == a[..n];
  }

  /** Any two elements can be moved to the front, in either order. */
  lemma PairFirst<T>(s: seq<T>, i: nat, j: nat) returns (others: seq<T>)
    requires i < j < |s|
    ensures multiset([s[i]] + ([s[j]] + others)) == multiset(s)
    ensures multiset([s[j]] + ([s[i]] + others)) == multiset(s)
  {
    others := s[..i] + s[i + 1..j] + s[j + 1..];
    assert s == s[..i] + [s[i]] + s[i + 1..j] + [s[j]] + s[j + 1..];
  }

  /** The elements worth keeping, in order. */
  function Filter<T>(s: seq<T>, keep: T -> bool): (r: seq<T>)
    ensures forall x :: x in r ==> x in s && keep(x)
    ensures forall x :: x in s && keep(x) ==> x in r
  {
    if s == [] then []
    else Filter(s[..|s| - 1], keep) + if keep(s[|s| - 1]) then [s[|s| - 1]] else []
  }

  function Sum<T>(s: seq<T>, amount: T -> int): int {
    if s == [] then 0 else Sum(s[..|s| - 1], amount) + amount(s[|s| - 1])
  }

  lemma {:induction false} SumAdds<T>(s: seq<T>, f: T -> int, g: T -> int, h: T -> int)
    requires forall x :: x in s ==> f(x) + g(x) == h(x)
    ensures Sum(s, f) + Sum(s, g) == Sum(s, h)
  {
    if s != [] {
      SumAdds(s[..|s| - 1], f, g, h);
      assert s[|s| - 1] in s;
    }
  }

  lemma {:induction false} SumAtMostLength<T>(s: seq<T>, f: T -> int)
    requires forall x :: x in s ==> f(x) <= 1
    ensures Sum(s, f) <= |s|
  {
    if s != [] {
      SumAtMostLength(s[..|s| - 1], f);
      assert s[|s| - 1] in s;
    }
  }

  function RealSum<T>(s: seq<T>, f: T -> real): real {
    if s == [] then 0.0 else RealSum(s[..|s| - 1], f) + f(s[|s| - 1])
  }

  lemma {:induction false} RealSumWithout<T>(s: seq<T>, f: T -> real, p: nat)
    requires p < |s|
    ensures RealSum(s, f) == RealSum(Without(s, p), f) + f(s[p])
  {
    var n := |s| - 1;
    if p == n {
      assert Without(s, p) == s[..n];
    } else {
      RealSumWithout(s[..n], f, p);
      assert Without(s, p)[..n - 1] == Without(s[..n], p);
    }
  }

  /** A sum does not depend on the order of its terms. */
  lemma {:induction false} RealSumOrderFree<T>(a: seq<T>, b: seq<T>, f: T -> real)
    requires multiset(a) == multiset(b)
    ensures RealSum(a, f) == RealSum(b, f)
  {
    SameLength(a, b);
    if a != [] {
      var p := DropLast(a, b);
      RealSumOrderFree(a[..|a| - 1], Without(b, p), f);
      RealSumWithout(b, f, p);
    }
  }

  /** Without negative terms, no term exceeds the sum. */
  lemma {:induction false} TermsWithinSum<T>(s: seq<T>, f: T -> real)
    requires forall x :: x in s ==> f(x) >= 0.0
    ensures 0.0 <= RealSum(s, f)
    ensures forall x :: x in s ==> f(x) <= RealSum(s, f)
  {
    if s != [] {
      var n := |s| - 1;
      TermsWithinSum(s[..n], f);
      assert s[n] in s;
      assert forall x :: x in s ==> x in s[..n] || x == s[n];
    }
  }

  ghost predicate Additive(share: real -> real) {
    share(0.0) == 0.0 && forall a, b :: share(a + b) == share(a) + share(b)
  }

  lemma {:induction false} RealSumMaps<T, U>(s: seq<T>, f: T -> real, t: seq<U>, g: U -> real, share: real -> real)
    requires |s| == |t| && Additive(share) && forall i :: 0 <= i < |s| ==> g(t[i]) == share(f(s[i]))
    ensures RealSum(t, g) == share(RealSum(s, f))
  {
    if s != [] {
      var n := |s| - 1;
      RealSumMaps(s[..n], f, t[..n], g, share);
      assert g(t[n]) == share(f(s[n]));
    }
  }
}
