/** Grouping the elements of a sequence by a key, for any key and any amount. */
module Grouping {
  import opened Sequences
  import opened Wrappers

  /** The keys in the order in which they first occur. */
  function Keys<T>(s: seq<T>, key: T -> string): (ks: seq<string>)
    ensures forall k :: k in ks <==> exists i :: 0 <= i < |s| && key(s[i]) == k
    ensures forall i, j :: 0 <= i < j < |ks| ==> ks[i] != ks[j]
  {
    if s == [] then []
    else
      var n := |s| - 1;
      var before := Keys(s[..n], key);
      assert forall i :: 0 <= i < n ==> s[..n][i] == s[i];
      if key(s[n]) in before then before else before + [key(s[n])]
  }

  /** The position of the first element with key `k`, or the length. */
  function FirstOf<T>(s: seq<T>, key: T -> string, k: string): (p: nat)
    ensures p <= |s| && (p < |s| ==> key(s[p]) == k)
    ensures forall i :: 0 <= i < p ==> key(s[i]) != k
  {
    if s == [] || key(s[0]) == k then 0 else 1 + FirstOf(s[1..], key, k)
  }

  function SumOfKey<T>(s: seq<T>, key: T -> string, amount: T -> int, k: string): int {
    if s == [] then 0
    else
      var n := |s| - 1;
      SumOfKey(s[..n], key, amount, k) + (if key(s[n]) == k then amount(s[n]) else 0)
  }

  /** The sums of the keys in `ks`. */
  function SumOfKeys<T>(s: seq<T>, key: T -> string, amount: T -> int, ks: seq<string>): int {
    if ks == [] then 0
    else SumOfKeys(s, key, amount, ks[..|ks| - 1]) + SumOfKey(s, key, amount, ks[|ks| - 1])
  }

  /** Keys are listed in the order of their first elements. */
  lemma {:induction false} KeysInOrder<T>(s: seq<T>, key: T -> string, i: nat, j: nat)
    requires i < j < |Keys(s, key)|
    ensures FirstOf(s, key, Keys(s, key)[i]) < FirstOf(s, key, Keys(s, key)[j]) < |s|
  {
    var n := |s| - 1;
    var ks, before := Keys(s, key), Keys(s[..n], key);
    assert ks[i] in ks && ks[j] in ks && before[i] == ks[i] && before[i] in before;
    FirstInPrefix(s, key, n, ks[i]);
    FirstInPrefix(s, key, n, ks[j]);
    if j < |before| {
      assert before[j] == ks[j] && before[j] in before;
      KeysInOrder(s[..n], key, i, j);
    }
  }

  lemma FirstInPrefix<T>(s: seq<T>, key: T -> string, n: nat, k: string)
    requires n < |s|
    ensures FirstOf(s[..n], key, k) < n ==> FirstOf(s, key, k) == FirstOf(s[..n], key, k)
    ensures FirstOf(s[..n], key, k) == n ==> n <= FirstOf(s, key, k)
  {
    var p, q := FirstOf(s[..n], key, k), FirstOf(s, key, k);
    assert forall i :: 0 <= i < n ==> s[..n][i] == s[i];
    assert q < n ==> key(s[..n][q]) == k || q == |s|;
    assert p < n ==> key(s[p]) == k;
  }

  /** One more element adds its amount to the sum of the listed keys exactly when its key is listed. */
  lemma {:induction false} OneMoreElement<T>(s: seq<T>, key: T -> string, amount: T -> int, ks: seq<string>)
    requires s != [] && forall i, j :: 0 <= i < j < |ks| ==> ks[i] != ks[j]
    ensures var n := |s| - 1;
            SumOfKeys(s, key, amount, ks)
            == SumOfKeys(s[..n], key, amount, ks) + (if key(s[n]) in ks then amount(s[n]) else 0)
    decreases |ks|
  {
    if ks != [] {
      OneMoreElement(s, key, amount, ks[..|ks| - 1]);
    }
  }

  lemma {:induction false} AbsentKey<T>(s: seq<T>, key: T -> string, amount: T -> int, k: string)
    requires forall i :: 0 <= i < |s| ==> key(s[i]) != k
    ensures SumOfKey(s, key, amount, k) == 0
  {
    if s != [] {
      AbsentKey(s[..|s| - 1], key, amount, k);
    }
  }

  /** The sums of any keys that cover the elements add up to the sum over all elements. */
  lemma {:induction false} CoveredGroups<T>(s: seq<T>, key: T -> string, amount: T -> int, ks: seq<string>)
    requires forall i, j :: 0 <= i < j < |ks| ==> ks[i] != ks[j]
    requires forall i :: 0 <= i < |s| ==> key(s[i]) in ks
    ensures SumOfKeys(s, key, amount, ks) == Sum(s, amount)
  {
    if s == [] {
      NothingToGroup(s, key, amount, ks);
    } else {
      CoveredGroups(s[..|s| - 1], key, amount, ks);
      OneMoreElement(s, key, amount, ks);
    }
  }

  lemma {:induction false} NothingToGroup<T>(s: seq<T>, key: T -> string, amount: T -> int, ks: seq<string>)
    requires s == []
    ensures SumOfKeys(s, key, amount, ks) == 0
  {
    if ks != [] {
      NothingToGroup(s, key, amount, ks[..|ks| - 1]);
    }
  }

  /** Conservation: the sums over all keys add up to the sum over all elements. */
  lemma GroupsConserve<T>(s: seq<T>, key: T -> string, amount: T -> int)
    ensures SumOfKeys(s, key, amount, Keys(s, key)) == Sum(s, amount)
  {
    CoveredGroups(s, key, amount, Keys(s, key));
  }

  /** What holds of every key's sum holds of the sum of all. */
  lemma {:induction false} SumOverKeys<T>(s: seq<T>, key: T -> string, amount: T -> int, ks: seq<string>,
                                          f: string -> int, g: string -> int)
    requires forall k :: k in ks ==> f(k) == SumOfKey(s, key, amount, k) + g(k)
    ensures Sum(ks, f) == SumOfKeys(s, key, amount, ks) + Sum(ks, g)
  {
    if ks != [] {
      SumOverKeys(s, key, amount, ks[..|ks| - 1], f, g);
      assert ks[|ks| - 1] in ks;
    }
  }

  /** Bounds on every key's sum bound the sum of all. */
  lemma {:induction false} SumOfKeysAtMost<T>(s: seq<T>, key: T -> string, amount: T -> int, ks: seq<string>,
                                              f: string -> int)
    requires forall k :: k in ks ==> SumOfKey(s, key, amount, k) <= f(k)
    ensures SumOfKeys(s, key, amount, ks) <= Sum(ks, f)
  {
    if ks != [] {
      SumOfKeysAtMost(s, key, amount, ks[..|ks| - 1], f);
      assert ks[|ks| - 1] in ks;
    }
  }

  lemma {:induction false} SumOfKeySplit<T>(a: seq<T>, b: seq<T>, key: T -> string, amount: T -> int, k: string)
    ensures SumOfKey(a + b, key, amount, k) == SumOfKey(a, key, amount, k) + SumOfKey(b, key, amount, k)
  {
    if b == [] {
      assert a + b == a;
    } else {
      var n := |b| - 1;
      SumOfKeySplit(a, b[..n], key, amount, k);
      assert (a + b)[..|a| + n] == a + b[..n];
    }
  }

  /** A key's sum does not depend on the order of the elements. */
  lemma {:induction false} SumOfKeyOrderFree<T>(s: seq<T>, t: seq<T>, key: T -> string, amount: T -> int, k: string)
    requires multiset(s) == multiset(t)
    ensures SumOfKey(s, key, amount, k) == SumOfKey(t, key, amount, k)
  {
    if s == [] {
      assert |multiset(t)| == 0;
      assert t == [];
    } else {
      var p := DropLast(s, t);
      SumOfKeyOrderFree(s[..|s| - 1], Without(t, p), key, amount, k);
      SumOfKeyWithout(t, key, amount, k, p);
    }
  }

  lemma SumOfKeyWithout<T>(t: seq<T>, key: T -> string, amount: T -> int, k: string, p: nat)
    requires p < |t|
    ensures SumOfKey(t, key, amount, k)
            == SumOfKey(Without(t, p), key, amount, k) + (if key(t[p]) == k then amount(t[p]) else 0)
  {
    assert t == t[..p + 1] + t[p + 1..];
    SumOfKeySplit(t[..p + 1], t[p + 1..], key, amount, k);
    SumOfKeySplit(t[..p], t[p + 1..], key, amount, k);
    assert t[..p + 1][..p] == t[..p];
  }

  /** What grouping makes of a key: its first element and the sum of its amounts. */
  datatype Group<T> = Group(first: T, sum: int)

  function GroupOf<T>(s: seq<T>, key: T -> string, amount: T -> int, k: string): Option<Group<T>> {
    var p := FirstOf(s, key, k);
    if p < |s| then Some(Group(s[p], SumOfKey(s, key, amount, k))) else None
  }

  lemma GroupIffKey<T>(s: seq<T>, key: T -> string, amount: T -> int, k: string)
    ensures k in Keys(s, key) <==> GroupOf(s, key, amount, k).Some?
  {
    var p := FirstOf(s, key, k);
    if k in Keys(s, key) {
      var i :| 0 <= i < |s| && key(s[i]) == k;
    }
    if p < |s| {
      assert key(s[p]) == k;
    }
  }

  /** One more element touches only the group of its own key. */
  lemma GroupOfNext<T>(s: seq<T>, key: T -> string, amount: T -> int, k: string, x: T)
    ensures GroupOf(s + [x], key, amount, k) ==
            var was := GroupOf(s, key, amount, k);
            if key(x) != k then was
            else if was.Some? then Some(was.value.(sum := was.value.sum + amount(x)))
            else Some(Group(x, amount(x)))
  {
    var t, n := s + [x], |s|;
    assert t[..n] == s;
    var p, q := FirstOf(s, key, k), FirstOf(t, key, k);
    FirstInPrefix(t, key, n, k);
    assert t[n] == x;
    assert SumOfKey(t, key, amount, k) == SumOfKey(s, key, amount, k) + (if key(x) == k then amount(x) else 0);
    if p < n {
      assert q == p && t[q] == s[p];
    } else {
      AbsentKey(s, key, amount, k);
      assert q == if key(x) == k then n else n + 1;
    }
  }
}
