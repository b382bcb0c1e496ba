/** Stable sorting by a caller-supplied comparator: what `Array.prototype.sort` and `sort_by` promise. */
module Sorting {
  import opened Sequences

  /** `leq(a, b)` stands for "the comparator does not put b before a". */
  ghost predicate TotalPreorder<T(!new)>(leq: (T, T) -> bool) {
    && (forall a, b :: leq(a, b) || leq(b, a))
    && (forall a, b, c :: leq(a, b) && leq(b, c) ==> leq(a, c))
  }

  ghost predicate Sorted<T>(leq: (T, T) -> bool, s: seq<T>) {
    forall i, j :: 0 <= i < j < |s| ==> leq(s[i], s[j])
  }

  predicate Ties<T>(leq: (T, T) -> bool, a: T, b: T) {
    leq(a, b) && leq(b, a)
  }

  function Insert<T>(leq: (T, T) -> bool, x: T, s: seq<T>): (r: seq<T>)
    ensures multiset(r) == multiset{x} + multiset(s)
    ensures |r| == |s| + 1
  {
    if s == [] || leq(x, s[0]) then [x] + s
    else
      assert s == [s[0]] + s[1..];
      [s[0]] + Insert(leq, x, s[1..])
  }

  function StableSort<T>(leq: (T, T) -> bool, s: seq<T>): (r: seq<T>)
    ensures multiset(r) == multiset(s)
    ensures |r| == |s|
  {
    if s == [] then []
    else
      assert s == [s[0]] + s[1..];
      Insert(leq, s[0], StableSort(leq, s[1..]))
  }

  /** The elements of `s` that tie with `x`, in order. */
  function TiedWith<T>(leq: (T, T) -> bool, x: T, s: seq<T>): (r: seq<T>) {
    if s == [] then []
    else (if Ties(leq, x, s[0]) then [s[0]] else []) + TiedWith(leq, x, s[1..])
  }

  lemma {:induction false} InsertSorted<T(!new)>(leq: (T, T) -> bool, x: T, s: seq<T>)
    requires TotalPreorder(leq) && Sorted(leq, s)
    ensures Sorted(leq, Insert(leq, x, s))
  {
    if s == [] || leq(x, s[0]) {
    } else {
      InsertSorted(leq, x, s[1..]);
      var rest := Insert(leq, x, s[1..]);
      forall j | 0 <= j < |rest| ensures leq(s[0], rest[j]) {
        assert rest[j] in multiset(rest);
        assert rest[j] in multiset{x} + multiset(s[1..]);
        assert rest[j] == x || rest[j] in s[1..];
      }
    }
  }

  lemma {:induction false} StableSortSorted<T(!new)>(leq: (T, T) -> bool, s: seq<T>)
    requires TotalPreorder(leq)
    ensures Sorted(leq, StableSort(leq, s))
  {
    if s != [] {
      StableSortSorted(leq, s[1..]);
      InsertSorted(leq, s[0], StableSort(leq, s[1..]));
    }
  }

  lemma {:induction false} InsertKeepsTies<T(!new)>(leq: (T, T) -> bool, k: T, x: T, s: seq<T>)
    requires TotalPreorder(leq)
    ensures TiedWith(leq, k, Insert(leq, x, s)) == (if Ties(leq, k, x) then [x] else []) + TiedWith(leq, k, s)
  {
    if s == [] || leq(x, s[0]) {
      assert ([x] + s)[1..] == s;
    } else {
      InsertKeepsTies(leq, k, x, s[1..]);
      var r := Insert(leq, x, s);
      assert r[1..] == Insert(leq, x, s[1..]);
    }
  }

  /** Stability: elements that tie keep the order they came in. */
  lemma {:induction false} StableSortKeepsTies<T(!new)>(leq: (T, T) -> bool, k: T, s: seq<T>)
    requires TotalPreorder(leq)
    ensures TiedWith(leq, k, StableSort(leq, s)) == TiedWith(leq, k, s)
  {
    if s != [] {
      StableSortKeepsTies(leq, k, s[1..]);
      InsertKeepsTies(leq, k, s[0], StableSort(leq, s[1..]));
    }
  }

  /** Two elements that the comparator ties are the same element. */
  ghost predicate SeparatesWithin<T>(leq: (T, T) -> bool, s: seq<T>) {
    forall i, j :: 0 <= i < |s| && 0 <= j < |s| && Ties(leq, s[i], s[j]) ==> s[i] == s[j]
  }

  lemma SortedHeadsTie<T(!new)>(leq: (T, T) -> bool, a: seq<T>, b: seq<T>)
    requires TotalPreorder(leq) && Sorted(leq, a) && Sorted(leq, b)
    requires multiset(a) == multiset(b) && a != [] && b != []
    ensures b[0] in a && Ties(leq, a[0], b[0])
  {
    assert a[0] in multiset(b) && b[0] in multiset(a);
    var i :| 0 <= i < |b| && b[i] == a[0];
    var j :| 0 <= j < |a| && a[j] == b[0];
    assert leq(b[0], b[i]) && leq(a[0], a[j]);
  }

  lemma DropHead<T>(a: seq<T>, b: seq<T>)
    requires multiset(a) == multiset(b) && a != [] && b != [] && a[0] == b[0]
    ensures multiset(a[1..]) == multiset(b[1..])
  {
    assert a == [a[0]] + a[1..] && b == [b[0]] + b[1..];
    assert multiset(a[1..]) == multiset(a) - multiset{a[0]};
    assert multiset(b[1..]) == multiset(b) - multiset{b[0]};
  }

  /** A sorted arrangement of a multiset is unique when ties are equalities. */
  lemma {:induction false} SortedUnique<T(!new)>(leq: (T, T) -> bool, a: seq<T>, b: seq<T>)
    requires TotalPreorder(leq) && Sorted(leq, a) && Sorted(leq, b)
    requires multiset(a) == multiset(b) && SeparatesWithin(leq, a)
    ensures a == b
  {
    SameLength(a, b);
    if a != [] {
      SortedHeadsTie(leq, a, b);
      var j :| 0 <= j < |a| && a[j] == b[0];
      assert a[0] == a[j];
      DropHead(a, b);
      assert SeparatesWithin(leq, a[1..]) by {
        forall i, j | 0 <= i < |a[1..]| && 0 <= j < |a[1..]| && Ties(leq, a[1..][i], a[1..][j])
          ensures a[1..][i] == a[1..][j]
        {
          assert Ties(leq, a[i + 1], a[j + 1]);
        }
      }
      SortedUnique(leq, a[1..], b[1..]);
    }
  }

  lemma SeparatesPermuted<T(!new)>(leq: (T, T) -> bool, a: seq<T>, b: seq<T>)
    requires SeparatesWithin(leq, a) && multiset(a) == multiset(b)
    ensures SeparatesWithin(leq, b)
    ensures forall x :: x in a <==> x in b
  {
    SameMembers(a, b);
    forall i, j | 0 <= i < |b| && 0 <= j < |b| && Ties(leq, b[i], b[j]) ensures b[i] == b[j] {
      assert b[i] in b && b[j] in b;
      var k :| 0 <= k < |a| && a[k] == b[i];
      var l :| 0 <= l < |a| && a[l] == b[j];
      assert Ties(leq, a[k], a[l]);
    }
  }

  /** Sorting forgets the input order when ties are equalities. */
  lemma SortForgetsOrder<T(!new)>(leq: (T, T) -> bool, a: seq<T>, b: seq<T>)
    requires TotalPreorder(leq) && multiset(a) == multiset(b) && SeparatesWithin(leq, a)
    ensures StableSort(leq, a) == StableSort(leq, b)
  {
    var sa, sb := StableSort(leq, a), StableSort(leq, b);
    StableSortSorted(leq, a);
    StableSortSorted(leq, b);
    SeparatesPermuted(leq, a, sa);
    SortedUnique(leq, sa, sb);
  }

  /** Sorting changes nothing exactly when the input is sorted already. */
  lemma {:induction false} SortUnmovedIff<T(!new)>(leq: (T, T) -> bool, s: seq<T>)
    requires TotalPreorder(leq)
    ensures StableSort(leq, s) == s <==> Sorted(leq, s)
  {
    StableSortSorted(leq, s);
    if s != [] && Sorted(leq, s) {
      SortUnmovedIff(leq, s[1..]);
    }
  }

  // ---------------------------------------------------------------------------
  // Positions of tied elements.
  // ---------------------------------------------------------------------------

  /** The position in `s` of the n-th element that ties with `k`. */
  function TiedAt<T>(leq: (T, T) -> bool, k: T, s: seq<T>, n: nat): (p: nat)
    requires n < |TiedWith(leq, k, s)|
    ensures p < |s| && s[p] == TiedWith(leq, k, s)[n]
  {
    if !Ties(leq, k, s[0]) then 1 + TiedAt(leq, k, s[1..], n)
    else if n == 0 then 0
    else 1 + TiedAt(leq, k, s[1..], n - 1)
  }

  lemma {:induction false} TiedAtIncreases<T>(leq: (T, T) -> bool, k: T, s: seq<T>, m: nat, n: nat)
    requires m < n < |TiedWith(leq, k, s)|
    ensures TiedAt(leq, k, s, m) < TiedAt(leq, k, s, n)
  {
    if !Ties(leq, k, s[0]) {
      TiedAtIncreases(leq, k, s[1..], m, n);
    } else if m > 0 {
      TiedAtIncreases(leq, k, s[1..], m - 1, n - 1);
    }
  }

  /** Some occurrence of `x` stands before some occurrence of `y`. */
  ghost predicate Before<T>(x: T, y: T, s: seq<T>) {
    exists i, j :: 0 <= i < j < |s| && s[i] == x && s[j] == y
  }

  lemma {:induction false} TiedMember<T>(leq: (T, T) -> bool, k: T, s: seq<T>, i: nat) returns (n: nat)
    requires i < |s| && Ties(leq, k, s[i])
    ensures n < |TiedWith(leq, k, s)| && TiedWith(leq, k, s)[n] == s[i]
  {
    if i == 0 {
      n := 0;
    } else {
      n := TiedMember(leq, k, s[1..], i - 1);
      n := if Ties(leq, k, s[0]) then n + 1 else n;
    }
  }

  lemma {:induction false} TiedBefore<T>(leq: (T, T) -> bool, k: T, s: seq<T>, i: nat, j: nat)
    requires i < j < |s| && Ties(leq, k, s[i]) && Ties(leq, k, s[j])
    ensures Before(s[i], s[j], TiedWith(leq, k, s))
  {
    var t, rest := TiedWith(leq, k, s), TiedWith(leq, k, s[1..]);
    if i == 0 {
      var n := TiedMember(leq, k, s[1..], j - 1);
      assert t[0] == s[0] && t[n + 1] == s[j];
    } else {
      TiedBefore(leq, k, s[1..], i - 1, j - 1);
      var m, n :| 0 <= m < n < |rest| && rest[m] == s[i] && rest[n] == s[j];
      var d := |t| - |rest|;
      assert t[m + d] == rest[m] && t[n + d] == rest[n];
    }
  }

  lemma BeforeInWhole<T>(leq: (T, T) -> bool, k: T, s: seq<T>, x: T, y: T)
    requires Before(x, y, TiedWith(leq, k, s))
    ensures Before(x, y, s)
  {
    var t := TiedWith(leq, k, s);
    var m, n :| 0 <= m < n < |t| && t[m] == x && t[n] == y;
    TiedAtIncreases(leq, k, s, m, n);
    assert s[TiedAt(leq, k, s, m)] == x && s[TiedAt(leq, k, s, n)] == y;
  }

  lemma StrictlyBefore<T>(leq: (T, T) -> bool, t: seq<T>, x: T, y: T)
    requires Sorted(leq, t) && x in t && y in t && leq(x, y) && !leq(y, x)
    ensures Before(x, y, t)
  {
    var p :| 0 <= p < |t| && t[p] == x;
    var q :| 0 <= q < |t| && t[q] == y;
    assert p <= q;
  }

  lemma TiedStaysBefore<T>(leq: (T, T) -> bool, s: seq<T>, t: seq<T>, i: nat, j: nat)
    requires i < j < |s| && Ties(leq, s[i], s[i]) && Ties(leq, s[i], s[j])
    requires TiedWith(leq, s[i], t) == TiedWith(leq, s[i], s)
    ensures Before(s[i], s[j], t)
  {
    TiedBefore(leq, s[i], s, i, j);
    BeforeInWhole(leq, s[i], t, s[i], s[j]);
  }

  /** Two elements in an order the comparator accepts are still in that order after sorting. */
  lemma SortKeepsOrder<T(!new)>(leq: (T, T) -> bool, s: seq<T>, i: nat, j: nat)
    requires TotalPreorder(leq) && i < j < |s| && leq(s[i], s[j])
    ensures Before(s[i], s[j], StableSort(leq, s))
  {
    if leq(s[j], s[i]) {
      assert leq(s[i], s[i]);
      StableSortKeepsTies(leq, s[i], s);
      TiedStaysBefore(leq, s, StableSort(leq, s), i, j);
    } else {
      StableSortSorted(leq, s);
      SameMembers(s, StableSort(leq, s));
      StrictlyBefore(leq, StableSort(leq, s), s[i], s[j]);
    }
  }

  // ---------------------------------------------------------------------------
  // When two comparators sort alike, and when two inputs sort alike.
  // ---------------------------------------------------------------------------

  /** The comparators decide every pair of the sequence, earlier element first, in the same way. */
  ghost predicate DecideAlike<T>(b: (T, T) -> bool, c: (T, T) -> bool, s: seq<T>) {
    forall i, j :: 0 <= i < j < |s| ==> (b(s[i], s[j]) <==> c(s[i], s[j]))
  }

  lemma {:induction false} InsertAlike<T>(b: (T, T) -> bool, c: (T, T) -> bool, x: T, s: seq<T>)
    requires forall y :: y in s ==> (b(x, y) <==> c(x, y))
    ensures Insert(b, x, s) == Insert(c, x, s)
  {
    if s != [] {
      assert s[0] in s;
      InsertAlike(b, c, x, s[1..]);
    }
  }

  lemma {:induction false} AlikeSorts<T(!new)>(b: (T, T) -> bool, c: (T, T) -> bool, s: seq<T>)
    requires DecideAlike(b, c, s)
    ensures StableSort(b, s) == StableSort(c, s)
  {
    if s != [] {
      AlikeSorts(b, c, s[1..]);
      SameMembers(s[1..], StableSort(b, s[1..]));
      InsertAlike(b, c, s[0], StableSort(b, s[1..]));
    }
  }

  lemma SortedDecides<T(!new)>(b: (T, T) -> bool, c: (T, T) -> bool, s: seq<T>, i: nat, j: nat)
    requires TotalPreorder(b) && TotalPreorder(c) && StableSort(b, s) == StableSort(c, s)
    requires i < j < |s| && b(s[i], s[j])
    ensures c(s[i], s[j])
  {
    SortKeepsOrder(b, s, i, j);
    StableSortSorted(c, s);
  }

  /** Two comparators sort a sequence alike exactly when they decide its pairs alike. */
  lemma SortsAlikeIff<T(!new)>(b: (T, T) -> bool, c: (T, T) -> bool, s: seq<T>)
    requires TotalPreorder(b) && TotalPreorder(c)
    ensures StableSort(b, s) == StableSort(c, s) <==> DecideAlike(b, c, s)
  {
    if StableSort(b, s) == StableSort(c, s) {
      forall i, j | 0 <= i < j < |s| ensures b(s[i], s[j]) <==> c(s[i], s[j]) {
        if b(s[i], s[j]) {
          SortedDecides(b, c, s, i, j);
        } else if c(s[i], s[j]) {
          SortedDecides(c, b, s, i, j);
        }
      }
    }
    if DecideAlike(b, c, s) {
      AlikeSorts(b, c, s);
    }
  }

  /** Every class of tied elements is the same sequence in both. */
  ghost predicate SameTied<T(!new)>(leq: (T, T) -> bool, a: seq<T>, b: seq<T>) {
    forall k :: TiedWith(leq, k, a) == TiedWith(leq, k, b)
  }

  lemma HeadBelow<T(!new)>(leq: (T, T) -> bool, a: seq<T>, b: seq<T>)
    requires TotalPreorder(leq) && Sorted(leq, b) && SameTied(leq, a, b) && a != []
    ensures b != [] && leq(b[0], a[0])
  {
    assert leq(a[0], a[0]);
    assert TiedWith(leq, a[0], b) == TiedWith(leq, a[0], a);
    var p := TiedAt(leq, a[0], b, 0);
    assert b[p] == a[0];
  }

  lemma {:induction false} SortedSameTied<T(!new)>(leq: (T, T) -> bool, a: seq<T>, b: seq<T>)
    requires TotalPreorder(leq) && Sorted(leq, a) && Sorted(leq, b) && SameTied(leq, a, b)
    ensures a == b
  {
    if a == [] {
      if b != [] {
        HeadBelow(leq, b, a);
      }
    } else {
      HeadBelow(leq, a, b);
      HeadBelow(leq, b, a);
      assert Ties(leq, a[0], b[0]) && Ties(leq, a[0], a[0]);
      assert TiedWith(leq, a[0], a)[0] == a[0] && TiedWith(leq, a[0], b)[0] == b[0];
      assert TiedWith(leq, a[0], b) == TiedWith(leq, a[0], a);
      forall k ensures TiedWith(leq, k, a[1..]) == TiedWith(leq, k, b[1..]) {
        assert TiedWith(leq, k, a) == TiedWith(leq, k, b);
        var head := if Ties(leq, k, a[0]) then [a[0]] else [];
        assert TiedWith(leq, k, a)[|head|..] == TiedWith(leq, k, a[1..]);
        assert TiedWith(leq, k, b)[|head|..] == TiedWith(leq, k, b[1..]);
      }
      SortedSameTied(leq, a[1..], b[1..]);
      assert a == [a[0]] + a[1..] && b == [b[0]] + b[1..];
    }
  }

  /** Two sequences sort to the same one exactly when each class of tied elements stands in the same order in both. */
  lemma SortsEqualIff<T(!new)>(leq: (T, T) -> bool, a: seq<T>, b: seq<T>)
    requires TotalPreorder(leq)
    ensures StableSort(leq, a) == StableSort(leq, b) <==> SameTied(leq, a, b)
  {
    var sa, sb := StableSort(leq, a), StableSort(leq, b);
    StableSortSorted(leq, a);
    StableSortSorted(leq, b);
    forall k ensures TiedWith(leq, k, sa) == TiedWith(leq, k, a) && TiedWith(leq, k, sb) == TiedWith(leq, k, b) {
      StableSortKeepsTies(leq, k, a);
      StableSortKeepsTies(leq, k, b);
    }
    if SameTied(leq, a, b) {
      SortedSameTied(leq, sa, sb);
    }
  }
}
