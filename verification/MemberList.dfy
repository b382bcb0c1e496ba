/** The duplicate check of the member form: sort in place, then compare neighbours. */
module MemberList {
  import opened Grouping
  import opened Sequences
  import opened Sorting

  datatype Member = Member(accountId: string, roles: seq<string>)

  function ById(leq: (string, string) -> bool): (Member, Member) -> bool {
    (a: Member, b: Member) => leq(a.accountId, b.accountId)
  }

  function Ids(s: seq<Member>): (r: set<string>)
    ensures forall x :: x in r <==> exists i :: 0 <= i < |s| && s[i].accountId == x
  {
    if s == [] then {} else Ids(s[..|s| - 1]) + {s[|s| - 1].accountId}
  }

  predicate RepeatsAt(s: seq<Member>, p: int) {
    1 <= p < |s| && s[p].accountId == s[p - 1].accountId
  }

  /** The positions that repeat the id just before them. */
  function Repeats(s: seq<Member>): (r: seq<nat>)
    ensures forall p: nat :: p in r <==> RepeatsAt(s, p)
    ensures forall i, j :: 0 <= i < j < |r| ==> r[i] < r[j]
  {
    if |s| < 2 then []
    else
      var n := |s| - 1;
      var before := Repeats(s[..n]);
      assert forall p: nat :: RepeatsAt(s, p) <==> RepeatsAt(s[..n], p) || (p == n && RepeatsAt(s, n));
      assert forall i :: 0 <= i < |before| ==> before[i] in before;
      before + (if s[n].accountId == s[n - 1].accountId then [n] else [])
  }

  /** No id comes back after a different one. */
  ghost predicate Contiguous(s: seq<Member>) {
    forall i, j, k :: 0 <= i < j < k < |s| && s[i].accountId == s[k].accountId ==> s[j].accountId == s[i].accountId
  }

  ghost predicate HasDuplicate(s: seq<Member>) {
    exists i, j :: 0 <= i < j < |s| && s[i].accountId == s[j].accountId
  }

  /** `data.sort(...)`: the array holds the stable arrangement afterwards. */
  method SortInPlace(data: array<Member>, cmp: (Member, Member) -> bool)
    modifies data
    ensures data[..] == StableSort(cmp, old(data[..]))
  {
    var sorted := StableSort(cmp, data[..]);
    forall i | 0 <= i < data.Length {
      data[i] := sorted[i];
    }
  }

  /** `issues` are the positions reported with the duplicate-address message. */
  method CheckDuplicates(data: array<Member>, leq: (string, string) -> bool) returns (issues: seq<nat>)
    modifies data
    ensures data[..] == StableSort(ById(leq), old(data[..]))
    ensures issues == Repeats(data[..])
  {
    SortInPlace(data, ById(leq));
    issues := [];
    for index := 0 to data.Length
      invariant data[..] == StableSort(ById(leq), old(data[..]))
      invariant index < data.Length ==> issues == Repeats(data[..index + 1])
      invariant index == data.Length ==> issues == Repeats(data[..])
    {
      if index < data.Length - 1 {
        assert data[..index + 2][..index + 1] == data[..index + 1];
        if data[index].accountId == data[index + 1].accountId {
          issues := issues + [index + 1];
        }
      } else {
        assert data[..index + 1] == data[..];
      }
    }
  }

  lemma AddToSet<T>(ids: set<T>, x: T)
    ensures |ids + {x}| == |ids| + (if x in ids then 0 else 1)
  {
    if x in ids {
      assert ids + {x} == ids;
    }
  }

  lemma LastStep(s: seq<Member>, n: nat)
    requires |s| == n + 1
    ensures |Ids(s)| == |Ids(s[..n])| + (if s[n].accountId in Ids(s[..n]) then 0 else 1)
    ensures |Repeats(s)| == |Repeats(s[..n])| + (if RepeatsAt(s, n) then 1 else 0)
  {
    AddToSet(Ids(s[..n]), s[n].accountId);
  }

  /** There are at most as many issues as surplus members, and exactly as many when equal ids stand together. */
  lemma {:induction false} RepeatsCount(s: seq<Member>)
    ensures |Repeats(s)| <= |s| - |Ids(s)|
    ensures |Repeats(s)| == |s| - |Ids(s)| <==> Contiguous(s)
  {
    if s != [] {
      var n := |s| - 1;
      RepeatsCount(s[..n]);
      LastStep(s, n);
      if |s| > 1 {
        ContiguousPrefix(s, n);
      }
    }
  }

  lemma ContiguousPrefix(s: seq<Member>, n: nat)
    requires |s| == n + 1 && 1 <= n
    ensures Contiguous(s) <==> Contiguous(s[..n]) && (s[n].accountId in Ids(s[..n]) ==> RepeatsAt(s, n))
    ensures RepeatsAt(s, n) ==> s[n].accountId in Ids(s[..n])
  {
    assert s[..n][n - 1] == s[n - 1];
    if Contiguous(s) {
      ContiguousDown(s, n);
    }
    if Contiguous(s[..n]) && (s[n].accountId in Ids(s[..n]) ==> RepeatsAt(s, n)) {
      ContiguousUp(s, n);
    }
  }

  lemma ContiguousDown(s: seq<Member>, n: nat)
    requires |s| == n + 1 && 1 <= n && Contiguous(s)
    ensures Contiguous(s[..n]) && (s[n].accountId in Ids(s[..n]) ==> RepeatsAt(s, n))
  {
    var p := s[..n];
    assert forall i :: 0 <= i < n ==> p[i] == s[i];
    if s[n].accountId in Ids(p) {
      var i :| 0 <= i < n && p[i].accountId == s[n].accountId;
      assert i < n - 1 ==> s[n - 1].accountId == s[i].accountId;
    }
  }

  lemma ContiguousUp(s: seq<Member>, n: nat)
    requires |s| == n + 1 && 1 <= n && Contiguous(s[..n]) && (s[n].accountId in Ids(s[..n]) ==> RepeatsAt(s, n))
    ensures Contiguous(s)
  {
    var p := s[..n];
    assert forall i :: 0 <= i < n ==> p[i] == s[i];
    forall i, j, k | 0 <= i < j < k < |s| && s[i].accountId == s[k].accountId
      ensures s[j].accountId == s[i].accountId
    {
      if k == n {
        assert p[i].accountId in Ids(p);
        assert p[i].accountId == p[n - 1].accountId;
      } else {
        assert p[k] == s[k];
      }
    }
  }

  // ---------------------------------------------------------------------------
  // How often an id occurs.
  // ---------------------------------------------------------------------------

  function IdOf(m: Member): string { m.accountId }

  function One(m: Member): int { 1 }

  function Occurrences(s: seq<Member>, id: string): int {
    SumOfKey(s, IdOf, One, id)
  }

  lemma {:induction false} OccursAt(s: seq<Member>, i: nat)
    requires i < |s|
    ensures Occurrences(s, s[i].accountId) >= 1
    decreases |s|
  {
    var n := |s| - 1;
    OccursNonNegative(s[..n], s[i].accountId);
    if i < n {
      OccursAt(s[..n], i);
    }
  }

  lemma {:induction false} OccursNonNegative(s: seq<Member>, id: string)
    ensures Occurrences(s, id) >= 0
  {
    if s != [] {
      OccursNonNegative(s[..|s| - 1], id);
    }
  }

  lemma {:induction false} OccursTwice(s: seq<Member>, i: nat, j: nat)
    requires i < j < |s| && s[i].accountId == s[j].accountId
    ensures Occurrences(s, s[i].accountId) >= 2
    decreases |s|
  {
    var n := |s| - 1;
    if j < n {
      OccursTwice(s[..n], i, j);
      OccursNonNegative(s[..n], s[i].accountId);
    } else {
      OccursAt(s[..n], i);
    }
  }

  lemma {:induction false} FindOne(s: seq<Member>, id: string) returns (i: nat)
    requires Occurrences(s, id) >= 1
    ensures i < |s| && s[i].accountId == id
  {
    var n := |s| - 1;
    if s[n].accountId == id {
      i := n;
    } else {
      i := FindOne(s[..n], id);
    }
  }

  lemma {:induction false} FindTwo(s: seq<Member>, id: string) returns (i: nat, j: nat)
    requires Occurrences(s, id) >= 2
    ensures i < j < |s| && s[i].accountId == s[j].accountId == id
  {
    var n := |s| - 1;
    if s[n].accountId == id {
      i := FindOne(s[..n], id);
      j := n;
    } else {
      i, j := FindTwo(s[..n], id);
    }
  }

  lemma SortedContiguous(leq: (string, string) -> bool, s: seq<Member>)
    requires TotalPreorder(leq) && Sorted(ById(leq), s) && RepeatedIdsSeparate(leq, s)
    ensures Contiguous(s)
  {
    var cmp := ById(leq);
    forall i, j, k | 0 <= i < j < k < |s| && s[i].accountId == s[k].accountId
      ensures s[j].accountId == s[i].accountId
    {
      assert cmp(s[i], s[j]) && cmp(s[j], s[k]);
      assert Ties(leq, s[i].accountId, s[j].accountId);
      OccursTwice(s, i, k);
      assert s[i].accountId in Ids(s) && s[j].accountId in Ids(s);
    }
  }

  lemma RepeatIffDuplicate(s: seq<Member>)
    ensures Repeats(s) != [] ==> HasDuplicate(s)
    ensures Contiguous(s) && HasDuplicate(s) ==> Repeats(s) != []
  {
    RepeatsCount(s);
    DuplicateIff(s);
  }

  /** Sorting moves members but neither their ids nor whether two share one. */
  lemma SortKeepsIds(leq: (string, string) -> bool, s: seq<Member>)
    ensures var t := StableSort(ById(leq), s);
            Ids(t) == Ids(s) && |t| == |s| && (HasDuplicate(t) <==> HasDuplicate(s))
  {
    var t := StableSort(ById(leq), s);
    SameIds(s, t);
    SameIds(t, s);
    DuplicateIff(s);
    DuplicateIff(t);
  }

  lemma SameIds(s: seq<Member>, t: seq<Member>)
    requires multiset(s) == multiset(t)
    ensures Ids(s) <= Ids(t)
  {
    forall i | 0 <= i < |s| ensures s[i].accountId in Ids(t) {
      assert s[i] in multiset(t);
      var j :| 0 <= j < |t| && t[j] == s[i];
    }
  }

  /** No id that occurs at least twice ties with a different id of the list. */
  ghost predicate RepeatedIdsSeparate(leq: (string, string) -> bool, s: seq<Member>) {
    forall x, y :: x in Ids(s) && y in Ids(s) && Occurrences(s, x) >= 2 && Ties(leq, x, y) ==> x == y
  }

  lemma SeparateIgnoresOrder(leq: (string, string) -> bool, s: seq<Member>, t: seq<Member>)
    requires multiset(s) == multiset(t) && RepeatedIdsSeparate(leq, s)
    ensures RepeatedIdsSeparate(leq, t)
  {
    SameIds(s, t);
    SameIds(t, s);
    forall x ensures Occurrences(s, x) == Occurrences(t, x) {
      SumOfKeyOrderFree(s, t, IdOf, One, x);
    }
  }

  lemma DuplicateStep(s: seq<Member>, n: nat)
    requires |s| == n + 1
    ensures HasDuplicate(s) <==> HasDuplicate(s[..n]) || s[n].accountId in Ids(s[..n])
  {
    var p := s[..n];
    if HasDuplicate(p) {
      var i, j :| 0 <= i < j < |p| && p[i].accountId == p[j].accountId;
      assert s[i].accountId == s[j].accountId;
    } else if s[n].accountId in Ids(p) {
      var i :| 0 <= i < |p| && p[i].accountId == s[n].accountId;
      assert s[i].accountId == s[n].accountId;
    }
    if HasDuplicate(s) {
      var i, j :| 0 <= i < j < |s| && s[i].accountId == s[j].accountId;
      assert p[i] == s[i];
      if j < n {
        assert p[j] == s[j];
      }
    }
  }

  /** Two members share an id exactly when there are fewer ids than members. */
  lemma {:induction false} DuplicateIff(s: seq<Member>)
    ensures HasDuplicate(s) <==> |Ids(s)| < |s|
    ensures |Ids(s)| <= |s|
  {
    if s != [] {
      var n := |s| - 1;
      DuplicateIff(s[..n]);
      LastStep(s, n);
      DuplicateStep(s, n);
    }
  }

  /** One issue for every member beyond the first of its id. */
  predicate Exact(leq: (string, string) -> bool, members: seq<Member>) {
    |Repeats(StableSort(ById(leq), members))| == |members| - |Ids(members)|
  }

  /** The check is exact exactly when the sorted members have equal ids together; it then finds every duplicate. */
  lemma ExactIffContiguous(leq: (string, string) -> bool, members: seq<Member>)
    ensures Exact(leq, members) <==> Contiguous(StableSort(ById(leq), members))
    ensures Exact(leq, members) ==> (Repeats(StableSort(ById(leq), members)) != [] <==> HasDuplicate(members))
  {
    var t := StableSort(ById(leq), members);
    SortKeepsIds(leq, members);
    RepeatIffDuplicate(t);
    RepeatsCount(t);
  }

  /**
   * When no repeated id ties with another id, an issue is raised exactly when two members share an id, one per surplus
   * member.
   */
  lemma CheckIsExact(leq: (string, string) -> bool, members: seq<Member>)
    requires TotalPreorder(leq) && RepeatedIdsSeparate(leq, members)
    ensures var issues := Repeats(StableSort(ById(leq), members));
            && (issues != [] <==> HasDuplicate(members))
            && |issues| == |members| - |Ids(members)|
  {
    var cmp := ById(leq);
    var t := StableSort(cmp, members);
    ByIdTotal(leq);
    StableSortSorted(cmp, members);
    SeparateIgnoresOrder(leq, members, t);
    SortedContiguous(leq, t);
    ExactIffContiguous(leq, members);
  }

  ghost predicate ExactInEveryOrder(leq: (string, string) -> bool, members: seq<Member>) {
    forall t :: multiset(t) == multiset(members) ==> Exact(leq, t)
  }

  /**
   * The check is exact for every order of the members exactly when no id that occurs at least twice ties with a
   * different id of the list.
   */
  lemma ExactInEveryOrderIff(leq: (string, string) -> bool, members: seq<Member>)
    requires TotalPreorder(leq)
    ensures ExactInEveryOrder(leq, members) <==> RepeatedIdsSeparate(leq, members)
  {
    if RepeatedIdsSeparate(leq, members) {
      forall t | multiset(t) == multiset(members) ensures Exact(leq, t) {
        SeparateIgnoresOrder(leq, members, t);
        CheckIsExact(leq, t);
      }
    }
    if ExactInEveryOrder(leq, members) {
      forall x, y | x in Ids(members) && y in Ids(members) && Occurrences(members, x) >= 2 && Ties(leq, x, y)
        ensures x == y
      {
        if x != y {
          var t := TiedBetween(leq, members, x, y);
        }
      }
    }
  }

  /** Put a member with the tied id between two members with the repeated one: no issue separates them after sorting. */
  lemma TiedBetween(leq: (string, string) -> bool, members: seq<Member>, x: string, y: string) returns (t: seq<Member>)
    requires TotalPreorder(leq) && x != y && Ties(leq, x, y)
    requires Occurrences(members, x) >= 2 && y in Ids(members)
    ensures multiset(t) == multiset(members) && !Exact(leq, t)
  {
    var k: nat :| k < |members| && members[k].accountId == y;
    var rest := Without(members, k);
    RemoveAt(members, k);
    SumOfKeyWithout(members, IdOf, One, x, k);
    var i, j := FindTwo(rest, x);
    var others := PairFirst(rest, i, j);
    var a, b, c := rest[i], members[k], rest[j];
    t := [a] + ([b] + ([c] + others));
    Rotated(a, b, c, others);
    assert multiset(t) == multiset{b} + multiset(rest);
    HiddenBetween(leq, a, b, c, others);
    ExactIffContiguous(leq, t);
  }

  lemma Rotated(a: Member, b: Member, c: Member, others: seq<Member>)
    ensures multiset([a] + ([b] + ([c] + others))) == multiset{b} + multiset([a] + ([c] + others))
  {
  }

  lemma HiddenBetween(leq: (string, string) -> bool, a: Member, b: Member, c: Member, others: seq<Member>)
    requires TotalPreorder(leq) && a.accountId == c.accountId != b.accountId && Ties(leq, a.accountId, b.accountId)
    ensures !Contiguous(StableSort(ById(leq), [a] + ([b] + ([c] + others))))
  {
    var cmp, members := ById(leq), [a] + ([b] + ([c] + others));
    var t := StableSort(cmp, members);
    ByIdTotal(leq);
    StableSortKeepsTies(cmp, a, members);
    TiedFirst(cmp, a, a, [b] + ([c] + others));
    TiedFirst(cmp, a, b, [c] + others);
    TiedFirst(cmp, a, c, others);
    var p, q, r := TiedAt(cmp, a, t, 0), TiedAt(cmp, a, t, 1), TiedAt(cmp, a, t, 2);
    TiedAtIncreases(cmp, a, t, 0, 1);
    TiedAtIncreases(cmp, a, t, 1, 2);
    assert t[p] == a && t[q] == b && t[r] == c;
  }

  lemma TiedFirst(cmp: (Member, Member) -> bool, k: Member, x: Member, xs: seq<Member>)
    requires Ties(cmp, k, x)
    ensures TiedWith(cmp, k, [x] + xs) == [x] + TiedWith(cmp, k, xs)
  {
    assert ([x] + xs)[1..] == xs;
  }

  lemma ByIdTotal(leq: (string, string) -> bool)
    requires TotalPreorder(leq)
    ensures TotalPreorder(ById(leq))
  {
    var cmp := ById(leq);
    forall p, q ensures cmp(p, q) || cmp(q, p) {
      assert leq(p.accountId, q.accountId) || leq(q.accountId, p.accountId);
    }
    forall p, q, r | cmp(p, q) && cmp(q, r) ensures cmp(p, r) {
      assert leq(p.accountId, q.accountId) && leq(q.accountId, r.accountId);
    }
  }

  /** For any comparator, an issue is always a real duplicate and issues never exceed the surplus members. */
  lemma CheckIsSound(leq: (string, string) -> bool, members: seq<Member>)
    ensures var issues := Repeats(StableSort(ById(leq), members));
            && (issues != [] ==> HasDuplicate(members))
            && |issues| <= |members| - |Ids(members)|
  {
    var t := StableSort(ById(leq), members);
    SortKeepsIds(leq, members);
    RepeatIffDuplicate(t);
    RepeatsCount(t);
  }

  /**
   * An instance, for any comparator that ties two different ids: a member between two of the other id hides the
   * duplicate.
   */
  lemma TiesCanHideDuplicates(leq: (string, string) -> bool, x: string, y: string)
    requires TotalPreorder(leq) && Ties(leq, x, y) && x != y
    ensures var members := [Member(x, []), Member(y, []), Member(x, [])];
            HasDuplicate(members) && Repeats(StableSort(ById(leq), members)) == []
  {
    var members := [Member(x, []), Member(y, []), Member(x, [])];
    assert members[0].accountId == members[2].accountId;
    assert leq(x, x);
    ByIdTotal(leq);
    SortUnmovedIff(ById(leq), members);
    assert forall p: nat :: !RepeatsAt(members, p);
    if Repeats(members) != [] {
      assert Repeats(members)[0] in Repeats(members);
    }
  }

  // ---------------------------------------------------------------------------
  // The reported positions are positions after sorting.
  // ---------------------------------------------------------------------------

  /** Members entered in sorted order stay where they are, and only then; the reported positions are then their own. */
  lemma PositionsWhenSorted(leq: (string, string) -> bool, members: seq<Member>)
    requires TotalPreorder(leq)
    ensures StableSort(ById(leq), members) == members <==> Sorted(ById(leq), members)
    ensures Sorted(ById(leq), members) ==>
              forall p :: p in Repeats(StableSort(ById(leq), members)) <==> RepeatsAt(members, p)
  {
    ByIdTotal(leq);
    SortUnmovedIff(ById(leq), members);
  }

  /** An instance: of members a, b and a position 1 is reported, but the member entered there is no duplicate. */
  lemma ReportedPositionMoves(leq: (string, string) -> bool, a: string, b: string)
    requires TotalPreorder(leq) && leq(a, b) && !leq(b, a)
    ensures var members := [Member(a, []), Member(b, []), Member(a, [])];
            && Repeats(StableSort(ById(leq), members)) == [1]
            && Occurrences(members, members[1].accountId) == 1
  {
    var m, n := Member(a, []), Member(b, []);
    assert leq(a, a);
    ByIdTotal(leq);
    LastTwoSwap(ById(leq), m, n);
    OneRepeat(m, n);
    OccursBetween(m, n);
  }

  lemma LastTwoSwap(cmp: (Member, Member) -> bool, m: Member, n: Member)
    requires TotalPreorder(cmp) && cmp(m, n) && !cmp(n, m) && cmp(m, m)
    ensures StableSort(cmp, [m, n, m]) == [m, m, n]
  {
    var members, t := [m, n, m], [m, m, n];
    SortForgetsOrder(cmp, t, members);
    SortUnmovedIff(cmp, t);
  }

  lemma OneRepeat(m: Member, n: Member)
    requires m.accountId != n.accountId
    ensures Repeats([m, m, n]) == [1]
  {
    var t := [m, m, n];
    assert [m, m][..1] == [m];
    assert Repeats([m, m]) == [1];
    assert t[..2] == [m, m];
  }

  lemma OccursBetween(m: Member, n: Member)
    requires m.accountId != n.accountId
    ensures Occurrences([m, n, m], n.accountId) == 1
  {
    OccursStep([], m, n.accountId);
    OccursStep([m], n, n.accountId);
    OccursStep([m, n], m, n.accountId);
    assert [] + [m] == [m] && [m] + [n] == [m, n] && [m, n] + [m] == [m, n, m];
  }

  lemma OccursStep(s: seq<Member>, m: Member, id: string)
    ensures Occurrences(s + [m], id) == Occurrences(s, id) + if m.accountId == id then 1 else 0
  {
    assert (s + [m])[..|s|] == s;
  }
}
