/** Backfill of the `is_testing` flag of monitored accounts from explicit ids and policy members. */
module TestingBackfill {

  datatype AccountId = AccountId(name: string)

  /** Table `monitored_accounts`: the flag of every tracked DAO. */
  type Flags = map<AccountId, bool>

  /** What a run is given: policy members per DAO, the explicit ids and the testing accounts. */
  datatype Rules = Rules(members: map<AccountId, set<AccountId>>, explicitIds: set<AccountId>,
                         testingAccounts: set<AccountId>)
  {
    function MembersOf(dao: AccountId): set<AccountId> {
      if dao in members then members[dao] else {}
    }

    predicate ShouldMark(dao: AccountId) {
      dao in explicitIds || (MembersOf(dao) != {} && MembersOf(dao) <= testingAccounts)
    }
  }

  datatype Stats = Stats(explicitMarked: nat, explicitMissing: nat, policyMarked: nat, alreadyMarked: nat,
                         skipped: nat)
  {
    function Total(): nat { explicitMarked + explicitMissing + policyMarked + alreadyMarked + skipped }
  }

  function TurnedOn(m: Flags, ids: set<AccountId>): (n: Flags)
    ensures n.Keys == m.Keys
    ensures forall id :: id in m ==> (n[id] <==> m[id] || id in ids)
  {
    map id | id in m :: m[id] || id in ids
  }

  /** The ids of a table by flag and by rule. */
  datatype Split = Split(tracked: set<AccountId>, on: set<AccountId>, off: set<AccountId>, deserving: set<AccountId>)

  function SplitOf(m: Flags, r: Rules): (v: Split)
    ensures v.tracked == m.Keys && v.on !! v.off && v.tracked == v.on + v.off
    ensures forall id :: id in v.on <==> id in m && m[id]
    ensures forall id :: id in v.off <==> id in m && !m[id]
    ensures forall id :: id in v.deserving <==> id in m && r.ShouldMark(id)
  {
    Split(m.Keys, set id | id in m && m[id], set id | id in m && !m[id], set id | id in m && r.ShouldMark(id))
  }

  /** The counters `s` after the explicit ids in `ids` were handled against a table split as `v`. */
  function AfterExplicit(s: Stats, v: Split, ids: set<AccountId>): Stats {
    Stats(s.explicitMarked + |ids * v.off|, s.explicitMissing + |ids - v.tracked|, s.policyMarked,
          s.alreadyMarked + |ids * v.on|, s.skipped)
  }

  /** The counters `s` after the rows in `ids` of a table split as `v` were handled. */
  function AfterRows(s: Stats, v: Split, ids: set<AccountId>): Stats {
    Stats(s.explicitMarked, s.explicitMissing, s.policyMarked + |ids * (v.off * v.deserving)|,
          s.alreadyMarked + |ids * v.on|, s.skipped + |ids * (v.off - v.deserving)|)
  }

  /** Flags and counters after a whole run, read off the tables before it. */
  function FinalFlags(m: Flags, r: Rules): Flags {
    TurnedOn(m, r.explicitIds + SplitOf(m, r).deserving)
  }

  function FinalStats(m: Flags, r: Rules): Stats {
    var m1 := TurnedOn(m, r.explicitIds);
    AfterRows(AfterExplicit(Stats(0, 0, 0, 0, 0), SplitOf(m, r), r.explicitIds), SplitOf(m1, r), m.Keys)
  }

  // ---------------------------------------------------------------------------
  // One id at a time.
  // ---------------------------------------------------------------------------

  function ExplicitStep(s: Stats, tracked: bool, flag: bool): Stats {
    if !tracked then s.(explicitMissing := s.explicitMissing + 1)
    else if flag then s.(alreadyMarked := s.alreadyMarked + 1)
    else s.(explicitMarked := s.explicitMarked + 1)
  }

  function RowStep(s: Stats, flag: bool, should: bool): Stats {
    if flag then s.(alreadyMarked := s.alreadyMarked + 1)
    else if should then s.(policyMarked := s.policyMarked + 1)
    else s.(skipped := s.skipped + 1)
  }

  lemma OneMore<T>(done: set<T>, x: T, s: set<T>)
    requires x !in done
    ensures |(done + {x}) * s| == |done * s| + (if x in s then 1 else 0)
    ensures |(done + {x}) - s| == |done - s| + (if x in s then 0 else 1)
  {
    if x in s {
      assert (done + {x}) * s == done * s + {x};
      assert (done + {x}) - s == done - s;
    } else {
      assert (done + {x}) * s == done * s;
      assert (done + {x}) - s == (done - s) + {x};
    }
  }

  lemma OneMoreExplicit(s: Stats, v: Split, done: set<AccountId>, id: AccountId)
    requires id !in done && v.on !! v.off && v.tracked == v.on + v.off
    ensures AfterExplicit(s, v, done + {id}) == ExplicitStep(AfterExplicit(s, v, done), id in v.tracked, id in v.on)
  {
    OneMore(done, id, v.off);
    OneMore(done, id, v.on);
    OneMore(done, id, v.tracked);
  }

  lemma OneMoreRow(s: Stats, v: Split, done: set<AccountId>, id: AccountId)
    requires id !in done && v.on !! v.off && id in v.on + v.off
    ensures AfterRows(s, v, done + {id}) == RowStep(AfterRows(s, v, done), id in v.on, id in v.deserving)
  {
    OneMore(done, id, v.on);
    OneMore(done, id, v.off * v.deserving);
    OneMore(done, id, v.off - v.deserving);
  }

  /** `order` lists the ids of a set, each once: the order in which a loop meets them. */
  predicate Enumerates(order: seq<AccountId>, ids: set<AccountId>) {
    && (forall i, j :: 0 <= i < j < |order| ==> order[i] != order[j])
    && Elements(order) == ids
  }

  function Elements(order: seq<AccountId>): (e: set<AccountId>)
    ensures forall id :: id in e <==> id in order
  {
    if order == [] then {} else Elements(order[..|order| - 1]) + {order[|order| - 1]}
  }

  /** The counters after a loop has met the ids of `order` one after the other. */
  function ExplicitFold(s: Stats, m: Flags, order: seq<AccountId>): Stats {
    if order == [] then s
    else
      var id := order[|order| - 1];
      ExplicitStep(ExplicitFold(s, m, order[..|order| - 1]), id in m, id in m && m[id])
  }

  function RowFold(s: Stats, m: Flags, r: Rules, order: seq<AccountId>): Stats {
    if order == [] then s
    else
      var id := order[|order| - 1];
      RowStep(RowFold(s, m, r, order[..|order| - 1]), id in m && m[id], r.ShouldMark(id))
  }

  /** Whatever the order, the loop over the explicit ids counts the same. */
  lemma {:induction false} ExplicitFoldCounts(s: Stats, m: Flags, r: Rules, order: seq<AccountId>)
    requires Enumerates(order, Elements(order))
    ensures ExplicitFold(s, m, order) == AfterExplicit(s, SplitOf(m, r), Elements(order))
  {
    if order != [] {
      var n := |order| - 1;
      ExplicitFoldCounts(s, m, r, order[..n]);
      OneMoreExplicit(s, SplitOf(m, r), Elements(order[..n]), order[n]);
    }
  }

  lemma LastRow(order: seq<AccountId>, tracked: set<AccountId>)
    requires order != [] && Enumerates(order, Elements(order)) && Elements(order) <= tracked
    ensures var n := |order| - 1;
            && order[n] in tracked && order[n] !in Elements(order[..n])
            && Enumerates(order[..n], Elements(order[..n])) && Elements(order[..n]) <= tracked
  {
    assert order[|order| - 1] in Elements(order);
  }

  /** Whatever the order, the loop over the rows counts the same. */
  lemma {:induction false} RowFoldCounts(s: Stats, m: Flags, r: Rules, order: seq<AccountId>)
    requires Enumerates(order, Elements(order)) && Elements(order) <= m.Keys
    ensures RowFold(s, m, r, order) == AfterRows(s, SplitOf(m, r), Elements(order))
  {
    if order != [] {
      var n := |order| - 1;
      LastRow(order, m.Keys);
      RowFoldCounts(s, m, r, order[..n]);
      OneMoreRow(s, SplitOf(m, r), Elements(order[..n]), order[n]);
    }
  }

  lemma TurnedOnTwice(m: Flags, a: set<AccountId>, b: set<AccountId>)
    ensures TurnedOn(TurnedOn(m, a), b) == TurnedOn(m, a + b)
  {
  }

  // ---------------------------------------------------------------------------
  // The loops over the tables.
  // ---------------------------------------------------------------------------

  class BackfillStats {
    var explicitMarked: nat
    var explicitMissing: nat
    var policyMarked: nat
    var alreadyMarked: nat
    var skipped: nat

    constructor ()
      ensures Value() == Stats(0, 0, 0, 0, 0)
    {
      explicitMarked, explicitMissing, policyMarked, alreadyMarked, skipped := 0, 0, 0, 0, 0;
    }

    function Value(): Stats
      reads this
    {
      Stats(explicitMarked, explicitMissing, policyMarked, alreadyMarked, skipped)
    }
  }

  class Database {
    var isTesting: Flags

    /** `UPDATE ... SET is_testing = true WHERE account_id = $1 AND is_testing = false`. */
    method Mark(id: AccountId) returns (rowsAffected: nat)
      modifies this
      ensures rowsAffected == if id in old(isTesting) && !old(isTesting)[id] then 1 else 0
      ensures isTesting == TurnedOn(old(isTesting), {id})
    {
      if id in isTesting && !isTesting[id] {
        isTesting := isTesting[id := true];
        rowsAffected := 1;
      } else {
        rowsAffected := 0;
      }
    }
  }

  method MarkExplicitDao(db: Database, daoId: AccountId, stats: BackfillStats)
    modifies db, stats
    ensures db.isTesting == TurnedOn(old(db.isTesting), {daoId})
    ensures stats.Value() == ExplicitStep(old(stats.Value()), daoId in old(db.isTesting),
                                          daoId in old(db.isTesting) && old(db.isTesting)[daoId])
  {
    var rowsAffected := db.Mark(daoId);
    if rowsAffected > 0 {
      stats.explicitMarked := stats.explicitMarked + 1;
      return;
    }
    if daoId in db.isTesting {
      stats.alreadyMarked := stats.alreadyMarked + 1;
    } else {
      stats.explicitMissing := stats.explicitMissing + 1;
    }
  }

  /** An explicit id not handled yet still has its original flag. */
  lemma FlagUntouched(m: Flags, done: set<AccountId>, id: AccountId)
    ensures TurnedOn(m, done).Keys == m.Keys
    ensures id in m && id !in done ==> TurnedOn(m, done)[id] == m[id]
  {
  }

  method MarkExplicitDaos(db: Database, order: seq<AccountId>, stats: BackfillStats)
    requires Enumerates(order, Elements(order))
    modifies db, stats
    ensures db.isTesting == TurnedOn(old(db.isTesting), Elements(order))
    ensures stats.Value() == ExplicitFold(old(stats.Value()), old(db.isTesting), order)
  {
    ghost var m, s := db.isTesting, stats.Value();
    for i := 0 to |order|
      invariant db.isTesting == TurnedOn(m, Elements(order[..i]))
      invariant stats.Value() == ExplicitFold(s, m, order[..i])
    {
      assert order[..i + 1][..i] == order[..i];
      FlagUntouched(m, Elements(order[..i]), order[i]);
      TurnedOnTwice(m, Elements(order[..i]), {order[i]});
      MarkExplicitDao(db, order[i], stats);
    }
    assert order[..|order|] == order;
  }

  method BackfillRow(db: Database, r: Rules, daoId: AccountId, isTesting: bool, stats: BackfillStats)
    modifies db, stats
    ensures db.isTesting == (if !isTesting && r.ShouldMark(daoId) then TurnedOn(old(db.isTesting), {daoId})
                             else old(db.isTesting))
    ensures stats.Value() == RowStep(
              old(stats.Value()),
              isTesting || (r.ShouldMark(daoId) && !(daoId in old(db.isTesting) && !old(db.isTesting)[daoId])),
              r.ShouldMark(daoId))
  {
    if isTesting {
      stats.alreadyMarked := stats.alreadyMarked + 1;
      return;
    }
    if r.ShouldMark(daoId) {
      var rowsAffected := db.Mark(daoId);
      if rowsAffected > 0 {
        stats.policyMarked := stats.policyMarked + 1;
      } else {
        stats.alreadyMarked := stats.alreadyMarked + 1;
      }
    } else {
      stats.skipped := stats.skipped + 1;
    }
  }

  /** Handling one row of the table read before the loop. */
  lemma RowTurnedOn(m: Flags, r: Rules, done: set<AccountId>, id: AccountId, d: set<AccountId>)
    requires id in m && id !in done && d == SplitOf(m, r).deserving
    ensures (if !m[id] && r.ShouldMark(id) then TurnedOn(TurnedOn(m, done * d), {id}) else TurnedOn(m, done * d))
            == TurnedOn(m, (done + {id}) * d)
    ensures TurnedOn(m, done * d)[id] == m[id]
  {
  }

  lemma RowInOrder(s: Stats, m: Flags, r: Rules, order: seq<AccountId>, i: nat)
    requires Enumerates(order, m.Keys) && i < |order|
    ensures order[i] in m
    ensures var id, d, done := order[i], SplitOf(m, r).deserving, Elements(order[..i]);
            && TurnedOn(m, done * d)[id] == m[id]
            && TurnedOn(m, Elements(order[..i + 1]) * d)
               == (if !m[id] && r.ShouldMark(id) then TurnedOn(TurnedOn(m, done * d), {id}) else TurnedOn(m, done * d))
            && RowFold(s, m, r, order[..i + 1]) == RowStep(RowFold(s, m, r, order[..i]), m[id], r.ShouldMark(id))
  {
    assert order[..i + 1][..i] == order[..i];
    assert order[i] in Elements(order);
    RowTurnedOn(m, r, Elements(order[..i]), order[i], SplitOf(m, r).deserving);
  }

  /** The table after the rows in `done`, some of them turned on. */
  function AfterSome(m: Flags, r: Rules, done: set<AccountId>): Flags {
    TurnedOn(m, done * SplitOf(m, r).deserving)
  }

  lemma AfterAll(m: Flags, r: Rules, order: seq<AccountId>)
    requires Enumerates(order, m.Keys)
    ensures order[..|order|] == order
    ensures AfterSome(m, r, Elements(order)) == TurnedOn(m, SplitOf(m, r).deserving)
  {
    assert Elements(order) * SplitOf(m, r).deserving == SplitOf(m, r).deserving;
  }

  /** The loop body for the row numbered `i`. */
  method BackfillNext(db: Database, r: Rules, trackedRows: Flags, order: seq<AccountId>, i: nat, stats: BackfillStats,
                      ghost s: Stats)
    requires Enumerates(order, trackedRows.Keys) && i < |order|
    requires db.isTesting == AfterSome(trackedRows, r, Elements(order[..i]))
    requires stats.Value() == RowFold(s, trackedRows, r, order[..i])
    modifies db, stats
    ensures db.isTesting == AfterSome(trackedRows, r, Elements(order[..i + 1]))
    ensures stats.Value() == RowFold(s, trackedRows, r, order[..i + 1])
  {
    RowInOrder(s, trackedRows, r, order, i);
    BackfillRow(db, r, order[i], trackedRows[order[i]], stats);
  }

  /** `order` is the order of the tracked rows, which are read once, before the loop. */
  method BackfillFromPolicyMembers(db: Database, r: Rules, order: seq<AccountId>, stats: BackfillStats)
    requires Enumerates(order, db.isTesting.Keys)
    modifies db, stats
    ensures db.isTesting == TurnedOn(old(db.isTesting), SplitOf(old(db.isTesting), r).deserving)
    ensures stats.Value() == RowFold(old(stats.Value()), old(db.isTesting), r, order)
  {
    var trackedRows := db.isTesting;
    ghost var s := stats.Value();
    for i := 0 to |order|
      invariant db.isTesting == AfterSome(trackedRows, r, Elements(order[..i]))
      invariant stats.Value() == RowFold(s, trackedRows, r, order[..i])
    {
      BackfillNext(db, r, trackedRows, order, i, stats, s);
    }
    AfterAll(trackedRows, r, order);
  }

  method Backfill(db: Database, r: Rules, explicitOrder: seq<AccountId>, rowOrder: seq<AccountId>)
    returns (stats: BackfillStats)
    requires Enumerates(explicitOrder, r.explicitIds) && Enumerates(rowOrder, db.isTesting.Keys)
    modifies db
    ensures fresh(stats)
    ensures db.isTesting == FinalFlags(old(db.isTesting), r)
    ensures stats.Value() == FinalStats(old(db.isTesting), r)
  {
    stats := new BackfillStats();
    ghost var m := db.isTesting;
    MarkExplicitDaos(db, explicitOrder, stats);
    ExplicitFoldCounts(Stats(0, 0, 0, 0, 0), m, r, explicitOrder);
    ghost var s, m1 := stats.Value(), db.isTesting;
    SameDeserving(m, r, r.explicitIds);
    TurnedOnTwice(m, r.explicitIds, SplitOf(m, r).deserving);
    BackfillFromPolicyMembers(db, r, rowOrder, stats);
    RowFoldCounts(s, m1, r, rowOrder);
  }

  lemma SameDeserving(m: Flags, r: Rules, ids: set<AccountId>)
    ensures SplitOf(TurnedOn(m, ids), r).deserving == SplitOf(m, r).deserving
  {
  }

  // ---------------------------------------------------------------------------
  // What a run promises.
  // ---------------------------------------------------------------------------

  /** A flag is on afterwards exactly when it was on or the rules ask for it; nothing is ever turned off or added. */
  lemma FlagAfterIff(m: Flags, r: Rules, id: AccountId)
    ensures FinalFlags(m, r).Keys == m.Keys
    ensures id in m ==>
              (FinalFlags(m, r)[id] <==>
                 || m[id] || id in r.explicitIds
                 || (&& id in r.members && r.members[id] != {}
                     && forall a :: a in r.members[id] ==> a in r.testingAccounts))
  {
  }

  lemma Parts<T>(whole: set<T>, s: set<T>)
    ensures |whole| == |whole * s| + |whole - s|
  {
    assert whole == whole * s + (whole - s);
  }

  lemma ExplicitTotal(s: Stats, v: Split, ids: set<AccountId>)
    requires v.on !! v.off && v.tracked == v.on + v.off
    ensures AfterExplicit(s, v, ids).Total() == s.Total() + |ids|
  {
    Parts(ids, v.tracked);
    Parts(ids * v.tracked, v.on);
    assert ids * v.tracked * v.on == ids * v.on && ids * v.tracked - v.on == ids * v.off;
  }

  lemma RowsTotal(s: Stats, v: Split)
    requires v.on !! v.off && v.tracked == v.on + v.off
    ensures AfterRows(s, v, v.tracked).Total() == s.Total() + |v.tracked|
  {
    Parts(v.tracked, v.on);
    Parts(v.off, v.deserving);
    assert v.tracked * v.on == v.on && v.tracked - v.on == v.off;
    assert v.tracked * (v.off * v.deserving) == v.off * v.deserving;
    assert v.tracked * (v.off - v.deserving) == v.off - v.deserving;
  }

  /** Every listed id and every tracked row is counted exactly once. */
  lemma CountersSum(m: Flags, r: Rules)
    ensures FinalStats(m, r).Total() == |r.explicitIds| + |m.Keys|
  {
    ExplicitTotal(Stats(0, 0, 0, 0, 0), SplitOf(m, r), r.explicitIds);
    RowsTotal(AfterExplicit(Stats(0, 0, 0, 0, 0), SplitOf(m, r), r.explicitIds),
              SplitOf(TurnedOn(m, r.explicitIds), r));
  }

  /** An immediate second run turns nothing on, changes no flag and repeats the missing and skipped counts. */
  lemma SecondRun(m: Flags, r: Rules)
    ensures var n := FinalFlags(m, r);
            && FinalFlags(n, r) == n
            && FinalStats(n, r).explicitMarked == 0
            && FinalStats(n, r).policyMarked == 0
            && FinalStats(n, r).explicitMissing == FinalStats(m, r).explicitMissing
            && FinalStats(n, r).skipped == FinalStats(m, r).skipped
  {
    var e, n := r.explicitIds, FinalFlags(m, r);
    var v1, w, w1 := SplitOf(TurnedOn(m, e), r), SplitOf(n, r), SplitOf(TurnedOn(n, e), r);
    assert FinalFlags(n, r) == n && TurnedOn(n, e) == n;
    assert e * w.off == {};
    assert n.Keys * (w1.off * w1.deserving) == {};
    assert n.Keys * (w1.off - w1.deserving) == m.Keys * (v1.off - v1.deserving);
  }
}
