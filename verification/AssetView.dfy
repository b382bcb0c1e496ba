/** The rows of one view of the assets table: filtered, weighted and sorted. */
module AssetView {
  import opened AssetBuckets
  import opened Sequences
  import opened Sorting

  datatype Asset = Asset(id: string, networks: seq<Network>, price: real)

  datatype View = AvailableView | LockedView | EarningView

  datatype SortKey =
    Token | BalanceKey | Price | Weight | LockedKey | Unlocked | TotalAllocated | EarningTotal | Withdrawable

  datatype Row = Row(asset: Asset, metrics: Metrics, weight: real, unlockedUsd: real, withdrawableUsd: real)

  /** `new Map(...)`: of assets with one id the last one's metrics stay. */
  function MetricsById(assets: seq<Asset>): (m: map<string, Metrics>)
    ensures forall i :: 0 <= i < |assets| ==> assets[i].id in m
  {
    if assets == [] then map[]
    else
      var last := assets[|assets| - 1];
      MetricsById(assets[..|assets| - 1])[last.id := MetricsOf(last.networks)]
  }

  predicate Shown(m: Metrics, view: View) {
    match view
    case AvailableView => m.hasAvailable
    case LockedView => m.hasLocked
    case EarningView => m.hasEarning
  }

  function Value(m: Metrics, view: View): real {
    match view
    case AvailableView => m.availableUsd
    case LockedView => m.lockedUsd
    case EarningView => m.earningUsd
  }

  function IsShown(m: map<string, Metrics>, view: View): Asset -> bool {
    (a: Asset) => a.id in m && Shown(m[a.id], view)
  }

  function ValueIn(m: map<string, Metrics>, view: View): Asset -> real {
    (a: Asset) => if a.id in m then Value(m[a.id], view) else 0.0
  }

  function Filtered(assets: seq<Asset>, m: map<string, Metrics>, view: View): seq<Asset> {
    Filter(assets, IsShown(m, view))
  }

  function TotalValue(assets: seq<Asset>, m: map<string, Metrics>, view: View): real {
    RealSum(assets, ValueIn(m, view))
  }

  function RowOf(a: Asset, m: Metrics, view: View, total: real): Row {
    var listed := Filter(a.networks, ListedLocked);
    Row(a, m,
        if total > 0.0 then Value(m, view) / total * 100.0 else 0.0,
        SumUsd(listed, AvailableRaw),
        SumUsd(Filter(a.networks, IsStake), Withdrawn))
  }

  predicate IsStake(n: Network) { n.residency == Staked }

  function Withdrawn(n: Network): int { AvailableBalance(n.balance) }

  /** The rows before sorting. */
  function Rows(assets: seq<Asset>, m: map<string, Metrics>, view: View, total: real): (rows: seq<Row>)
    requires forall a :: a in assets ==> a.id in m
    ensures |rows| == |assets|
    ensures forall i :: 0 <= i < |rows| ==> rows[i] == RowOf(assets[i], m[assets[i].id], view, total)
  {
    seq(|assets|, i requires 0 <= i < |assets| => RowOf(assets[i], m[assets[i].id], view, total))
  }

  function NumberOf(row: Row, key: SortKey): real {
    match key
    case Token => 0.0
    case BalanceKey => row.metrics.availableUsd
    case Price => row.asset.price
    case Weight => row.weight
    case LockedKey => row.metrics.lockedUsd
    case Unlocked => row.unlockedUsd
    case TotalAllocated => row.metrics.lockedUsd + row.unlockedUsd
    case EarningTotal => row.metrics.earningUsd
    case Withdrawable => row.withdrawableUsd
  }

  /** The comparator of the sort; `leqId` is `localeCompare` on lower-cased ids. */
  function ByKey(key: SortKey, ascending: bool, leqId: (string, string) -> bool): (Row, Row) -> bool {
    (a: Row, b: Row) =>
      if key == Token then (if ascending then leqId(a.asset.id, b.asset.id) else leqId(b.asset.id, a.asset.id))
      else if ascending then NumberOf(a, key) <= NumberOf(b, key)
      else NumberOf(b, key) <= NumberOf(a, key)
  }

  function ViewAssets(assets: seq<Asset>, view: View, key: SortKey, ascending: bool,
                      leqId: (string, string) -> bool): seq<Row>
  {
    var m := MetricsById(assets);
    var filtered := Filtered(assets, m, view);
    StableSort(ByKey(key, ascending, leqId), Rows(filtered, m, view, TotalValue(filtered, m, view)))
  }

  lemma ByKeyTotal(key: SortKey, ascending: bool, leqId: (string, string) -> bool)
    requires TotalPreorder(leqId)
    ensures TotalPreorder(ByKey(key, ascending, leqId))
  {
    var cmp := ByKey(key, ascending, leqId);
    forall a, b ensures cmp(a, b) || cmp(b, a) {
      assert leqId(a.asset.id, b.asset.id) || leqId(b.asset.id, a.asset.id);
    }
    forall a, b, c | cmp(a, b) && cmp(b, c) ensures cmp(a, c) {
      if key == Token && ascending {
        assert leqId(a.asset.id, b.asset.id) && leqId(b.asset.id, c.asset.id);
      } else if key == Token {
        assert leqId(b.asset.id, a.asset.id) && leqId(c.asset.id, b.asset.id);
      }
    }
  }

  /**
   * The displayed rows are the filtered assets, each once, in the order of the chosen key; ties keep the input order.
   */
  lemma ViewIsSortedPermutation(assets: seq<Asset>, view: View, key: SortKey, ascending: bool,
                                leqId: (string, string) -> bool)
    requires TotalPreorder(leqId)
    ensures var m := MetricsById(assets);
            var filtered := Filtered(assets, m, view);
            var rows := Rows(filtered, m, view, TotalValue(filtered, m, view));
            var shown := ViewAssets(assets, view, key, ascending, leqId);
            && multiset(shown) == multiset(rows)
            && Sorted(ByKey(key, ascending, leqId), shown)
            && forall r ::
                 TiedWith(ByKey(key, ascending, leqId), r, shown) == TiedWith(ByKey(key, ascending, leqId), r, rows)
  {
    var m := MetricsById(assets);
    var filtered := Filtered(assets, m, view);
    var rows := Rows(filtered, m, view, TotalValue(filtered, m, view));
    var cmp := ByKey(key, ascending, leqId);
    ByKeyTotal(key, ascending, leqId);
    StableSortSorted(cmp, rows);
    forall r ensures TiedWith(cmp, r, StableSort(cmp, rows)) == TiedWith(cmp, r, rows) {
      StableSortKeepsTies(cmp, r, rows);
    }
  }

  /** The number or the id that a key names is no greater in `low` than in `high`. */
  predicate NoGreater(low: Row, high: Row, key: SortKey, leqId: (string, string) -> bool) {
    && (key == Token ==> leqId(low.asset.id, high.asset.id))
    && (key == BalanceKey ==> low.metrics.availableUsd <= high.metrics.availableUsd)
    && (key == Price ==> low.asset.price <= high.asset.price)
    && (key == Weight ==> low.weight <= high.weight)
    && (key == LockedKey ==> low.metrics.lockedUsd <= high.metrics.lockedUsd)
    && (key == Unlocked ==> low.unlockedUsd <= high.unlockedUsd)
    && (key == TotalAllocated ==>
          low.metrics.lockedUsd + low.unlockedUsd <= high.metrics.lockedUsd + high.unlockedUsd)
    && (key == EarningTotal ==> low.metrics.earningUsd <= high.metrics.earningUsd)
    && (key == Withdrawable ==> low.withdrawableUsd <= high.withdrawableUsd)
  }

  lemma ByKeyOrders(a: Row, b: Row, key: SortKey, ascending: bool, leqId: (string, string) -> bool)
    ensures ByKey(key, ascending, leqId)(a, b)
            <==> if ascending then NoGreater(a, b, key, leqId) else NoGreater(b, a, key, leqId)
  {
    var low, high := if ascending then a else b, if ascending then b else a;
    assert key != Token ==> (ByKey(key, ascending, leqId)(a, b) <==> NumberOf(low, key) <= NumberOf(high, key));
    assert key != Token ==> (NoGreater(low, high, key, leqId) <==> NumberOf(low, key) <= NumberOf(high, key));
  }

  /** The rows shown ascend or descend in what their key names. */
  lemma ShownOrder(assets: seq<Asset>, view: View, key: SortKey, ascending: bool, leqId: (string, string) -> bool,
                   i: nat, j: nat)
    requires TotalPreorder(leqId)
    requires i < j < |ViewAssets(assets, view, key, ascending, leqId)|
    ensures var shown := ViewAssets(assets, view, key, ascending, leqId);
            if ascending then NoGreater(shown[i], shown[j], key, leqId) else NoGreater(shown[j], shown[i], key, leqId)
  {
    ViewIsSortedPermutation(assets, view, key, ascending, leqId);
    var shown := ViewAssets(assets, view, key, ascending, leqId);
    ByKeyOrders(shown[i], shown[j], key, ascending, leqId);
  }

  /** The metrics behind an id are those of the last asset with that id. */
  lemma {:induction false} MetricsOfLast(assets: seq<Asset>, i: nat)
    requires i < |assets| && forall j :: i < j < |assets| ==> assets[j].id != assets[i].id
    ensures MetricsById(assets)[assets[i].id] == MetricsOf(assets[i].networks)
  {
    var n := |assets| - 1;
    if i < n {
      MetricsOfLast(assets[..n], i);
    }
  }

  /**
   * A row shown: the asset has the view's flag, its weight is its part of the view's total, in percent, and the two
   * other amounts are worth what the rows of its lockups list as released and what its stakes hand back.
   */
  ghost predicate IsRowOf(row: Row, m: Metrics, view: View, total: real) {
    && row.metrics == m
    && (view == AvailableView ==> m.hasAvailable && (total > 0.0 ==> row.weight * total == 100.0 * m.availableUsd))
    && (view == LockedView ==> m.hasLocked && (total > 0.0 ==> row.weight * total == 100.0 * m.lockedUsd))
    && (view == EarningView ==> m.hasEarning && (total > 0.0 ==> row.weight * total == 100.0 * m.earningUsd))
    && WorthInAll(row.unlockedUsd, Filter(row.asset.networks, ListedLocked), AvailableRaw)
    && WorthInAll(row.withdrawableUsd, Filter(row.asset.networks, IsStake), Withdrawn)
  }

  lemma Percent(v: real, total: real)
    requires total > 0.0
    ensures v / total * 100.0 * total == 100.0 * v
  {
    assert v / total * total == v;
  }

  predicate HasFlag(m: Metrics, view: View) {
    || (view == AvailableView && m.hasAvailable)
    || (view == LockedView && m.hasLocked)
    || (view == EarningView && m.hasEarning)
  }

  /** The rows are those of the assets with the view's flag. */
  ghost predicate ShowsByFlag(rows: seq<Row>, assets: seq<Asset>, m: map<string, Metrics>, view: View, total: real) {
    forall a :: a in assets && a.id in m ==>
      && ((exists r :: r in rows && r.asset == a) <==> HasFlag(m[a.id], view))
      && forall r :: r in rows && r.asset == a ==> IsRowOf(r, m[a.id], view, total)
  }

  lemma OneRow(a: Asset, m: Metrics, view: View, total: real)
    requires Shown(m, view)
    ensures IsRowOf(RowOf(a, m, view, total), m, view, total)
  {
    TotalWorth(Filter(a.networks, ListedLocked), AvailableRaw);
    TotalWorth(Filter(a.networks, IsStake), Withdrawn);
    if total > 0.0 {
      Percent(Value(m, view), total);
    }
  }

  lemma RowsShowByFlag(assets: seq<Asset>, m: map<string, Metrics>, view: View, total: real)
    requires forall a :: a in assets ==> a.id in m
    ensures ShowsByFlag(Rows(Filtered(assets, m, view), m, view, total), assets, m, view, total)
  {
    var filtered := Filtered(assets, m, view);
    var rows := Rows(filtered, m, view, total);
    forall a | a in filtered ensures IsRowOf(RowOf(a, m[a.id], view, total), m[a.id], view, total) {
      OneRow(a, m[a.id], view, total);
    }
    forall i | 0 <= i < |filtered| ensures rows[i] in rows && rows[i].asset == filtered[i] {
    }
    forall a | a in assets ensures a in filtered <==> HasFlag(m[a.id], view) {
      assert a in filtered <==> IsShown(m, view)(a);
    }
  }

  /**
   * An asset is shown exactly when it has the view's flag, with its metrics and with its part of the view's total as
   * its weight.
   */
  lemma ShownIff(assets: seq<Asset>, view: View, key: SortKey, ascending: bool, leqId: (string, string) -> bool)
    requires TotalPreorder(leqId)
    ensures var m := MetricsById(assets);
            var total := TotalValue(Filtered(assets, m, view), m, view);
            ShowsByFlag(ViewAssets(assets, view, key, ascending, leqId), assets, m, view, total)
  {
    var m := MetricsById(assets);
    var total := TotalValue(Filtered(assets, m, view), m, view);
    ViewIsSortedPermutation(assets, view, key, ascending, leqId);
    SameMembers(ViewAssets(assets, view, key, ascending, leqId), Rows(Filtered(assets, m, view), m, view, total));
    RowsShowByFlag(assets, m, view, total);
  }

  function WeightOf(r: Row): real { r.weight }

  function WeightSum(rows: seq<Row>): real { RealSum(rows, WeightOf) }

  function ShareOf(total: real): real -> real
    requires total > 0.0
  {
    (v: real) => v / total * 100.0
  }

  lemma DivideSum(a: real, b: real, total: real)
    requires total > 0.0
    ensures (a + b) / total * 100.0 == a / total * 100.0 + b / total * 100.0
  {
  }

  lemma SharesAdd(total: real)
    requires total > 0.0
    ensures Additive(ShareOf(total))
  {
    forall a, b ensures ShareOf(total)(a + b) == ShareOf(total)(a) + ShareOf(total)(b) {
      DivideSum(a, b, total);
    }
  }

  lemma WeightIsShare(a: Asset, m: map<string, Metrics>, view: View, total: real)
    requires total > 0.0 && a.id in m
    ensures WeightOf(RowOf(a, m[a.id], view, total)) == ShareOf(total)(ValueIn(m, view)(a))
  {
  }

  lemma WeightSumScales(assets: seq<Asset>, m: map<string, Metrics>, view: View, total: real, share: real -> real)
    requires forall a :: a in assets ==>
               a.id in m && WeightOf(RowOf(a, m[a.id], view, total)) == share(ValueIn(m, view)(a))
    requires Additive(share)
    ensures WeightSum(Rows(assets, m, view, total)) == share(TotalValue(assets, m, view))
  {
    RealSumMaps(assets, ValueIn(m, view), Rows(assets, m, view, total), WeightOf, share);
  }

  /** The weights shown add up to 100 when the view's total is positive, and are all 0 when it is not. */
  lemma WeightsAddUp(assets: seq<Asset>, view: View, key: SortKey, ascending: bool, leqId: (string, string) -> bool)
    ensures var m := MetricsById(assets);
            var total := TotalValue(Filtered(assets, m, view), m, view);
            var shown := ViewAssets(assets, view, key, ascending, leqId);
            && (total > 0.0 ==> WeightSum(shown) == 100.0)
            && (total <= 0.0 ==> forall r :: r in shown ==> r.weight == 0.0)
  {
    var m := MetricsById(assets);
    var filtered := Filtered(assets, m, view);
    SortedWeights(filtered, m, view, ByKey(key, ascending, leqId));
  }

  lemma SortedWeights(assets: seq<Asset>, m: map<string, Metrics>, view: View, cmp: (Row, Row) -> bool)
    requires forall a :: a in assets ==> a.id in m
    ensures var total := TotalValue(assets, m, view);
            var shown := StableSort(cmp, Rows(assets, m, view, total));
            && (total > 0.0 ==> WeightSum(shown) == 100.0)
            && (total <= 0.0 ==> forall r :: r in shown ==> r.weight == 0.0)
  {
    var total := TotalValue(assets, m, view);
    var rows := Rows(assets, m, view, total);
    var shown := StableSort(cmp, rows);
    RealSumOrderFree(shown, rows, WeightOf);
    SameMembers(shown, rows);
    RowWeights(assets, m, view, total);
  }

  lemma Whole(total: real)
    requires total > 0.0
    ensures ShareOf(total)(total) == 100.0
  {
  }

  lemma RowWeights(assets: seq<Asset>, m: map<string, Metrics>, view: View, total: real)
    requires (forall a :: a in assets ==> a.id in m) && total == TotalValue(assets, m, view)
    ensures total > 0.0 ==> WeightSum(Rows(assets, m, view, total)) == 100.0
    ensures total <= 0.0 ==> forall r :: r in Rows(assets, m, view, total) ==> r.weight == 0.0
  {
    if total > 0.0 {
      SharesAdd(total);
      forall a | a in assets ensures WeightOf(RowOf(a, m[a.id], view, total)) == ShareOf(total)(ValueIn(m, view)(a)) {
        WeightIsShare(a, m, view, total);
      }
      WeightSumScales(assets, m, view, total, ShareOf(total));
      Whole(total);
    }
  }

  lemma PercentRange(v: real, total: real)
    requires total > 0.0
    ensures 0.0 <= v / total * 100.0 <= 100.0 <==> 0.0 <= v <= total
  {
    var q := v / total;
    assert q * total == v;
    assert q > 1.0 ==> q * total > total;
    assert q < 0.0 ==> q * total < 0.0;
    assert 0.0 <= q <= 1.0 ==> 0.0 <= q * total <= total;
  }

  predicate InRange(row: Row) { 0.0 <= row.weight <= 100.0 }

  /**
   * All weights shown lie between 0 and 100 exactly when the view's total is not positive or no shown value is
   * negative.
   */
  lemma WeightsInRangeIff(assets: seq<Asset>, view: View, key: SortKey, ascending: bool,
                          leqId: (string, string) -> bool)
    ensures var m := MetricsById(assets);
            var filtered := Filtered(assets, m, view);
            (forall r :: r in ViewAssets(assets, view, key, ascending, leqId) ==> InRange(r))
            <==> TotalValue(filtered, m, view) <= 0.0 || forall a :: a in filtered ==> ValueIn(m, view)(a) >= 0.0
  {
    var m := MetricsById(assets);
    var filtered := Filtered(assets, m, view);
    var total := TotalValue(filtered, m, view);
    SameMembers(ViewAssets(assets, view, key, ascending, leqId), Rows(filtered, m, view, total));
    RowsInRangeIff(filtered, m, view, total);
  }

  lemma RowsInRangeIff(assets: seq<Asset>, m: map<string, Metrics>, view: View, total: real)
    requires (forall a :: a in assets ==> a.id in m) && total == TotalValue(assets, m, view)
    ensures (forall r :: r in Rows(assets, m, view, total) ==> InRange(r))
            <==> total <= 0.0 || forall a :: a in assets ==> ValueIn(m, view)(a) >= 0.0
  {
    var rows := Rows(assets, m, view, total);
    if total > 0.0 {
      forall i | 0 <= i < |assets| ensures InRange(rows[i]) <==> 0.0 <= ValueIn(m, view)(assets[i]) <= total {
        PercentRange(Value(m[assets[i].id], view), total);
      }
      if forall a :: a in assets ==> ValueIn(m, view)(a) >= 0.0 {
        TermsWithinSum(assets, ValueIn(m, view));
      } else {
        var a :| a in assets && ValueIn(m, view)(a) < 0.0;
        var i :| 0 <= i < |assets| && assets[i] == a;
        assert rows[i] in rows && !InRange(rows[i]);
      }
    }
  }
}
