/** Available, locked and earning amounts of the assets table, and the two ways they are totalled. */
module AssetBuckets {
  import opened Sequences
  import opened Wrappers

  datatype Residency = Near | Ft | Intents | Lockup | Staked

  datatype Pool = Pool(poolId: string, stakedBalance: int, unstakedBalance: int)

  /** Raw token amounts are integers in the token's smallest unit. */
  datatype Balance =
    | Standard(total: int, locked: int)
    | Staking(stakedBalance: int, unstakedBalance: int, canWithdraw: bool, pools: seq<Pool>)
    | Vested(total: int, unvested: int, staked: int, storageLocked: int)

  datatype Network = Network(
    network: string, residency: Residency, id: string, contractId: Option<string>,
    lockupInstanceId: Option<string>, balance: Balance, decimals: nat, price: real)

  // ---------------------------------------------------------------------------
  // The shared balance library.
  // ---------------------------------------------------------------------------

  function TotalBalance(b: Balance): int {
    match b
    case Standard(total, _) => total
    case Staking(staked, unstaked, _, _) => staked + unstaked
    case Vested(total, _, _, _) => total
  }

  function AvailableBalance(b: Balance): int {
    match b
    case Standard(total, locked) => total - locked
    case Staking(_, unstaked, canWithdraw, _) => if canWithdraw then unstaked else 0
    case Vested(total, unvested, staked, storageLocked) =>
      var restriction := if unvested < staked then staked else unvested;
      var available := total - restriction - storageLocked;
      if available > 0 then available else 0
  }

  function LockedBalance(b: Balance): int {
    match b
    case Standard(_, locked) => locked
    case Staking(staked, unstaked, canWithdraw, _) => staked + (if canWithdraw then 0 else unstaked)
    case Vested(_, unvested, staked, storageLocked) =>
      (if unvested > staked then unvested else staked) + storageLocked
  }

  // ---------------------------------------------------------------------------
  // The three buckets of one network.
  // ---------------------------------------------------------------------------

  function AvailableRaw(n: Network): int {
    if n.residency == Staked then 0
    else match n.balance
      case Vested(total, unvested, staked, storageLocked) =>
        var nonStakedLocked := unvested - staked;
        var locked := if nonStakedLocked > 0 then nonStakedLocked + storageLocked else storageLocked;
        var available := total - staked - locked;
        if available > 0 then available else 0
      case _ => AvailableBalance(n.balance)
  }

  function AvailableRawForAvailableView(n: Network): int {
    if n.residency == Staked || n.residency == Lockup then 0 else AvailableBalance(n.balance)
  }

  function LockedRaw(n: Network): int {
    if n.residency == Staked then 0
    else match n.balance
      case Vested(_, unvested, staked, storageLocked) =>
        var nonStakedLocked := unvested - staked;
        var clamped := if nonStakedLocked > 0 then nonStakedLocked else 0;
        clamped + storageLocked
      case _ => LockedBalance(n.balance)
  }

  function EarningRaw(n: Network): int {
    match n.balance
    case Staking(staked, unstaked, _, _) => staked + unstaked
    case Vested(_, _, staked, _) => staked
    case _ => 0
  }

  /** For a vested balance the three buckets hold the larger of the total and what is staked or locked. */
  lemma VestedBuckets(n: Network)
    requires n.residency != Staked && n.balance.Vested?
    ensures AvailableRaw(n) + LockedRaw(n) + EarningRaw(n) == Max(n.balance.total, n.balance.staked + LockedRaw(n))
    ensures AvailableRaw(n) == Max(0, n.balance.total - n.balance.staked - LockedRaw(n))
  {
  }

  /** The separately written computations agree with the balance library; the library counts staked tokens as locked. */
  lemma AgreesWithLibrary(n: Network)
    requires n.residency != Staked
    ensures AvailableRaw(n) == AvailableBalance(n.balance)
    ensures LockedRaw(n) == LockedBalance(n.balance) - (if n.balance.Vested? then n.balance.staked else 0)
  {
  }

  /** The available view shows what is available of every network but lockups. */
  lemma ViewShowsAvailable(n: Network)
    ensures AvailableRawForAvailableView(n) == if n.residency == Lockup then 0 else AvailableRaw(n)
  {
  }

  /** Exactly when every token of a network lands in one bucket and none in two. */
  predicate Consistent(n: Network) {
    match n.balance
    case Standard(total, _) => n.residency != Staked || total == 0
    case Staking(staked, unstaked, _, _) => n.residency == Staked || staked + unstaked == 0
    case Vested(total, unvested, staked, storageLocked) =>
      if n.residency == Staked then total == staked
      else Max(unvested, staked) + storageLocked <= total
  }

  lemma BucketsConserveIff(n: Network)
    ensures AvailableRaw(n) + LockedRaw(n) + EarningRaw(n) == TotalBalance(n.balance) <==> Consistent(n)
  {
  }

  // ---------------------------------------------------------------------------
  // Totals in USD, as exact rationals.
  // ---------------------------------------------------------------------------

  function Pow10(n: nat): (p: real)
    ensures p >= 1.0
  {
    if n == 0 then 1.0 else 10.0 * Pow10(n - 1)
  }

  function ToUsd(raw: int, decimals: nat, price: real): real {
    if price <= 0.0 then 0.0 else raw as real / Pow10(decimals) * price
  }

  lemma ToUsdSign(raw: int, decimals: nat, price: real)
    ensures raw == 0 || price <= 0.0 ==> ToUsd(raw, decimals, price) == 0.0
    ensures raw > 0 && price > 0.0 ==> ToUsd(raw, decimals, price) > 0.0
    ensures raw < 0 && price > 0.0 ==> ToUsd(raw, decimals, price) < 0.0
  {
    var q := raw as real / Pow10(decimals);
    if raw > 0 {
      assert q > 0.0;
    } else if raw < 0 {
      assert q < 0.0;
    }
  }

  /** How many of a token's smallest units make one token. */
  function UnitsPerToken(decimals: nat): (units: nat)
    ensures units > 0
  {
    if decimals == 0 then 1 else 10 * UnitsPerToken(decimals - 1)
  }

  lemma {:induction false} UnitsArePowers(decimals: nat)
    ensures UnitsPerToken(decimals) as real == Pow10(decimals)
  {
    if decimals > 0 {
      UnitsArePowers(decimals - 1);
    }
  }

  lemma Cancels(x: real, d: real, price: real)
    requires d > 0.0
    ensures x / d * price * d == x * price
  {
    var q := x / d;
    assert q * d == x;
  }

  /** For a positive price, an amount's worth counted in smallest units is the amount times the price. */
  lemma Worth(raw: int, decimals: nat, price: real)
    ensures price > 0.0 ==> ToUsd(raw, decimals, price) * UnitsPerToken(decimals) as real == raw as real * price
  {
    UnitsArePowers(decimals);
    if price > 0.0 {
      Cancels(raw as real, Pow10(decimals), price);
    }
  }

  lemma WholeTokens(tokens: int, units: nat, price: real)
    requires units > 0
    ensures (tokens * units) as real / units as real * price == tokens as real * price
  {
    assert (tokens * units) as real == tokens as real * units as real;
  }

  lemma Shares(a: real, b: real, d: real, price: real)
    requires d > 0.0
    ensures (a + b) / d * price == a / d * price + b / d * price
  {
    assert (a + b) / d == a / d + b / d;
  }

  /** Whole tokens are worth their number times the price, and worth adds up. */
  lemma WorthOfTokens(tokens: int, a: int, b: int, decimals: nat, price: real)
    ensures price > 0.0 ==> ToUsd(tokens * UnitsPerToken(decimals), decimals, price) == tokens as real * price
    ensures ToUsd(a + b, decimals, price) == ToUsd(a, decimals, price) + ToUsd(b, decimals, price)
    ensures price <= 0.0 ==> ToUsd(a, decimals, price) == 0.0
  {
    UnitsArePowers(decimals);
    WholeTokens(tokens, UnitsPerToken(decimals), price);
    Shares(a as real, b as real, Pow10(decimals), price);
  }

  function Usd(n: Network, amount: Network -> int): real {
    ToUsd(amount(n), n.decimals, n.price)
  }

  function UsdOf(amount: Network -> int): Network -> real {
    n => Usd(n, amount)
  }

  /** The USD value of an amount over a list of networks. */
  function SumUsd(ns: seq<Network>, amount: Network -> int): real {
    RealSum(ns, UsdOf(amount))
  }

  datatype Metrics = Metrics(
    availableUsd: real, lockedUsd: real, earningUsd: real,
    hasAvailable: bool, hasLocked: bool, hasEarning: bool)

  predicate AnyPositive(ns: seq<Network>, amount: Network -> int) {
    exists i :: 0 <= i < |ns| && amount(ns[i]) > 0
  }

  /** All networks have this price and this number of decimals. */
  ghost predicate Uniform(ns: seq<Network>, decimals: nat, price: real) {
    forall i :: 0 <= i < |ns| ==> ns[i].decimals == decimals && ns[i].price == price
  }

  /** What a total must be where one price applies: the sum of the amounts times that price, in smallest units. */
  ghost predicate WorthInAll(total: real, ns: seq<Network>, amount: Network -> int) {
    forall decimals: nat, price: real :: Uniform(ns, decimals, price) && price > 0.0 ==>
      total * UnitsPerToken(decimals) as real == Sum(ns, amount) as real * price
  }

  lemma AddWorth(a: real, b: real, u: real, x: real, y: real, price: real)
    requires a * u == x * price && b * u == y * price
    ensures (a + b) * u == (x + y) * price
  {
  }

  lemma {:induction false} SumWorth(ns: seq<Network>, amount: Network -> int, decimals: nat, price: real)
    requires Uniform(ns, decimals, price) && price > 0.0
    ensures SumUsd(ns, amount) * UnitsPerToken(decimals) as real == Sum(ns, amount) as real * price
  {
    if ns != [] {
      var k := |ns| - 1;
      SumWorth(ns[..k], amount, decimals, price);
      Worth(amount(ns[k]), decimals, price);
      AddWorth(SumUsd(ns[..k], amount), Usd(ns[k], amount), UnitsPerToken(decimals) as real,
               Sum(ns[..k], amount) as real, amount(ns[k]) as real, price);
    }
  }

  lemma TotalWorth(ns: seq<Network>, amount: Network -> int)
    ensures WorthInAll(SumUsd(ns, amount), ns, amount)
  {
    forall decimals: nat, price: real | Uniform(ns, decimals, price) && price > 0.0
      ensures SumUsd(ns, amount) * UnitsPerToken(decimals) as real == Sum(ns, amount) as real * price
    {
      SumWorth(ns, amount, decimals, price);
    }
  }

  function MetricsOf(ns: seq<Network>): Metrics {
    Metrics(SumUsd(ns, AvailableRawForAvailableView), SumUsd(ns, LockedRaw), SumUsd(ns, EarningRaw),
            AnyPositive(ns, AvailableRawForAvailableView), AnyPositive(ns, LockedRaw), AnyPositive(ns, EarningRaw))
  }

  ghost predicate MetricsWorth(m: Metrics, ns: seq<Network>) {
    && WorthInAll(m.availableUsd, ns, AvailableRawForAvailableView)
    && WorthInAll(m.lockedUsd, ns, LockedRaw) && WorthInAll(m.earningUsd, ns, EarningRaw)
  }

  lemma MetricsAreWorth(ns: seq<Network>)
    ensures MetricsWorth(MetricsOf(ns), ns)
  {
    TotalWorth(ns, AvailableRawForAvailableView);
    TotalWorth(ns, LockedRaw);
    TotalWorth(ns, EarningRaw);
  }

  method GetAssetMetrics(ns: seq<Network>) returns (m: Metrics)
    ensures m == MetricsOf(ns)
    ensures MetricsWorth(m, ns)
  {
    var availableUsd, lockedUsd, earningUsd := 0.0, 0.0, 0.0;
    var hasAvailable, hasLocked, hasEarning := false, false, false;
    for i := 0 to |ns|
      invariant availableUsd == SumUsd(ns[..i], AvailableRawForAvailableView)
      invariant lockedUsd == SumUsd(ns[..i], LockedRaw)
      invariant earningUsd == SumUsd(ns[..i], EarningRaw)
      invariant hasAvailable == AnyPositive(ns[..i], AvailableRawForAvailableView)
      invariant hasLocked == AnyPositive(ns[..i], LockedRaw)
      invariant hasEarning == AnyPositive(ns[..i], EarningRaw)
    {
      var network := ns[i];
      OneMore(ns, i);
      var lockedRaw := LockedRaw(network);
      var earningRaw := EarningRaw(network);
      var availableRaw := AvailableRawForAvailableView(network);
      availableUsd := availableUsd + ToUsd(availableRaw, network.decimals, network.price);
      lockedUsd := lockedUsd + ToUsd(lockedRaw, network.decimals, network.price);
      earningUsd := earningUsd + ToUsd(earningRaw, network.decimals, network.price);
      hasAvailable := hasAvailable || availableRaw > 0;
      hasLocked := hasLocked || lockedRaw > 0;
      hasEarning := hasEarning || earningRaw > 0;
    }
    assert ns[..|ns|] == ns;
    m := Metrics(availableUsd, lockedUsd, earningUsd, hasAvailable, hasLocked, hasEarning);
    MetricsAreWorth(ns);
  }

  lemma OneMore(ns: seq<Network>, i: nat)
    requires i < |ns|
    ensures forall amount: Network -> int {:trigger SumUsd(ns[..i + 1], amount)} ::
              SumUsd(ns[..i + 1], amount) == SumUsd(ns[..i], amount) + Usd(ns[i], amount)
    ensures forall amount: Network -> int {:trigger AnyPositive(ns[..i + 1], amount)} ::
              AnyPositive(ns[..i + 1], amount) <==> AnyPositive(ns[..i], amount) || amount(ns[i]) > 0
  {
    assert ns[..i + 1][..i] == ns[..i];
    forall amount: Network -> int
      ensures AnyPositive(ns[..i + 1], amount) <==> AnyPositive(ns[..i], amount) || amount(ns[i]) > 0
    {
      if AnyPositive(ns[..i], amount) {
        var k :| 0 <= k < i && amount(ns[..i][k]) > 0;
        assert ns[..i + 1][k] == ns[k];
      }
      if amount(ns[i]) > 0 {
        assert ns[..i + 1][i] == ns[i];
      }
      if AnyPositive(ns[..i + 1], amount) {
        var k :| 0 <= k < i + 1 && amount(ns[..i + 1][k]) > 0;
        assert k < i ==> ns[..i][k] == ns[k];
      }
    }
  }

  function Not(keep: Network -> bool): Network -> bool {
    n => !keep(n)
  }

  /** Filtering splits a total in two. */
  lemma {:induction false} FilterSplits(ns: seq<Network>, keep: Network -> bool, amount: Network -> int)
    ensures SumUsd(ns, amount) == SumUsd(Filter(ns, keep), amount) + SumUsd(Filter(ns, Not(keep)), amount)
  {
    if ns != [] {
      var k := |ns| - 1;
      FilterSplits(ns[..k], keep, amount);
      AppendOne(Filter(ns[..k], keep), ns[k], amount);
      AppendOne(Filter(ns[..k], Not(keep)), ns[k], amount);
    }
  }

  lemma AppendOne(ns: seq<Network>, n: Network, amount: Network -> int)
    ensures SumUsd(ns + [n], amount) == SumUsd(ns, amount) + Usd(n, amount)
    ensures ns + [] == ns
  {
    assert (ns + [n])[..|ns|] == ns;
  }

  // ---------------------------------------------------------------------------
  // A row of the table totals only the networks it lists.
  // ---------------------------------------------------------------------------

  predicate ListedAvailable(n: Network) {
    n.residency != Staked && AvailableRawForAvailableView(n) > 0
  }

  predicate ListedLocked(n: Network) {
    n.residency != Staked && (LockedRaw(n) > 0 || (n.residency == Lockup && AvailableRaw(n) > 0))
  }

  predicate HasStakedPool(n: Network) {
    n.balance.Staking? && exists i :: 0 <= i < |n.balance.pools| && n.balance.pools[i].stakedBalance > 0
  }

  predicate ListedEarning(n: Network) {
    && ((n.residency == Staked && HasStakedPool(n)) || (n.balance.Vested? && n.balance.staked > 0))
    && EarningRaw(n) > 0
  }

  /** A staking balance that the earning row does not list: not in a staked residency, or without a staked pool. */
  predicate IdleStaking(n: Network) {
    n.balance.Staking? && !(n.residency == Staked && HasStakedPool(n))
  }

  /** The row totals of the three views, summed over the listed networks. */
  method RowTotals(ns: seq<Network>) returns (availableUsd: real, lockedUsd: real, earningUsd: real)
    ensures availableUsd == SumUsd(Filter(ns, ListedAvailable), AvailableRawForAvailableView)
    ensures lockedUsd == SumUsd(Filter(ns, ListedLocked), LockedRaw)
    ensures earningUsd == SumUsd(Filter(ns, ListedEarning), EarningRaw)
    ensures WorthInAll(availableUsd, Filter(ns, ListedAvailable), AvailableRawForAvailableView)
    ensures WorthInAll(lockedUsd, Filter(ns, ListedLocked), LockedRaw)
    ensures WorthInAll(earningUsd, Filter(ns, ListedEarning), EarningRaw)
  {
    availableUsd := ReduceUsd(Filter(ns, ListedAvailable), AvailableRawForAvailableView);
    lockedUsd := ReduceUsd(Filter(ns, ListedLocked), LockedRaw);
    earningUsd := ReduceUsd(Filter(ns, ListedEarning), EarningRaw);
  }

  method ReduceUsd(ns: seq<Network>, amount: Network -> int) returns (sum: real)
    ensures sum == SumUsd(ns, amount) && WorthInAll(sum, ns, amount)
  {
    TotalWorth(ns, amount);
    sum := 0.0;
    for i := 0 to |ns|
      invariant sum == SumUsd(ns[..i], amount)
    {
      OneMore(ns, i);
      sum := sum + ToUsd(amount(ns[i]), ns[i].decimals, ns[i].price);
    }
    assert ns[..|ns|] == ns;
  }

  /** An amount that is worth something: it changes a total. */
  predicate Counts(n: Network, amount: Network -> int) {
    amount(n) != 0 && n.price > 0.0
  }

  lemma {:induction false} NonPositiveSum(ns: seq<Network>, amount: Network -> int)
    requires forall i :: 0 <= i < |ns| ==> amount(ns[i]) <= 0
    ensures SumUsd(ns, amount) <= 0.0
    ensures SumUsd(ns, amount) == 0.0 <==> forall n :: n in ns ==> !Counts(n, amount)
  {
    if ns != [] {
      var k := |ns| - 1;
      NonPositiveSum(ns[..k], amount);
      ToUsdSign(amount(ns[k]), ns[k].decimals, ns[k].price);
      assert Usd(ns[k], amount) <= 0.0 && (Usd(ns[k], amount) == 0.0 <==> !Counts(ns[k], amount));
      assert forall n :: n in ns <==> n in ns[..k] || n == ns[k];
    }
  }

  /**
   * Leaving out networks with no positive amount never lowers a total, and keeps it exactly when nothing left out
   * counts.
   */
  lemma DroppedTotal(ns: seq<Network>, keep: Network -> bool, amount: Network -> int)
    requires forall n :: n in ns && !keep(n) ==> amount(n) <= 0
    ensures SumUsd(ns, amount) <= SumUsd(Filter(ns, keep), amount)
    ensures SumUsd(ns, amount) == SumUsd(Filter(ns, keep), amount)
            <==> forall n :: n in ns && !keep(n) ==> !Counts(n, amount)
  {
    var dropped := Filter(ns, Not(keep));
    FilterSplits(ns, keep, amount);
    forall i | 0 <= i < |dropped| ensures amount(dropped[i]) <= 0 {
      assert dropped[i] in dropped;
    }
    NonPositiveSum(dropped, amount);
  }

  /** The available row equals the asset's metric exactly when no priced network has a negative available amount. */
  lemma AvailableRowTotalIff(ns: seq<Network>)
    ensures SumUsd(Filter(ns, ListedAvailable), AvailableRawForAvailableView) == MetricsOf(ns).availableUsd
            <==> forall n :: n in ns && n.price > 0.0 ==> AvailableRawForAvailableView(n) >= 0
  {
    DroppedTotal(ns, ListedAvailable, AvailableRawForAvailableView);
    assert forall n: Network :: !ListedAvailable(n) ==>
      (Counts(n, AvailableRawForAvailableView) <==> n.price > 0.0 && AvailableRawForAvailableView(n) < 0);
    assert forall n: Network :: AvailableRawForAvailableView(n) < 0 ==> !ListedAvailable(n);
  }

  /**
   * The locked row equals the asset's metric exactly when no priced network it leaves out has a negative locked amount.
   */
  lemma LockedRowTotalIff(ns: seq<Network>)
    ensures SumUsd(Filter(ns, ListedLocked), LockedRaw) == MetricsOf(ns).lockedUsd
            <==> forall n :: n in ns && n.price > 0.0 && !ListedLocked(n) ==> LockedRaw(n) >= 0
  {
    DroppedTotal(ns, ListedLocked, LockedRaw);
    assert forall n: Network :: !ListedLocked(n) ==>
      (Counts(n, LockedRaw) <==> n.price > 0.0 && LockedRaw(n) < 0);
  }

  lemma OneNetwork(n: Network, keep: Network -> bool, amount: Network -> int)
    requires !keep(n)
    ensures SumUsd([n], amount) == Usd(n, amount)
    ensures SumUsd(Filter([n], keep), amount) == 0.0
  {
    assert [n][..0] == [];
    assert RealSum([n][..0], UsdOf(amount)) == 0.0;
  }

  lemma {:induction false} SameFilteredSum(ns: seq<Network>, keep: Network -> bool, keep': Network -> bool,
                                           amount: Network -> int)
    requires forall n :: n in ns && keep(n) != keep'(n) ==> amount(n) == 0
    ensures SumUsd(Filter(ns, keep), amount) == SumUsd(Filter(ns, keep'), amount)
  {
    if ns != [] {
      var k := |ns| - 1;
      SameFilteredSum(ns[..k], keep, keep', amount);
      AppendOne(Filter(ns[..k], keep), ns[k], amount);
      AppendOne(Filter(ns[..k], keep'), ns[k], amount);
      ToUsdSign(amount(ns[k]), ns[k].decimals, ns[k].price);
    }
  }

  /** What the earning row is short of the asset's metric is exactly the amount on idle staking balances. */
  lemma EarningRowGap(ns: seq<Network>)
    requires forall n :: n in ns ==> EarningRaw(n) >= 0
    ensures MetricsOf(ns).earningUsd - SumUsd(Filter(ns, ListedEarning), EarningRaw)
            == SumUsd(Filter(ns, IdleStaking), EarningRaw)
  {
    FilterSplits(ns, ListedEarning, EarningRaw);
    SameFilteredSum(ns, Not(ListedEarning), IdleStaking, EarningRaw);
  }

  /** An instance: two tokens of 6 decimals at a price of 5 are worth 10. */
  lemma TwoTokensWorth()
    ensures ToUsd(2_000_000, 6, 5.0) == 10.0
  {
    assert UnitsPerToken(2) == 100;
    assert UnitsPerToken(4) == 10_000;
    assert UnitsPerToken(6) == 1_000_000;
    WorthOfTokens(2, 0, 0, 6, 5.0);
  }

  // ---------------------------------------------------------------------------
  // The balances that the backend serves.
  // ---------------------------------------------------------------------------

  function StakedIn(p: Pool): int { p.stakedBalance }

  function UnstakedIn(p: Pool): int { p.unstakedBalance }

  /**
   * What the backend promises of a network's balance. A standard balance has no more locked than it holds. A staking
   * balance sums up its pools, of which there is at least one and none is empty.
   */
  ghost predicate Served(n: Network) {
    match n.balance
    case Standard(total, locked) => n.residency in {Near, Ft, Intents} && 0 <= locked <= total
    case Staking(staked, unstaked, _, pools) =>
      && n.residency == Staked && pools != []
      && (forall p :: p in pools ==>
            p.stakedBalance >= 0 && p.unstakedBalance >= 0 && p.stakedBalance + p.unstakedBalance > 0)
      && staked == Sum(pools, StakedIn) && unstaked == Sum(pools, UnstakedIn)
    case Vested(total, unvested, staked, storageLocked) =>
      n.residency == Lockup && total >= 0 && unvested >= 0 && staked >= 0 && storageLocked >= 0
  }

  lemma {:induction false} PoolSumPositiveIff(pools: seq<Pool>, amount: Pool -> int)
    requires forall p :: p in pools ==> amount(p) >= 0
    ensures Sum(pools, amount) >= 0
    ensures Sum(pools, amount) > 0 <==> exists i :: 0 <= i < |pools| && amount(pools[i]) > 0
  {
    if pools != [] {
      var n := |pools| - 1;
      PoolSumPositiveIff(pools[..n], amount);
      assert pools[n] in pools;
      assert forall i :: 0 <= i < n ==> pools[..n][i] == pools[i];
    }
  }

  lemma ServedAmounts(n: Network)
    requires Served(n)
    ensures AvailableRawForAvailableView(n) >= 0 && LockedRaw(n) >= 0
  {
  }

  /** For served balances the available and the locked row always equal the metrics. */
  lemma ServedRowsAgree(ns: seq<Network>)
    requires forall n :: n in ns ==> Served(n)
    ensures SumUsd(Filter(ns, ListedAvailable), AvailableRawForAvailableView) == MetricsOf(ns).availableUsd
    ensures SumUsd(Filter(ns, ListedLocked), LockedRaw) == MetricsOf(ns).lockedUsd
  {
    AvailableRowTotalIff(ns);
    LockedRowTotalIff(ns);
    forall n | n in ns ensures AvailableRawForAvailableView(n) >= 0 && LockedRaw(n) >= 0 {
      ServedAmounts(n);
    }
  }

  /** Stakes of which everything was unstaked and waits to be withdrawn. */
  predicate OnlyUnstaked(n: Network) {
    n.balance.Staking? && n.balance.stakedBalance == 0
  }

  lemma ServedIdle(n: Network)
    requires Served(n)
    ensures IdleStaking(n) <==> OnlyUnstaked(n)
    ensures OnlyUnstaked(n) ==> EarningRaw(n) > 0
    ensures EarningRaw(n) >= 0
  {
    if n.balance.Staking? {
      var pools := n.balance.pools;
      PoolSumPositiveIff(pools, StakedIn);
      PoolSumPositiveIff(pools, UnstakedIn);
      assert pools[0] in pools;
      assert StakedIn(pools[0]) > 0 || UnstakedIn(pools[0]) > 0;
    }
  }

  /**
   * For served balances the earning row falls short of the metric by exactly the stakes that only wait to be withdrawn.
   */
  lemma ServedEarningGap(ns: seq<Network>)
    requires forall n :: n in ns ==> Served(n)
    ensures MetricsOf(ns).earningUsd - SumUsd(Filter(ns, ListedEarning), EarningRaw)
            == SumUsd(Filter(ns, OnlyUnstaked), EarningRaw)
  {
    forall n | n in ns ensures EarningRaw(n) >= 0 && (IdleStaking(n) <==> OnlyUnstaked(n)) {
      ServedIdle(n);
    }
    EarningRowGap(ns);
    SameFilteredSum(ns, IdleStaking, OnlyUnstaked, EarningRaw);
  }

  /** An instance that is served: a stake of which all was unstaked is in the metric but not in the row. */
  lemma EarningRowDiffers(id: string, poolId: string)
    ensures var n := Network("near", Staked, id, None, None, Staking(0, 1, false, [Pool(poolId, 0, 1)]), 0, 1.0);
            && Served(n)
            && MetricsOf([n]).earningUsd == 1.0
            && SumUsd(Filter([n], ListedEarning), EarningRaw) == 0.0
  {
    var pool := Pool(poolId, 0, 1);
    var n := Network("near", Staked, id, None, None, Staking(0, 1, false, [pool]), 0, 1.0);
    OneNetwork(n, ListedEarning, EarningRaw);
    assert Usd(n, EarningRaw) == 1.0;
    assert [pool][..0] == [];
  }

  /** Whether an asset is shown in a view, against what its row would list. */
  lemma FlagsAgainstRows(ns: seq<Network>)
    ensures MetricsOf(ns).hasAvailable <==> Filter(ns, ListedAvailable) != []
    ensures Filter(ns, ListedLocked) != [] <==>
            MetricsOf(ns).hasLocked || exists n :: n in ns && n.residency == Lockup && AvailableRaw(n) > 0
    ensures MetricsOf(ns).hasEarning <==>
            Filter(ns, ListedEarning) != [] || exists n :: n in ns && IdleStaking(n) && EarningRaw(n) > 0
  {
    NonEmptyIff(ns, ListedAvailable);
    NonEmptyIff(ns, ListedLocked);
    NonEmptyIff(ns, ListedEarning);
    SomeIff(ns, AvailableRawForAvailableView);
    SomeIff(ns, LockedRaw);
    SomeIff(ns, EarningRaw);
  }

  lemma NonEmptyIff(ns: seq<Network>, keep: Network -> bool)
    ensures Filter(ns, keep) != [] <==> exists n :: n in ns && keep(n)
  {
    if Filter(ns, keep) != [] {
      assert Filter(ns, keep)[0] in Filter(ns, keep);
    }
  }

  lemma SomeIff(ns: seq<Network>, amount: Network -> int)
    ensures AnyPositive(ns, amount) <==> exists n :: n in ns && amount(n) > 0
  {
  }
}
