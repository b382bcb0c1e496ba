/** Merging the available networks of an asset by source, in a map that keeps insertion order. */
module SourceMerge {
  import opened Wrappers
  import opened AssetBuckets
  import opened Grouping
  import opened Sequences

  datatype Merged = Merged(network: Network, availableRaw: int, isLockupUnlocked: bool)

  function ResidencyName(r: Residency): string {
    match r
    case Near => "Near"
    case Ft => "Ft"
    case Intents => "Intents"
    case Lockup => "Lockup"
    case Staked => "Staked"
  }

  /** A lockup instance id that is present and not empty. */
  predicate IsLockupUnlocked(n: Network) {
    n.lockupInstanceId.Some? && n.lockupInstanceId.value != ""
  }

  function SourceTag(n: Network): string {
    if IsLockupUnlocked(n) then "lockup-unlocked" else ResidencyName(n.residency)
  }

  function SourceContract(n: Network): string {
    if n.contractId.Some? then n.contractId.value else n.id
  }

  function SourceKey(n: Network): string {
    n.network + ([':'] + (SourceTag(n) + ([':'] + SourceContract(n))))
  }

  lemma SplitAtColon(a: string, b: string, x: string, y: string)
    requires ':' !in a && ':' !in b && a + ([':'] + x) == b + ([':'] + y)
    ensures a == b && x == y
  {
    var v, w := a + ([':'] + x), b + ([':'] + y);
    assert forall i :: 0 <= i < |a| ==> v[i] == a[i];
    assert forall i :: 0 <= i < |b| ==> w[i] == b[i];
    assert v[|a|] == ':' && w[|b|] == ':';
    assert |a| == |b|;
    assert a == v[..|a|] && b == w[..|b|];
    assert x == v[|a| + 1..] && y == w[|b| + 1..];
  }

  lemma TagHasNoColon(n: Network)
    ensures ':' !in SourceTag(n)
  {
  }

  lemma NamesDiffer(r: Residency, q: Residency)
    ensures ResidencyName(r) == ResidencyName(q) <==> r == q
    ensures ResidencyName(r) != "lockup-unlocked"
  {
    assert |ResidencyName(r)| == |ResidencyName(q)| ==> ResidencyName(r)[0] == ResidencyName(q)[0] ==> r == q;
  }

  lemma TagsAgreeIff(m: Network, n: Network)
    ensures SourceTag(m) == SourceTag(n) <==> SameSource(m, n)
  {
    NamesDiffer(m.residency, n.residency);
    NamesDiffer(n.residency, m.residency);
  }

  /** The two come from lockups, or neither does and they reside in the same place. */
  predicate SameSource(m: Network, n: Network) {
    var fromLockup, alsoFromLockup := m.lockupInstanceId !in {None, Some("")}, n.lockupInstanceId !in {None, Some("")};
    (fromLockup && alsoFromLockup) || (!fromLockup && !alsoFromLockup && m.residency == n.residency)
  }

  /** The contracts agree, where an asset without one stands for itself. */
  predicate SameContract(m: Network, n: Network) {
    match (m.contractId, n.contractId)
    case (Some(c), Some(d)) => c == d
    case (Some(c), None) => c == n.id
    case (None, Some(d)) => m.id == d
    case (None, None) => m.id == n.id
  }

  /**
   * Two networks have one key exactly when network, kind of source and contract agree; only network names must be free
   * of colons.
   */
  lemma SourceKeyIff(m: Network, n: Network)
    requires ':' !in m.network && ':' !in n.network
    ensures SourceKey(m) == SourceKey(n) <==> m.network == n.network && SameSource(m, n) && SameContract(m, n)
  {
    TagsAgreeIff(m, n);
    if SourceKey(m) == SourceKey(n) {
      TagHasNoColon(m);
      TagHasNoColon(n);
      SplitAtColon(m.network, n.network, SourceTag(m) + ([':'] + SourceContract(m)),
                   SourceTag(n) + ([':'] + SourceContract(n)));
      SplitAtColon(SourceTag(m), SourceTag(n), SourceContract(m), SourceContract(n));
    }
  }

  // ---------------------------------------------------------------------------
  // The merge itself.
  // ---------------------------------------------------------------------------

  function MergedGroup(g: Option<Group<Network>>): Option<Merged> {
    if g.Some? then Some(Merged(g.value.first, g.value.sum, IsLockupUnlocked(g.value.first))) else None
  }

  function MergedOf(key: Network -> string, ns: seq<Network>, k: string): Option<Merged> {
    MergedGroup(GroupOf(ns, key, AvailableRawForAvailableView, k))
  }

  function Lookup(m: map<string, Merged>, k: string): Option<Merged> {
    if k in m then Some(m[k]) else None
  }

  /** What one step does to the map and its insertion order. */
  ghost predicate Merges(key: Network -> string, n: Network,
                         m: map<string, Merged>, order: seq<string>, m': map<string, Merged>, order': seq<string>)
  {
    && order' == (if key(n) in m then order else order + [key(n)])
    && forall k :: Lookup(m', k) ==
         if k != key(n) then Lookup(m, k)
         else if k in m then Some(m[k].(availableRaw := m[k].availableRaw + AvailableRawForAvailableView(n)))
         else Some(Merged(n, AvailableRawForAvailableView(n), IsLockupUnlocked(n)))
  }

  /** The map and its order hold the groups of the networks met so far. */
  ghost predicate Holds(key: Network -> string, ns: seq<Network>, m: map<string, Merged>, order: seq<string>) {
    && order == Keys(ns, key)
    && forall k :: Lookup(m, k) == MergedOf(key, ns, k)
  }

  lemma MergeKeepsHolds(key: Network -> string, ns: seq<Network>, n: Network,
                        m: map<string, Merged>, order: seq<string>, m': map<string, Merged>, order': seq<string>)
    requires Holds(key, ns, m, order) && Merges(key, n, m, order, m', order')
    ensures Holds(key, ns + [n], m', order')
  {
    assert (ns + [n])[..|ns|] == ns;
    GroupIffKey(ns, key, AvailableRawForAvailableView, key(n));
    assert Lookup(m, key(n)) == MergedOf(key, ns, key(n));
    forall k ensures Lookup(m', k) == MergedOf(key, ns + [n], k) {
      EntryAfterMerge(key, ns, n, m, order, m', order', k);
    }
  }

  lemma EntryAfterMerge(key: Network -> string, ns: seq<Network>, n: Network, m: map<string, Merged>,
                        order: seq<string>, m': map<string, Merged>, order': seq<string>, k: string)
    requires Merges(key, n, m, order, m', order') && Lookup(m, k) == MergedOf(key, ns, k)
    ensures Lookup(m', k) == MergedOf(key, ns + [n], k)
  {
    GroupOfNext(ns, key, AvailableRawForAvailableView, k, n);
  }

  lemma HoldsAt(key: Network -> string, ns: seq<Network>, m: map<string, Merged>, order: seq<string>, j: nat)
    requires Holds(key, ns, m, order) && j < |order|
    ensures order[j] in m && MergedOf(key, ns, order[j]) == Some(m[order[j]])
  {
    assert order[j] in order;
    GroupIffKey(ns, key, AvailableRawForAvailableView, order[j]);
    assert Lookup(m, order[j]) == MergedOf(key, ns, order[j]);
  }

  /** The loop body: update the entry of the network's key in place, or add one at the end. */
  method MergeOne(key: Network -> string, network: Network, bySource: map<string, Merged>, order: seq<string>)
    returns (bySource': map<string, Merged>, order': seq<string>)
    ensures Merges(key, network, bySource, order, bySource', order')
  {
    var sourceKey := key(network);
    var availableRaw := AvailableRawForAvailableView(network);
    if sourceKey in bySource {
      var existing := bySource[sourceKey];
      bySource' := bySource[sourceKey := existing.(availableRaw := existing.availableRaw + availableRaw)];
      order' := order;
    } else {
      bySource' := bySource[sourceKey := Merged(network, availableRaw, IsLockupUnlocked(network))];
      order' := order + [sourceKey];
    }
  }

  /** One step after the networks in `done`. */
  method MergeNext(key: Network -> string, ghost done: seq<Network>, network: Network,
                   bySource: map<string, Merged>, order: seq<string>)
    returns (bySource': map<string, Merged>, order': seq<string>)
    requires Holds(key, done, bySource, order)
    ensures Holds(key, done + [network], bySource', order')
  {
    bySource', order' := MergeOne(key, network, bySource, order);
    MergeKeepsHolds(key, done, network, bySource, order, bySource', order');
  }

  lemma PrefixGrows(ns: seq<Network>, i: nat)
    requires i < |ns|
    ensures ns[..i + 1] == ns[..i] + [ns[i]]
  {
  }

  /** The whole loop, for any key: one entry per key, in first-occurrence order, holding the key's group. */
  method MergeByKey(key: Network -> string, ns: seq<Network>) returns (merged: seq<Merged>)
    ensures |merged| == |Keys(ns, key)|
    ensures forall j :: 0 <= j < |merged| ==> MergedOf(key, ns, Keys(ns, key)[j]) == Some(merged[j])
  {
    var bySource: map<string, Merged> := map[];
    var order: seq<string> := [];
    for i := 0 to |ns|
      invariant Holds(key, ns[..i], bySource, order)
    {
      PrefixGrows(ns, i);
      bySource, order := MergeNext(key, ns[..i], ns[i], bySource, order);
    }
    assert ns[..|ns|] == ns;
    merged := Values(key, ns, bySource, order);
  }

  /** The values of the map, in insertion order. */
  method Values(ghost key: Network -> string, ghost ns: seq<Network>, bySource: map<string, Merged>, order: seq<string>)
    returns (merged: seq<Merged>)
    requires Holds(key, ns, bySource, order)
    ensures |merged| == |Keys(ns, key)|
    ensures forall j :: 0 <= j < |merged| ==> MergedOf(key, ns, Keys(ns, key)[j]) == Some(merged[j])
  {
    forall j: nat | j < |order|
      ensures order[j] in bySource && MergedOf(key, ns, order[j]) == Some(bySource[order[j]])
    {
      HoldsAt(key, ns, bySource, order, j);
    }
    merged := seq(|order|, j requires 0 <= j < |order| && order[j] in bySource => bySource[order[j]]);
  }

  method MergeAvailableNetworks(ns: seq<Network>) returns (merged: seq<Merged>)
    ensures |merged| == |Keys(ns, SourceKey)|
    ensures forall j :: 0 <= j < |merged| ==> MergedOf(SourceKey, ns, Keys(ns, SourceKey)[j]) == Some(merged[j])
    // nothing is lost and nothing is counted twice
    ensures MergedSum(merged) == Sum(ns, AvailableRawForAvailableView)
  {
    merged := MergeByKey(SourceKey, ns);
    MergedConserve(SourceKey, ns, merged);
  }

  function MergedSum(merged: seq<Merged>): int {
    Sum(merged, (m: Merged) => m.availableRaw)
  }

  lemma MergedConserve(key: Network -> string, ns: seq<Network>, merged: seq<Merged>)
    requires |merged| == |Keys(ns, key)|
    requires forall j :: 0 <= j < |merged| ==> MergedOf(key, ns, Keys(ns, key)[j]) == Some(merged[j])
    ensures MergedSum(merged) == Sum(ns, AvailableRawForAvailableView)
  {
    MergedPrefix(key, ns, merged, |merged|);
    assert merged[..|merged|] == merged && Keys(ns, key)[..|merged|] == Keys(ns, key);
    GroupsConserve(ns, key, AvailableRawForAvailableView);
  }

  lemma {:induction false} MergedPrefix(key: Network -> string, ns: seq<Network>, merged: seq<Merged>, j: nat)
    requires |merged| == |Keys(ns, key)| && j <= |merged|
    requires forall j :: 0 <= j < |merged| ==> MergedOf(key, ns, Keys(ns, key)[j]) == Some(merged[j])
    ensures MergedSum(merged[..j]) == SumOfKeys(ns, key, AvailableRawForAvailableView, Keys(ns, key)[..j])
  {
    if j > 0 {
      MergedPrefix(key, ns, merged, j - 1);
      assert merged[..j][..j - 1] == merged[..j - 1];
      assert Keys(ns, key)[..j][..j - 1] == Keys(ns, key)[..j - 1];
      assert MergedOf(key, ns, Keys(ns, key)[j - 1]) == Some(merged[j - 1]);
    }
  }
}
