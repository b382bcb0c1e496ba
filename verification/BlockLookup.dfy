/** Block height by timestamp: cache, then recorded rows, then a binary search over the archival chain. */
module BlockLookup {

  newtype u64 = x: int | 0 <= x < 0x1_0000_0000_0000_0000

  /** Height of the oldest block the search looks at. */
  const FLOOR: u64 := 129265430

  /** The archival chain: timestamps by height. Heights may have been skipped by the chain. */
  datatype Chain = Chain(blocks: map<u64, int>, latest: u64) {
    ghost predicate Valid() {
      && latest in blocks
      && (forall h :: h in blocks ==> h <= latest)
      && (forall h, k :: h in blocks && k in blocks && h < k ==> blocks[h] < blocks[k])
    }

    /** The chain `d` continues this one. */
    ghost predicate ContinuedBy(d: Chain) {
      && latest <= d.latest
      && (forall h :: h in blocks ==> h in d.blocks && d.blocks[h] == blocks[h])
      && (forall h :: h in d.blocks && h !in blocks ==> latest < h)
    }
  }

  datatype Answer =
    | Found(height: u64)
    | OutOfRange                  // the date has no 64-bit nanosecond timestamp
    | Future                      // the target is later than the latest block
    | Unavailable(height: u64)    // the node did not answer for this height

  /** The specification: the least block at or above the floor that is not before the target. */
  ghost predicate IsLeast(c: Chain, target: int, h: u64) {
    && FLOOR <= h
    && h in c.blocks && target <= c.blocks[h]
    && (forall k :: k in c.blocks && FLOOR <= k < h ==> c.blocks[k] < target)
  }

  lemma LeastIsUnique(c: Chain, target: int, h: u64, k: u64)
    requires IsLeast(c, target, h) && IsLeast(c, target, k)
    ensures h == k
  {
    // the smaller of two least heights would have to lie before the target
    assert !(h < k) && !(k < h);
  }

  /** Appending blocks does not change which block is the least one. */
  lemma LeastIsStable(c: Chain, d: Chain, target: int, h: u64)
    requires c.Valid() && d.Valid() && c.ContinuedBy(d)
    requires h in c.blocks
    ensures IsLeast(c, target, h) <==> IsLeast(d, target, h)
  {
    forall k | k in d.blocks && k < h ensures k in c.blocks {}
  }

  function Pow2(n: nat): (p: nat)
    ensures 1 <= p
  {
    if n == 0 then 1 else 2 * Pow2(n - 1)
  }

  /** What a completed search may answer when the node answers for the heights in `online`. */
  ghost predicate SearchAnswers(c: Chain, online: set<u64>, target: int, r: Answer)
    requires c.Valid()
  {
    match r
    case OutOfRange => false
    case Future => c.latest in online && c.blocks[c.latest] < target
    case Unavailable(h) =>
      if c.latest in online
      then target <= c.blocks[c.latest] && FLOOR <= h < c.latest && !(h in online && h in c.blocks)
      else h == c.latest
    case Found(h) =>
      && c.latest in online && target <= c.blocks[c.latest]
      && (if c.latest < FLOOR then h == c.latest else IsLeast(c, target, h))
  }

  /** The probe between two heights, and how much it leaves on either side. */
  function Middle(left: u64, right: u64): (mid: u64)
    requires left <= right
    ensures left <= mid <= right
    ensures 2 * (mid as int - left as int) <= right as int - left as int + 1
    ensures 2 * (right as int - mid as int) <= right as int - left as int + 1
  {
    left + (right - left) / 2
  }

  datatype Outcome = Outcome(answer: Answer, probes: nat)

  function OneMore(o: Outcome): Outcome {
    o.(probes := o.probes + 1)
  }

  /**
   * The rest of a search between `left` and `right`, with `result` the best height so far and the number of blocks
   * still probed. Every arithmetic step is checked to stay within 64 unsigned bits by the type `u64`.
   */
  function Search(c: Chain, online: set<u64>, target: int, left: u64, right: u64, result: u64): Outcome
    requires c.latest in c.blocks && target <= c.blocks[c.latest] && right <= c.latest
    decreases right as int - left as int + 1
  {
    if left > right then Outcome(Found(result), 0)
    else
      var mid := Middle(left, right);
      if mid !in online || mid !in c.blocks then Outcome(Unavailable(mid), 0)
      else if c.blocks[mid] < target then OneMore(Search(c, online, target, mid + 1, right, result))
      else if c.blocks[mid] > target then
        if mid == 0 then Outcome(Found(mid), 1) else OneMore(Search(c, online, target, left, mid - 1, mid))
      else Outcome(Found(mid), 1)
  }

  /** What the loop knows: nothing from the floor up to `left` is late enough, and `result` follows `right`. */
  ghost predicate Narrowed(c: Chain, target: int, left: u64, right: u64, result: u64) {
    && FLOOR <= left && right <= c.latest
    && (c.latest < FLOOR ==> left == FLOOR && right == c.latest && result == right)
    && (FLOOR <= c.latest ==> left <= c.latest && left as int <= right as int + 1)
    && (result == right == c.latest || result as int == right as int + 1)
    && result in c.blocks && target <= c.blocks[result]
    && (forall k :: k in c.blocks && FLOOR <= k < left ==> c.blocks[k] < target)
  }

  lemma NarrowedUp(c: Chain, target: int, left: u64, right: u64, result: u64, mid: u64)
    requires c.Valid() && Narrowed(c, target, left, right, result) && left <= mid <= right
    requires mid in c.blocks && c.blocks[mid] < target <= c.blocks[c.latest]
    ensures mid < c.latest && Narrowed(c, target, mid + 1, right, result)
  {
    assert mid != c.latest;
    forall k | k in c.blocks && FLOOR <= k < mid + 1 ensures c.blocks[k] < target {
      assert k != mid ==> c.blocks[k] < c.blocks[mid];
    }
  }

  lemma NarrowedDown(c: Chain, target: int, left: u64, right: u64, result: u64, mid: u64)
    requires Narrowed(c, target, left, right, result) && left <= mid <= right && 0 < mid
    requires mid in c.blocks && target <= c.blocks[mid]
    ensures Narrowed(c, target, left, mid - 1, mid)
  {
  }

  /** Where nothing is left to search, `result` is the answer. */
  lemma NarrowedOut(c: Chain, online: set<u64>, target: int, left: u64, right: u64, result: u64)
    requires c.Valid() && c.latest in online && target <= c.blocks[c.latest]
    requires Narrowed(c, target, left, right, result) && right < left
    ensures SearchAnswers(c, online, target, Found(result))
  {
  }

  lemma ExactHit(c: Chain, online: set<u64>, target: int, left: u64, right: u64, result: u64, mid: u64)
    requires c.Valid() && c.latest in online && target <= c.blocks[c.latest]
    requires Narrowed(c, target, left, right, result) && left <= mid <= right
    requires mid in c.blocks && c.blocks[mid] == target
    ensures SearchAnswers(c, online, target, Found(mid))
  {
    forall k | k in c.blocks && FLOOR <= k < mid ensures c.blocks[k] < target {
    }
  }

  /** What the search may answer, and that an unavailable height is one between the floor and the latest block. */
  ghost predicate Right(c: Chain, online: set<u64>, target: int, r: Answer)
    requires c.Valid()
  {
    && SearchAnswers(c, online, target, r)
    && (r.Unavailable? ==> FLOOR <= r.height <= c.latest && !(r.height in online && r.height in c.blocks))
  }

  lemma Missing(c: Chain, online: set<u64>, target: int, h: u64)
    requires c.Valid() && c.latest in online && target <= c.blocks[c.latest]
    requires FLOOR <= h <= c.latest && !(h in online && h in c.blocks)
    ensures Right(c, online, target, Unavailable(h))
  {
    assert h != c.latest;
  }

  lemma {:induction false} SearchIsRight(c: Chain, online: set<u64>, target: int, left: u64, right: u64, result: u64)
    requires c.Valid() && c.latest in online && target <= c.blocks[c.latest] && Narrowed(c, target, left, right, result)
    ensures Right(c, online, target, Search(c, online, target, left, right, result).answer)
    decreases right as int - left as int + 1, 1
  {
    if right < left {
      NarrowedOut(c, online, target, left, right, result);
    } else {
      var mid := Middle(left, right);
      if mid !in online || mid !in c.blocks {
        Missing(c, online, target, mid);
      } else if c.blocks[mid] < target {
        SearchAbove(c, online, target, left, right, result, mid);
      } else if c.blocks[mid] > target {
        SearchBelow(c, online, target, left, right, result, mid);
      } else {
        ExactHit(c, online, target, left, right, result, mid);
      }
    }
  }

  lemma {:induction false} SearchAbove(c: Chain, online: set<u64>, target: int, left: u64, right: u64, result: u64,
                                       mid: u64)
    requires c.Valid() && c.latest in online && target <= c.blocks[c.latest] && Narrowed(c, target, left, right, result)
    requires left <= mid <= right && mid in c.blocks && c.blocks[mid] < target
    ensures mid < c.latest && Right(c, online, target, Search(c, online, target, mid + 1, right, result).answer)
    decreases right as int - left as int + 1, 0
  {
    NarrowedUp(c, target, left, right, result, mid);
    SearchIsRight(c, online, target, mid + 1, right, result);
  }

  lemma {:induction false} SearchBelow(c: Chain, online: set<u64>, target: int, left: u64, right: u64, result: u64,
                                       mid: u64)
    requires c.Valid() && c.latest in online && target <= c.blocks[c.latest] && Narrowed(c, target, left, right, result)
    requires left <= mid <= right && 0 < mid && mid in c.blocks && target < c.blocks[mid]
    ensures Right(c, online, target, Search(c, online, target, left, mid - 1, mid).answer)
    decreases right as int - left as int + 1, 0
  {
    NarrowedDown(c, target, left, right, result, mid);
    SearchIsRight(c, online, target, left, mid - 1, mid);
  }

  /** A search probes at most floor(log2(window)) + 1 blocks. */
  lemma {:induction false} SearchIsShort(c: Chain, online: set<u64>, target: int, left: u64, right: u64, result: u64)
    requires c.latest in c.blocks && target <= c.blocks[c.latest] && right <= c.latest
    ensures var probes := Search(c, online, target, left, right, result).probes;
            probes == 0 || Pow2(probes - 1) <= right as int - left as int + 1
    decreases right as int - left as int + 1
  {
    if left <= right {
      var mid := Middle(left, right);
      if mid in online && mid in c.blocks {
        if c.blocks[mid] < target {
          SearchIsShort(c, online, target, mid + 1, right, result);
        } else if c.blocks[mid] > target && mid > 0 {
          SearchIsShort(c, online, target, left, mid - 1, mid);
        }
      }
    }
  }

  method BinarySearch(c: Chain, online: set<u64>, target: int) returns (r: Answer, probes: nat)
    requires c.Valid()
    ensures SearchAnswers(c, online, target, r)
    ensures (forall h :: FLOOR <= h <= c.latest ==> h in online && h in c.blocks) && c.latest in online
            ==> !r.Unavailable?
    // at most floor(log2(window)) + 1 blocks are probed
    ensures probes == 0 || Pow2(probes - 1) <= c.latest as int - FLOOR as int + 1
  {
    probes := 0;
    if c.latest !in online {
      return Unavailable(c.latest), probes;
    }
    if target > c.blocks[c.latest] {
      return Future, probes;
    }
    SearchIsRight(c, online, target, FLOOR, c.latest, c.latest);
    SearchIsShort(c, online, target, FLOOR, c.latest, c.latest);
    r, probes := SearchLoop(c, online, target);
  }

  /** The loop of the search. */
  method SearchLoop(c: Chain, online: set<u64>, target: int) returns (r: Answer, probes: nat)
    requires c.latest in c.blocks && target <= c.blocks[c.latest]
    ensures Outcome(r, probes) == Search(c, online, target, FLOOR, c.latest, c.latest)
  {
    var left, right := FLOOR, c.latest;
    var result := right;
    probes := 0;
    while left <= right
      invariant right <= c.latest
      invariant var rest := Search(c, online, target, left, right, result);
                Search(c, online, target, FLOOR, c.latest, c.latest) == rest.(probes := probes + rest.probes)
      decreases right as int - left as int + 1
    {
      var mid := Middle(left, right);
      if mid !in online || mid !in c.blocks {
        return Unavailable(mid), probes;
      }
      probes := probes + 1;
      if c.blocks[mid] < target {
        left := mid + 1;
      } else if c.blocks[mid] > target {
        result := mid;
        if mid == 0 {
          return Found(result), probes;
        }
        right := mid - 1;
      } else {
        return Found(mid), probes;
      }
    }
    r := Found(result);
  }

  // ---------------------------------------------------------------------------
  // The three layers over a whole run.
  // ---------------------------------------------------------------------------

  /** A recorded balance change: the block it happened in and that block's timestamp. */
  datatype Row = Row(height: u64, timestamp: int)

  datatype World = World(chain: Chain, rows: set<Row>, cache: map<int, u64>) {
    ghost predicate Valid() {
      && chain.Valid() && FLOOR <= chain.latest
      && (forall r :: r in rows ==> r.height in chain.blocks && chain.blocks[r.height] == r.timestamp)
    }
  }

  datatype Event =
    | Append(height: u64, timestamp: int)
    | Insert(row: Row)
    | Evict(target: int)
    | Lookup(target: int, online: set<u64>, answer: Answer)

  predicate Is64Bit(t: int) {
    -0x8000_0000_0000_0000 <= t < 0x8000_0000_0000_0000
  }

  ghost predicate Matches(rows: set<Row>, target: int) {
    exists r :: r in rows && r.timestamp == target
  }

  ghost predicate LookupStep(w: World, target: int, online: set<u64>, answer: Answer, w': World)
    requires w.Valid()
  {
    && w'.chain == w.chain && w'.rows == w.rows
    && if !Is64Bit(target) then answer == OutOfRange && w'.cache == w.cache
       else if target in w.cache then answer == Found(w.cache[target]) && w'.cache == w.cache
       else
         && (if Matches(w.rows, target)
             then answer.Found? && Row(answer.height, target) in w.rows
             else SearchAnswers(w.chain, online, target, answer))
         // only successes are stored
         && w'.cache == (if answer.Found? then w.cache[target := answer.height] else w.cache)
  }

  ghost predicate Next(w: World, e: Event, w': World)
    requires w.Valid()
  {
    match e
    case Append(h, t) =>
      && w.chain.latest < h && w.chain.blocks[w.chain.latest] < t
      && w' == w.(chain := Chain(w.chain.blocks[h := t], h))
    case Insert(r) =>
      && r.height in w.chain.blocks && w.chain.blocks[r.height] == r.timestamp
      && w' == w.(rows := w.rows + {r})
    case Evict(t) => w' == w.(cache := w.cache - {t})
    case Lookup(t, online, a) => LookupStep(w, t, online, a, w')
  }

  /** The layered lookup, reading the rows and filling the cache. */
  class AppState {
    var rows: set<Row>
    var cache: map<int, u64>

    method FindBlockHeight(chain: Chain, online: set<u64>, target: int) returns (r: Answer)
      requires World(chain, rows, cache).Valid()
      modifies this`cache
      ensures Next(World(chain, old(rows), old(cache)), Lookup(target, online, r), World(chain, rows, cache))
      // the nanoseconds of a date from 1677 to 2262
      ensures r == OutOfRange <==> target < -9223372036854775808 || 9223372036854775807 < target
    {
      if !Is64Bit(target) {
        return OutOfRange;
      }
      if target in cache {
        return Found(cache[target]);
      }
      var matching := set row | row in rows && row.timestamp == target;
      if matching != {} {
        var row :| row in matching;
        r := Found(row.height);
      } else {
        assert forall row :: row in rows && row.timestamp == target ==> row in matching;
        var probes;
        r, probes := BinarySearch(chain, online, target);
      }
      if r.Found? {
        cache := cache[target := r.height];
      }
    }
  }

  /** A run: `ws[i]` is the world before event `es[i]`. It starts with an empty cache. */
  ghost predicate Run(ws: seq<World>, es: seq<Event>) {
    && |ws| == |es| + 1
    && ws[0].Valid() && ws[0].cache == map[]
    && (forall i :: 0 <= i < |es| ==> ws[i].Valid() && Next(ws[i], es[i], ws[i + 1]))
  }

  /** A stored height is the least block from the floor, or the exact block of a recorded row below the floor. */
  ghost predicate Justified(w: World, target: int, h: u64) {
    || IsLeast(w.chain, target, h)
    || (h < FLOOR && Row(h, target) in w.rows)
  }

  ghost predicate Inv(w: World) {
    && w.Valid()
    && (forall t :: t in w.cache ==> w.cache[t] in w.chain.blocks && Justified(w, t, w.cache[t]))
  }

  /** A row that matches the target exactly is the least block, provided it is not below the floor. */
  lemma RowIsLeast(w: World, r: Row)
    requires w.Valid() && r in w.rows
    ensures IsLeast(w.chain, r.timestamp, r.height) <==> FLOOR <= r.height
  {
  }

  lemma NextGrows(w: World, e: Event, w': World)
    requires w.Valid() && Next(w, e, w')
    ensures w.chain.ContinuedBy(w'.chain) && w.rows <= w'.rows
  {
  }

  lemma AppendKeepsInv(w: World, h: u64, t: int, w': World)
    requires Inv(w) && Next(w, Append(h, t), w')
    ensures Inv(w')
  {
    assert w'.chain.Valid() && w.chain.ContinuedBy(w'.chain);
    forall t | t in w'.cache ensures Justified(w', t, w'.cache[t]) {
      LeastIsStable(w.chain, w'.chain, t, w.cache[t]);
    }
  }

  lemma NextKeepsInv(w: World, e: Event, w': World)
    requires Inv(w) && Next(w, e, w')
    ensures Inv(w')
    ensures w.chain.ContinuedBy(w'.chain) && w.rows <= w'.rows
  {
    NextGrows(w, e, w');
    match e
    case Append(h, t) => AppendKeepsInv(w, h, t, w');
    case Insert(r) =>
    case Evict(t) =>
    case Lookup(t, online, a) =>
      if a.Found? && t !in w.cache && Matches(w.rows, t) {
        RowIsLeast(w, Row(a.height, t));
      }
  }

  lemma {:induction false} RunKeepsInv(ws: seq<World>, es: seq<Event>, i: nat)
    requires Run(ws, es) && i <= |es|
    ensures Inv(ws[i])
  {
    if i > 0 {
      RunKeepsInv(ws, es, i - 1);
      NextKeepsInv(ws[i - 1], es[i - 1], ws[i]);
    }
  }

  lemma ContinuedTransitive(c: Chain, d: Chain, e: Chain)
    requires c.ContinuedBy(d) && d.ContinuedBy(e)
    ensures c.ContinuedBy(e)
  {
    forall h | h in e.blocks && h !in c.blocks ensures c.latest < h {
      assert h in d.blocks || d.latest < h;
    }
  }

  /** One world grew into another. */
  ghost predicate Grown(w: World, w': World) {
    w.chain.ContinuedBy(w'.chain) && w.rows <= w'.rows
  }

  lemma GrownOnce(w: World, v: World, e: Event, w': World)
    requires Grown(w, v) && v.Valid() && Next(v, e, w')
    ensures Grown(w, w')
  {
    NextGrows(v, e, w');
    ContinuedTransitive(w.chain, v.chain, w'.chain);
  }

  lemma {:induction false} RunGrows(ws: seq<World>, es: seq<Event>, i: nat, j: nat)
    requires Run(ws, es) && i <= j <= |es|
    ensures ws[i].Valid() && ws[j].Valid() && Grown(ws[i], ws[j])
    decreases j - i
  {
    RunKeepsInv(ws, es, i);
    RunKeepsInv(ws, es, j);
    if i < j {
      RunGrows(ws, es, i, j - 1);
      GrownOnce(ws[i], ws[j - 1], es[j - 1], ws[j]);
    }
  }

  /**
   * Safety of a lookup anywhere in a run: every height answered is the least block from the floor,
   * except exactly for a recorded row below the floor that carries the target timestamp.
   */
  lemma AnswerIsLeast(ws: seq<World>, es: seq<Event>, i: nat)
    requires Run(ws, es) && i < |es| && es[i].Lookup? && es[i].answer.Found?
    ensures ws[i].Valid()
    ensures IsLeast(ws[i].chain, es[i].target, es[i].answer.height) <==> FLOOR <= es[i].answer.height
    ensures es[i].answer.height < FLOOR ==> Row(es[i].answer.height, es[i].target) in ws[i].rows
  {
    RunKeepsInv(ws, es, i);
    assert Next(ws[i], es[i], ws[i + 1]);
    if es[i].target !in ws[i].cache && Matches(ws[i].rows, es[i].target) {
      RowIsLeast(ws[i], Row(es[i].answer.height, es[i].target));
    }
  }

  /** The last moment up to `i` at which a target was not cached: the lookup there gave the value cached since. */
  function FilledAt(ws: seq<World>, target: int, i: nat): (j: nat)
    requires i < |ws|
    ensures j <= i
  {
    if i == 0 || target !in ws[i].cache then i else FilledAt(ws, target, i - 1)
  }

  /** A cached height was answered by the lookup that filled the cache. */
  lemma {:induction false} CachedSince(ws: seq<World>, es: seq<Event>, target: int, i: nat)
    requires Run(ws, es) && i <= |es| && target in ws[i].cache
    ensures var j := FilledAt(ws, target, i);
            && j < i && target !in ws[j].cache
            && es[j].Lookup? && es[j].target == target && es[j].answer == Found(ws[i].cache[target])
  {
    assert Next(ws[i - 1], es[i - 1], ws[i]);
    if target in ws[i - 1].cache {
      CachedSince(ws, es, target, i - 1);
    }
  }

  ghost predicate RowBelowFloor(w: World, target: int) {
    exists r :: r in w.rows && r.timestamp == target && r.height < FLOOR
  }

  lemma FreshAnswer(ws: seq<World>, es: seq<Event>, i: nat)
    requires Run(ws, es) && i < |es| && es[i].Lookup? && es[i].answer.Found? && es[i].target !in ws[i].cache
    ensures FLOOR <= es[i].answer.height <==> !RowBelowFloor(ws[i], es[i].target)
  {
    AnswerIsLeast(ws, es, i);
    var h, t := es[i].answer.height, es[i].target;
    if r :| r in ws[i].rows && r.timestamp == t && r.height < FLOOR {
      assert Next(ws[i], es[i], ws[i + 1]);
      assert Matches(ws[i].rows, t);
      assert Row(h, t) in ws[i].rows;
      assert !(h < r.height) && !(r.height < h);
    }
  }

  /**
   * Cached or not, an answer is the least block exactly when no row below the floor carried the target timestamp at
   * the lookup that first gave it: this one, or the one that filled the cache.
   */
  lemma AnswerIsLeastIff(ws: seq<World>, es: seq<Event>, i: nat)
    requires Run(ws, es) && i < |es| && es[i].Lookup? && es[i].answer.Found?
    ensures var j := FilledAt(ws, es[i].target, i);
            && es[j].Lookup? && es[j].target == es[i].target && es[j].answer == es[i].answer
            && es[i].target !in ws[j].cache
            && (IsLeast(ws[i].chain, es[i].target, es[i].answer.height) <==> !RowBelowFloor(ws[j], es[i].target))
  {
    var t := es[i].target;
    AnswerIsLeast(ws, es, i);
    assert Next(ws[i], es[i], ws[i + 1]);
    if t in ws[i].cache {
      CachedSince(ws, es, t, i);
    }
    FreshAnswer(ws, es, FilledAt(ws, t, i));
  }

  /**
   * Cache, rows and search agree for the whole run: while no recorded row below the floor carries the target's
   * timestamp, any two answers to the target are the same height, however far the chain has grown in between.
   */
  lemma AnswersNeverChange(ws: seq<World>, es: seq<Event>, i: nat, j: nat)
    requires Run(ws, es) && i <= j < |es|
    requires es[i].Lookup? && es[i].answer.Found? && es[j].Lookup? && es[j].answer.Found?
    requires es[i].target == es[j].target && !RowBelowFloor(ws[j], es[j].target)
    ensures es[i].answer == es[j].answer
    ensures IsLeast(ws[j].chain, es[j].target, es[j].answer.height)
  {
    AnswerIsLeast(ws, es, i);
    AnswerIsLeast(ws, es, j);
    RunGrows(ws, es, i, j);
    var h := es[i].answer.height;
    assert Row(h, es[i].target) in ws[j].rows ==> FLOOR <= Row(h, es[i].target).height;
    assert FLOOR <= es[j].answer.height;
    LeastIsStable(ws[i].chain, ws[j].chain, es[i].target, h);
    LeastIsUnique(ws[j].chain, es[j].target, h, es[j].answer.height);
  }

  /** A row below the floor makes the lookup answer below the floor although a later block is the least one. */
  lemma RowBelowFloorIsAnswered()
    ensures exists w: World, w': World ::
              && w.Valid() && LookupStep(w, 5, {}, Found(129265429), w')
              && IsLeast(w.chain, 5, 129265430)
  {
    var c := Chain(map[129265429 := 5, 129265430 := 9], 129265430);
    var w := World(c, {Row(129265429, 5)}, map[]);
    assert Row(129265429, 5) in w.rows;
    assert Matches(w.rows, 5);
    assert c.Valid() && w.Valid();
    assert LookupStep(w, 5, {}, Found(129265429), w.(cache := map[5 := 129265429]));
    assert IsLeast(c, 5, 129265430);
  }
}
