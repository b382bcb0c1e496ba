/** Fungible-token lockups: the next unlock date and the wording of the release interval. */
module LockupSchedule {
  import opened Wrappers

  /** What the unlock cell shows; `At` carries the date in seconds. */
  datatype Shown = NotAvailable | Completed | At(seconds: int)

  /** `None` stands for a missing or not-a-number argument. */
  predicate Usable(start: Option<int>, interval: Option<int>) {
    start.Some? && start.value != 0 && interval.Some? && interval.value > 0
  }

  function RoundsOf(roundsTotal: Option<int>): int {
    if roundsTotal.Some? then roundsTotal.value else 0
  }

  /** Round `k` of the schedule exists; a total that is not positive means no last round. */
  predicate IsRound(total: int, k: int) {
    1 <= k && (total > 0 ==> k <= total)
  }

  /** The number of the first round after `now`, capped at the total when there is one. */
  function StopRound(start: int, interval: int, total: int, now: int): int
    requires interval > 0
  {
    var due := (now - start) / interval + 1;
    var first := if due < 1 then 1 else due;
    if total > 0 && total < first then total else first
  }

  lemma FloorBounds(x: int, d: int)
    requires d > 0
    ensures x / d * d <= x < (x / d + 1) * d
  {
  }

  lemma Distributes(a: int, b: int, d: int)
    ensures (a + b) * d == a * d + b * d
  {
  }

  lemma NonNegativeProduct(a: nat, d: nat)
    ensures 0 <= a * d
  {
  }

  lemma RoundOrder(interval: int, a: int, b: int)
    requires interval > 0
    ensures a < b ==> a * interval + interval <= b * interval
    ensures a <= b ==> a * interval <= b * interval
  {
    if a < b {
      var c := b - a - 1;
      Distributes(a + 1, c, interval);
      Distributes(a, 1, interval);
      NonNegativeProduct(c, interval);
      assert b == (a + 1) + c;
    }
  }

  /** The closed form is the one round at which the loop can stop. */
  lemma StopRoundIsUnique(start: int, interval: int, total: int, now: int, k: int)
    requires interval > 0 && IsRound(total, k)
    requires k == 1 || start + (k - 1) * interval <= now
    requires now < start + k * interval || (total > 0 && k == total)
    ensures k == StopRound(start, interval, total, now)
  {
    var q := (now - start) / interval;
    FloorBounds(now - start, interval);
    if k - 1 > q { RoundOrder(interval, q + 1, k - 1); }
    if k < q + 1 { RoundOrder(interval, k, q); }
  }

  /** The source loop: step round by round until a round lies after `now` or the total is reached. */
  method NextUnlock(start: int, interval: int, total: int, now: int) returns (nextUnlock: int, releaseIndex: int)
    requires interval > 0
    ensures releaseIndex == StopRound(start, interval, total, now)
    ensures nextUnlock == start + releaseIndex * interval
    ensures IsRound(total, releaseIndex)
    ensures nextUnlock <= now ==> total > 0 && releaseIndex == total
    ensures releaseIndex == 1 || nextUnlock - interval <= now
  {
    nextUnlock := start + interval;
    releaseIndex := 1;
    while nextUnlock <= now && (total <= 0 || releaseIndex < total)
      invariant IsRound(total, releaseIndex)
      invariant nextUnlock == start + releaseIndex * interval
      invariant releaseIndex == 1 || nextUnlock - interval <= now
      decreases now - nextUnlock
    {
      nextUnlock := nextUnlock + interval;
      releaseIndex := releaseIndex + 1;
    }
    StopRoundIsUnique(start, interval, total, now, releaseIndex);
  }

  /** `at` is the earliest round of the schedule after `now`. */
  ghost predicate IsNext(start: int, interval: int, total: int, now: int, at: int) {
    && (exists k :: IsRound(total, k) && at == start + k * interval)
    && now < at
    && (forall k :: IsRound(total, k) && now < start + k * interval ==> at <= start + k * interval)
  }

  /** Every round lies at or before `now`. */
  ghost predicate AllReleased(start: int, interval: int, total: int, now: int) {
    forall k :: IsRound(total, k) ==> start + k * interval <= now
  }

  function FormatDateFromSeconds(seconds: int): Shown {
    if seconds <= 0 then NotAvailable else At(seconds)
  }

  /** The loop's two outcomes exclude each other: no round is next exactly when all are released. */
  lemma NextOrReleased(start: int, interval: int, total: int, now: int)
    requires interval > 0
    ensures AllReleased(start, interval, total, now) <==> !exists at :: IsNext(start, interval, total, now, at)
    ensures AllReleased(start, interval, total, now) <==> total > 0 && start + total * interval <= now
  {
    var k := StopRound(start, interval, total, now);
    FloorBounds(now - start, interval);
    var q := (now - start) / interval;
    var at := start + k * interval;
    if total > 0 && start + total * interval <= now {
      forall j | IsRound(total, j) ensures start + j * interval <= now {
        RoundOrder(interval, j, total);
      }
    } else {
      if total > 0 && total <= q { RoundOrder(interval, total, q); }
      assert k == (if q + 1 < 1 then 1 else q + 1);
      RoundOrder(interval, q + 1, k);
      assert IsRound(total, k) && now < at;
      forall j | IsRound(total, j) && now < start + j * interval ensures at <= start + j * interval {
        if j <= q { RoundOrder(interval, j, q); }
        RoundOrder(interval, k, j);
      }
      assert IsNext(start, interval, total, now, at);
    }
  }

  method CalculateNextFtUnlockDate(
    start: Option<int>, interval: Option<int>, roundsTotal: Option<int>, now: nat) returns (shown: Shown)
    ensures shown.NotAvailable? <==> start.None? || start == Some(0) || interval.None? || interval.value <= 0
    ensures shown.At? ==> IsNext(start.value, interval.value, RoundsOf(roundsTotal), now, shown.seconds)
    ensures shown.Completed? ==> AllReleased(start.value, interval.value, RoundsOf(roundsTotal), now)
    // there is a last round, and it is past
    ensures shown.Completed? <==> && Usable(start, interval) && roundsTotal.Some? && roundsTotal.value > 0
                                  && start.value + roundsTotal.value * interval.value <= now
  {
    if start.None? || start.value == 0 || interval.None? || interval.value <= 0 {
      return NotAvailable;
    }
    var total := RoundsOf(roundsTotal);
    var nextUnlock, releaseIndex := NextUnlock(start.value, interval.value, total, now);
    NextOrReleased(start.value, interval.value, total, now);
    if total > 0 && releaseIndex >= total && nextUnlock <= now {
      return Completed;
    }
    StopsAtNext(start.value, interval.value, total, now, releaseIndex);
    shown := FormatDateFromSeconds(nextUnlock);
  }

  lemma StopsAtNext(start: int, interval: int, total: int, now: int, k: int)
    requires interval > 0 && IsRound(total, k) && now < start + k * interval
    requires k == 1 || start + k * interval - interval <= now
    ensures IsNext(start, interval, total, now, start + k * interval)
    ensures !AllReleased(start, interval, total, now)
  {
    forall j | IsRound(total, j) && now < start + j * interval
      ensures start + k * interval <= start + j * interval
    {
      if j < k { RoundOrder(interval, j, k); }
      RoundOrder(interval, k, j);
    }
  }
}
