/** The wording of a release interval: a greedy split of seconds into years, days, hours, minutes and seconds. */
module ReleaseInterval {
  import opened Wrappers

  datatype Part = Part(count: int, unit: nat)

  /** The seconds in a unit; units are numbered 0 to 4, year first. */
  function UnitSeconds(unit: nat): (n: int) {
    match unit
    case 0 => 31536000
    case 1 => 86400
    case 2 => 3600
    case 3 => 60
    case _ => 1
  }

  datatype Wording =
    | NotAvailable
    | EveryMonth
    | EveryQuarter
    | EveryUnit(unit: nat)
    | EveryMultiple(parts: seq<Part>)

  /** The seconds a split stands for. */
  function Total(parts: seq<Part>): int
    requires forall i :: 0 <= i < |parts| ==> parts[i].unit < 5
  {
    if parts == [] then 0 else parts[0].count * UnitSeconds(parts[0].unit) + Total(parts[1..])
  }

  predicate WellFormed(parts: seq<Part>) {
    forall i :: 0 <= i < |parts| ==> parts[i].unit < 5
  }

  /** Units strictly decreasing, every count positive and too small to carry into the next larger unit. */
  predicate Canonical(parts: seq<Part>) {
    && WellFormed(parts)
    && (forall i, j :: 0 <= i < j < |parts| ==> parts[i].unit < parts[j].unit)
    && (forall i :: 0 <= i < |parts| ==> 1 <= parts[i].count && FitsUnit(parts[i]))
  }

  predicate FitsUnit(p: Part) {
    match p.unit
    case 0 => true
    case 1 => p.count < 365
    case 2 => p.count < 24
    case _ => p.count < 60
  }

  /** How many units a split uses in all. */
  function Pieces(parts: seq<Part>): int {
    if parts == [] then 0 else parts[0].count + Pieces(parts[1..])
  }

  // A split as a vector of counts.

  datatype Counts = Counts(y: int, d: int, h: int, m: int, s: int) {
    function Seconds(): int { 31536000 * y + 86400 * d + 3600 * h + 60 * m + s }
    function Sum(): int { y + d + h + m + s }
    predicate Natural() { 0 <= y && 0 <= d && 0 <= h && 0 <= m && 0 <= s }
    predicate Reduced() { Natural() && d < 365 && h < 24 && m < 60 && s < 60 }
  }

  function AddPart(v: Counts, p: Part): Counts
    requires p.unit < 5
  {
    match p.unit
    case 0 => v.(y := v.y + p.count)
    case 1 => v.(d := v.d + p.count)
    case 2 => v.(h := v.h + p.count)
    case 3 => v.(m := v.m + p.count)
    case _ => v.(s := v.s + p.count)
  }

  function Vector(parts: seq<Part>): Counts
    requires WellFormed(parts)
  {
    if parts == [] then Counts(0, 0, 0, 0, 0) else AddPart(Vector(parts[1..]), parts[0])
  }

  lemma AddPartKeeps(v: Counts, p: Part)
    requires p.unit < 5
    ensures AddPart(v, p).Seconds() == v.Seconds() + p.count * UnitSeconds(p.unit)
    ensures AddPart(v, p).Sum() == v.Sum() + p.count
    ensures v.Natural() && 0 <= p.count ==> AddPart(v, p).Natural()
  {
    match p.unit
    case 0 =>
    case 1 =>
    case 2 =>
    case 3 =>
    case _ =>
  }

  lemma {:induction false} VectorKeeps(parts: seq<Part>)
    requires WellFormed(parts)
    ensures Vector(parts).Seconds() == Total(parts)
    ensures Vector(parts).Sum() == Pieces(parts)
    ensures (forall i :: 0 <= i < |parts| ==> 0 <= parts[i].count) ==> Vector(parts).Natural()
  {
    if parts != [] {
      VectorKeeps(parts[1..]);
      AddPartKeeps(Vector(parts[1..]), parts[0]);
    }
  }

  /** Reduced counts are determined by their seconds. */
  lemma ReducedUnique(a: Counts, b: Counts)
    requires a.Reduced() && b.Reduced() && a.Seconds() == b.Seconds()
    ensures a == b
  {
    var hoursA, hoursB := 24 * (365 * a.y + a.d) + a.h, 24 * (365 * b.y + b.d) + b.h;
    SameDigits(60 * hoursA + a.m, a.s, 60 * hoursB + b.m, b.s, 60);
    SameDigits(hoursA, a.m, hoursB, b.m, 60);
    SameDigits(365 * a.y + a.d, a.h, 365 * b.y + b.d, b.h, 24);
    SameDigits(a.y, a.d, b.y, b.d, 365);
  }

  lemma SameDigits(p: int, q: int, r: int, s: int, base: int)
    requires base in {1, 24, 60, 365, 3600, 86400, 31536000}
    requires p * base + q == r * base + s && 0 <= q < base && 0 <= s < base
    ensures p == r && q == s
  {
    if base == 1 {
    } else if base == 24 {
    } else if base == 60 {
    } else if base == 365 {
    } else if base == 3600 {
    } else if base == 86400 {
    }
  }

  /** Carrying into a larger unit uses fewer pieces, so the reduced split uses the fewest. */
  lemma {:induction false} ReducedFewest(a: Counts, b: Counts)
    requires a.Reduced() && b.Natural() && a.Seconds() == b.Seconds()
    ensures a.Sum() <= b.Sum()
    ensures a.Sum() == b.Sum() ==> a == b
    decreases b.Sum()
  {
    if b.s >= 60 { ReducedFewest(a, b.(m := b.m + 1, s := b.s - 60)); }
    else if b.m >= 60 { ReducedFewest(a, b.(h := b.h + 1, m := b.m - 60)); }
    else if b.h >= 24 { ReducedFewest(a, b.(d := b.d + 1, h := b.h - 24)); }
    else if b.d >= 365 { ReducedFewest(a, b.(y := b.y + 1, d := b.d - 365)); }
    else { ReducedUnique(a, b); }
  }

  function CountAt(v: Counts, unit: nat): int {
    match unit
    case 0 => v.y
    case 1 => v.d
    case 2 => v.h
    case 3 => v.m
    case _ => v.s
  }

  lemma AddPartCounts(v: Counts, p: Part, unit: nat)
    requires p.unit < 5 && unit < 5
    ensures CountAt(AddPart(v, p), unit) == CountAt(v, unit) + (if unit == p.unit then p.count else 0)
  {
  }

  /** A canonical split from unit `k` down has no count above `k`, and its counts fit their units. */
  lemma {:induction false} CanonicalCounts(parts: seq<Part>, k: nat, unit: nat)
    requires Canonical(parts) && k <= 5 && unit < 5 && forall i :: 0 <= i < |parts| ==> k <= parts[i].unit
    ensures var n := CountAt(Vector(parts), unit);
            0 <= n && FitsUnit(Part(n, unit)) && (unit < k ==> n == 0)
  {
    if parts != [] {
      CanonicalCounts(parts[1..], parts[0].unit + 1, unit);
      AddPartCounts(Vector(parts[1..]), parts[0], unit);
    }
  }

  lemma CanonicalReduced(parts: seq<Part>)
    requires Canonical(parts)
    ensures Vector(parts).Reduced()
  {
    CanonicalCounts(parts, 0, 0);
    CanonicalCounts(parts, 0, 1);
    CanonicalCounts(parts, 0, 2);
    CanonicalCounts(parts, 0, 3);
    CanonicalCounts(parts, 0, 4);
  }

  /** The units after unit `k` hold less than one of unit `k`. */
  lemma {:induction false} CanonicalBound(parts: seq<Part>, k: nat)
    requires Canonical(parts) && k < 5 && forall i :: 0 <= i < |parts| ==> k < parts[i].unit
    ensures 0 <= Total(parts) < UnitSeconds(k)
    decreases |parts|
  {
    if parts != [] {
      CanonicalBound(parts[1..], parts[0].unit);
      LargerUnit(parts[0], k);
    }
  }

  lemma LargerUnit(p: Part, k: nat)
    requires k < p.unit < 5 && 1 <= p.count && FitsUnit(p)
    ensures 0 < UnitSeconds(p.unit) <= p.count * UnitSeconds(p.unit) <= UnitSeconds(k) - UnitSeconds(p.unit)
  {
    match p.unit
    case 1 =>
    case 2 =>
    case 3 =>
    case _ =>
  }

  /** The canonical split of a number of seconds is unique. */
  lemma {:induction false} CanonicalUnique(a: seq<Part>, b: seq<Part>)
    requires Canonical(a) && Canonical(b) && Total(a) == Total(b)
    ensures a == b
    decreases |a|
  {
    if a == [] {
      if b != [] { HeadBounds(b); }
    } else if b == [] {
      HeadBounds(a);
    } else {
      HeadBounds(a);
      HeadBounds(b);
      if a[0].unit < b[0].unit { CanonicalBound(b, a[0].unit); }
      if b[0].unit < a[0].unit { CanonicalBound(a, b[0].unit); }
      SameDigits(a[0].count, Total(a[1..]), b[0].count, Total(b[1..]), UnitSeconds(a[0].unit));
      CanonicalUnique(a[1..], b[1..]);
      assert a == [a[0]] + a[1..] && b == [b[0]] + b[1..];
    }
  }

  lemma HeadBounds(parts: seq<Part>)
    requires Canonical(parts) && parts != []
    ensures 0 <= Total(parts[1..]) < UnitSeconds(parts[0].unit) <= Total(parts)
  {
    CanonicalBound(parts[1..], parts[0].unit);
    match parts[0].unit
    case 0 =>
    case 1 =>
    case 2 =>
    case 3 =>
    case _ =>
  }

  /** No split of the same seconds uses fewer pieces than the canonical one. */
  lemma CanonicalFewest(a: seq<Part>, b: seq<Part>)
    requires Canonical(a) && WellFormed(b) && (forall i :: 0 <= i < |b| ==> 0 <= b[i].count)
    requires Total(a) == Total(b)
    ensures Pieces(a) <= Pieces(b)
  {
    VectorKeeps(a);
    VectorKeeps(b);
    CanonicalReduced(a);
    ReducedFewest(Vector(a), Vector(b));
  }

  lemma {:induction false} TotalAppend(parts: seq<Part>, p: Part)
    requires WellFormed(parts) && p.unit < 5
    ensures Total(parts + [p]) == Total(parts) + p.count * UnitSeconds(p.unit)
  {
    if parts != [] {
      assert (parts + [p])[1..] == parts[1..] + [p];
      TotalAppend(parts[1..], p);
    }
  }

  /** What one greedy step takes fits its unit, leaves less than the unit and loses nothing. */
  lemma GreedyStep(remaining: int, unit: nat)
    requires unit < 5 && 0 <= remaining && (0 < unit ==> remaining < UnitSeconds(unit - 1))
    ensures var count := remaining / UnitSeconds(unit);
            && 0 <= count && FitsUnit(Part(count, unit))
            && 0 <= remaining % UnitSeconds(unit) < UnitSeconds(unit)
            && count * UnitSeconds(unit) + remaining % UnitSeconds(unit) == remaining
            && (UnitSeconds(unit) <= remaining ==> 1 <= count)
  {
    match unit
    case 0 =>
    case 1 =>
    case 2 =>
    case 3 =>
    case _ =>
  }

  /** The greedy loop over the units. */
  method SplitSeconds(seconds: int) returns (parts: seq<Part>)
    requires 0 < seconds
    ensures Canonical(parts) && Total(parts) == seconds
  {
    var remaining := seconds;
    parts := [];
    for i := 0 to 5
      invariant 0 <= remaining && (0 < i ==> remaining < UnitSeconds(i - 1))
      invariant Canonical(parts) && (forall j :: 0 <= j < |parts| ==> parts[j].unit < i)
      invariant Total(parts) + remaining == seconds
    {
      if remaining < UnitSeconds(i) {
        continue;
      }
      GreedyStep(remaining, i);
      var count := remaining / UnitSeconds(i);
      if count <= 0 {
        continue;
      }
      TotalAppend(parts, Part(count, i));
      parts := parts + [Part(count, i)];
      remaining := remaining % UnitSeconds(i);
    }
  }

  /** The seconds a wording stands for. */
  function Meaning(w: Wording): Option<int> {
    match w
    case NotAvailable => None
    case EveryMonth => Some(2592000)
    case EveryQuarter => Some(7776000)
    case EveryUnit(u) => if u < 5 then Some(UnitSeconds(u)) else None
    case EveryMultiple(parts) => if WellFormed(parts) then Some(Total(parts)) else None
  }

  method FormatReleaseInterval(seconds: Option<int>) returns (w: Wording)
    // the wording says exactly how long the interval is
    ensures seconds.Some? && 0 < seconds.value ==> Meaning(w) == seconds
    ensures seconds.None? || seconds.value <= 0 ==> w == NotAvailable
    // in canonical parts, and in a single word where there is one
    ensures w.EveryMultiple? ==> Canonical(w.parts) && 2 <= Pieces(w.parts)
    ensures seconds == Some(2592000) <==> w == EveryMonth
    ensures seconds == Some(7776000) <==> w == EveryQuarter
  {
    if seconds.None? || seconds.value <= 0 {
      return NotAvailable;
    }
    if seconds.value == 2592000 {
      return EveryMonth;
    }
    if seconds.value == 7776000 {
      return EveryQuarter;
    }
    var parts := SplitSeconds(seconds.value);
    if |parts| == 1 && parts[0].count == 1 {
      return EveryUnit(parts[0].unit);
    }
    PiecesAtLeast(parts);
    w := if parts == [] then NotAvailable else EveryMultiple(parts);
  }

  lemma {:induction false} PiecesAtLeast(parts: seq<Part>)
    requires Canonical(parts)
    ensures |parts| <= Pieces(parts)
    ensures parts != [] ==> parts[0].count + |parts| - 1 <= Pieces(parts)
  {
    if parts != [] {
      PiecesAtLeast(parts[1..]);
    }
  }
}
