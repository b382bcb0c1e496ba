/** The account id pattern, a one-pass reading of it, and the input sanitiser. */
module AccountId {
  import opened Ascii

  // ---------------------------------------------------------------------------
  // Regular expressions over character classes, anchored at both ends.
  // ---------------------------------------------------------------------------

  datatype Regex =
    | Class(chars: set<char>)
    | Cat(first: Regex, second: Regex)
    | Star(body: Regex)

  ghost predicate Matches(r: Regex, s: string)
    decreases |s|, r
  {
    match r
    case Class(chars) => |s| == 1 && s[0] in chars
    case Cat(a, b) => exists k :: 0 <= k <= |s| && Matches(a, s[..k]) && Matches(b, s[k..])
    case Star(body) => s == [] || exists k :: 0 < k <= |s| && Matches(body, s[..k]) && Matches(Star(body), s[k..])
  }

  /** The first `k` characters match `a` and the others match `b`. */
  ghost predicate MatchesSplit(a: Regex, b: Regex, s: string, k: int) {
    0 <= k <= |s| && Matches(a, s[..k]) && Matches(b, s[k..])
  }

  lemma CatMatches(a: Regex, b: Regex, s: string)
    ensures Matches(Cat(a, b), s) <==> exists k :: MatchesSplit(a, b, s, k)
  {
    if Matches(Cat(a, b), s) {
      var k :| 0 <= k <= |s| && Matches(a, s[..k]) && Matches(b, s[k..]);
      assert MatchesSplit(a, b, s, k);
    }
  }

  lemma StarMatches(body: Regex, s: string)
    ensures Matches(Star(body), s) <==> s == [] || exists k :: 0 < k && MatchesSplit(body, Star(body), s, k)
  {
    if Matches(Star(body), s) && s != [] {
      var k :| 0 < k <= |s| && Matches(body, s[..k]) && Matches(Star(body), s[k..]);
      assert MatchesSplit(body, Star(body), s, k);
    }
  }

  function Plus(r: Regex): Regex { Cat(r, Star(r)) }

  const ALNUM: set<char> := set c: char | 'a' <= c <= 'z' || '0' <= c <= '9'
  const DASHES: set<char> := {'-', '_'}
  const DOT: set<char> := {'.'}

  /** `([a-z\d]+[\-_])*[a-z\d]+` */
  const WORD := Cat(Star(Cat(Plus(Class(ALNUM)), Class(DASHES))), Plus(Class(ALNUM)))

  /** `^(([a-z\d]+[\-_])*[a-z\d]+\.)*([a-z\d]+[\-_])*[a-z\d]+$` */
  const PATTERN := Cat(Star(Cat(WORD, Class(DOT))), WORD)

  // ---------------------------------------------------------------------------
  // The one-pass reading.
  // ---------------------------------------------------------------------------

  /** Not empty, only letters, digits and separators, a letter or digit at both ends, no two separators in a row. */
  predicate Separated(separators: set<char>, s: string) {
    && s != []
    && s[0] in ALNUM && s[|s| - 1] in ALNUM
    && (forall i :: 0 <= i < |s| ==> s[i] in ALNUM || s[i] in separators)
    && (forall i :: 0 <= i < |s| - 1 ==> s[i] in ALNUM || s[i + 1] in ALNUM)
  }

  /** `w` matches exactly the words separated by `a`. */
  ghost predicate Recognises(w: Regex, a: set<char>) {
    forall s :: Matches(w, s) <==> Separated(a, s)
  }

  predicate AllIn(cs: set<char>, s: string) {
    forall i :: 0 <= i < |s| ==> s[i] in cs
  }

  lemma AllInSplit(cs: set<char>, s: string, k: nat)
    requires k <= |s|
    ensures AllIn(cs, s) <==> AllIn(cs, s[..k]) && AllIn(cs, s[k..])
  {
    assert s == s[..k] + s[k..];
  }

  lemma {:induction false} StarOfClass(cs: set<char>, s: string)
    ensures Matches(Star(Class(cs)), s) <==> AllIn(cs, s)
    decreases |s|
  {
    StarMatches(Class(cs), s);
    if s != [] {
      StarOfClass(cs, s[1..]);
      AllInSplit(cs, s, 1);
      assert Matches(Star(Class(cs)), s) <==> MatchesSplit(Class(cs), Star(Class(cs)), s, 1);
    }
  }

  lemma PlusRecognises()
    ensures Recognises(Plus(Class(ALNUM)), {})
  {
    var r := Class(ALNUM);
    forall s ensures Matches(Plus(r), s) <==> Separated({}, s) {
      CatMatches(r, Star(r), s);
      if s != [] {
        StarOfClass(ALNUM, s[1..]);
        AllInSplit(ALNUM, s, 1);
        assert Matches(Plus(r), s) <==> MatchesSplit(r, Star(r), s, 1);
      }
    }
  }

  /** `(W T)* W` for words `W` separated by `a` and one separator from `t`. */
  function Joined(w: Regex, t: set<char>): Regex { Cat(Star(Cat(w, Class(t))), w) }

  /** Gluing two separated words with one separator gives a separated word. */
  lemma Glue(a: set<char>, t: set<char>, x: string, c: char, y: string)
    requires Separated(a, x) && c in t && Separated(a + t, y)
    ensures Separated(a + t, x + [c] + y)
  {
    var s := x + [c] + y;
    forall i | 0 <= i < |s| - 1 ensures s[i] in ALNUM || s[i + 1] in ALNUM {
      if i + 1 < |x| {
        assert s[i] == x[i] && s[i + 1] == x[i + 1];
      } else if i > |x| {
        assert s[i] == y[i - |x| - 1] && s[i + 1] == y[i - |x|];
      }
    }
  }

  lemma Regroup(p: string, k: nat, j: nat, y: string)
    requires j + 1 == k <= |p|
    ensures p + y == p[..k][..j] + [p[..k][j]] + (p[k..] + y)
  {
    assert p == p[..j] + [p[j]] + p[k..];
  }

  /** Any repetition of word-and-separator, followed by a word, is separated. */
  lemma {:induction false} JoinedIsSeparated(w: Regex, a: set<char>, t: set<char>, p: string, y: string)
    requires Recognises(w, a) && Matches(Star(Cat(w, Class(t))), p) && Separated(a + t, y)
    ensures Separated(a + t, p + y)
    decreases |p|
  {
    if p == [] {
      assert p + y == y;
    } else {
      var wt := Cat(w, Class(t));
      StarMatches(wt, p);
      var k :| 0 < k && MatchesSplit(wt, Star(wt), p, k);
      var head := p[..k];
      CatMatches(w, Class(t), head);
      var j :| MatchesSplit(w, Class(t), head, j);
      JoinedIsSeparated(w, a, t, p[k..], y);
      Glue(a, t, head[..j], head[j], p[k..] + y);
      Regroup(p, k, j, y);
    }
  }

  lemma SeparatedMore(a: set<char>, t: set<char>, s: string)
    requires Separated(a, s)
    ensures Separated(a + t, s)
  {
  }

  lemma Slices(s: string, m: nat, k: nat)
    requires m + k <= |s|
    ensures s[..m + k][..m] == s[..m]
    ensures s[..m + k][m..] == s[m..][..k]
    ensures s[m + k..] == s[m..][k..]
  {
    forall i | 0 <= i < k ensures s[..m + k][m..][i] == s[m..][..k][i] {
    }
  }

  /** A separated word splits before its last word over the smaller separator set. */
  lemma {:induction false} SeparatedIsJoined(w: Regex, a: set<char>, t: set<char>, s: string)
    requires Recognises(w, a) && Separated(a + t, s) && t !! ALNUM
    ensures exists k :: MatchesSplit(Star(Cat(w, Class(t))), w, s, k)
    decreases |s|
  {
    if forall i :: 0 <= i < |s| ==> s[i] !in t {
      assert Separated(a, s);
      assert s[..0] == [] && s[0..] == s;
      assert MatchesSplit(Star(Cat(w, Class(t))), w, s, 0);
    } else {
      var n := FirstIn(t, s);
      var x, y := s[..n], s[n + 1..];
      assert Separated(a, x) && Separated(a + t, y) by { CutAtSeparator(a, t, s, n); }
      SeparatedIsJoined(w, a, t, y);
      var k :| MatchesSplit(Star(Cat(w, Class(t))), w, y, k);
      OneMore(w, t, s, n, k);
    }
  }

  /** One more word and separator in front of a repetition. */
  lemma OneMore(w: Regex, t: set<char>, s: string, n: nat, k: nat)
    requires n < |s| && Matches(w, s[..n]) && s[n] in t
    requires MatchesSplit(Star(Cat(w, Class(t))), w, s[n + 1..], k)
    ensures MatchesSplit(Star(Cat(w, Class(t))), w, s, n + 1 + k)
  {
    var wt, head, p := Cat(w, Class(t)), s[..n + 1], s[..n + 1 + k];
    Slices(s, n + 1, k);
    assert head[..n] == s[..n] && head[n..] == [s[n]];
    CatMatches(w, Class(t), head);
    assert MatchesSplit(w, Class(t), head, n);
    StarMatches(wt, p);
    assert MatchesSplit(wt, Star(wt), p, n + 1);
  }

  function FirstIn(t: set<char>, s: string): (n: nat)
    requires exists i :: 0 <= i < |s| && s[i] in t
    ensures n < |s| && s[n] in t && forall i :: 0 <= i < n ==> s[i] !in t
  {
    if s[0] in t then 0 else
      assert exists i :: 0 <= i < |s[1..]| && s[1..][i] in t by {
        var i :| 0 <= i < |s| && s[i] in t;
        assert s[1..][i - 1] == s[i];
      }
      1 + FirstIn(t, s[1..])
  }

  lemma CutAtSeparator(a: set<char>, t: set<char>, s: string, n: nat)
    requires Separated(a + t, s) && t !! ALNUM
    requires n < |s| && s[n] in t && forall i :: 0 <= i < n ==> s[i] !in t
    ensures Separated(a, s[..n]) && Separated(a + t, s[n + 1..])
  {
    assert s[n] !in ALNUM;
    assert 0 < n < |s| - 1;
    assert s[n - 1] in ALNUM && s[n + 1] in ALNUM;
  }

  lemma JoinedRecognises(w: Regex, a: set<char>, t: set<char>)
    requires Recognises(w, a) && t !! ALNUM
    ensures Recognises(Joined(w, t), a + t)
  {
    forall s ensures Matches(Joined(w, t), s) <==> Separated(a + t, s) {
      CatMatches(Star(Cat(w, Class(t))), w, s);
      if Matches(Joined(w, t), s) {
        var k :| MatchesSplit(Star(Cat(w, Class(t))), w, s, k);
        SeparatedMore(a, t, s[k..]);
        JoinedIsSeparated(w, a, t, s[..k], s[k..]);
        assert s == s[..k] + s[k..];
      }
      if Separated(a + t, s) {
        SeparatedIsJoined(w, a, t, s);
      }
    }
  }

  const SEPARATORS: set<char> := {'-', '_', '.'}

  /** The nested pattern accepts exactly the separated words over `-`, `_` and `.`. */
  lemma PatternIffSeparated(s: string)
    ensures Matches(PATTERN, s) <==> Separated(SEPARATORS, s)
  {
    PlusRecognises();
    JoinedRecognises(Plus(Class(ALNUM)), {}, DASHES);
    assert {} + DASHES == DASHES;
    JoinedRecognises(WORD, DASHES, DOT);
    assert DASHES + DOT == SEPARATORS;
  }

  /** The synchronous part of the schema: length limits and pattern. */
  ghost predicate Accepted(s: string) {
    2 <= |s| <= 64 && Matches(PATTERN, s)
  }

  // ---------------------------------------------------------------------------
  // The input sanitiser.
  // ---------------------------------------------------------------------------

  predicate IsAllowed(c: char) { c in ALNUM || c in SEPARATORS }

  predicate AllAllowed(s: string) {
    forall i :: 0 <= i < |s| ==> IsAllowed(s[i])
  }

  /** The string without the characters that the replacement strips. */
  function KeepAllowed(s: string): (r: string)
    ensures AllAllowed(r) && |r| <= |s|
  {
    if s == [] then []
    else if IsAllowed(s[0]) then [s[0]] + KeepAllowed(s[1..])
    else KeepAllowed(s[1..])
  }

  /** `toLower` is the platform's lower-casing; it leaves lower-case ASCII, digits and separators alone. */
  ghost predicate KeepsAllowed(toLower: string -> string) {
    forall s :: AllAllowed(s) ==> toLower(s) == s
  }

  function SanitizeInput(toLower: string -> string, input: string): string {
    var kept := KeepAllowed(toLower(input));
    if |kept| <= 64 then kept else kept[..64]
  }

  lemma {:induction false} KeepAllowedIdentity(s: string)
    requires AllAllowed(s)
    ensures KeepAllowed(s) == s
  {
    if s != [] {
      KeepAllowedIdentity(s[1..]);
    }
  }

  /** A second pass over sanitised input changes nothing, and an acceptable id is never changed. */
  lemma SanitizerSettles(toLower: string -> string, input: string)
    requires KeepsAllowed(toLower)
    ensures var r := SanitizeInput(toLower, input);
            && AllAllowed(r) && |r| <= 64
            && SanitizeInput(toLower, r) == r
            && (AllAllowed(input) && |input| <= 64 <==> r == input)
            && (Accepted(input) ==> r == input)
  {
    var r := SanitizeInput(toLower, input);
    KeepAllowedIdentity(r);
    if AllAllowed(input) {
      KeepAllowedIdentity(input);
    }
    PatternIffSeparated(input);
  }

  // ---------------------------------------------------------------------------
  // What becomes of the characters entered.
  // ---------------------------------------------------------------------------

  /** The characters of an account id. */
  predicate IsIdChar(c: char) {
    'a' <= c <= 'z' || '0' <= c <= '9' || c == '_' || c == '.' || c == '-'
  }

  function Lowered(lower: char -> string, s: string): string {
    if s == [] then [] else Lowered(lower, s[..|s| - 1]) + lower(s[|s| - 1])
  }

  /** The platform lower-cases this text character by character (it may look around in others), ASCII as usual. */
  ghost predicate LowersEach(toLower: string -> string, lower: char -> string, s: string) {
    toLower(s) == Lowered(lower, s) && LowersAscii(lower)
  }

  lemma KeepAllowedStep(head: string, c: char, tail: string)
    requires head == (if IsAllowed(c) then [c] else [])
    ensures KeepAllowed([c] + tail) == head + KeepAllowed(tail)
  {
    assert ([c] + tail)[1..] == tail;
  }

  lemma {:induction false} KeepAllowedSplit(a: string, b: string)
    ensures KeepAllowed(a + b) == KeepAllowed(a) + KeepAllowed(b)
  {
    if a == [] {
      assert a + b == b;
    } else {
      var head := if IsAllowed(a[0]) then [a[0]] else [];
      KeepAllowedSplit(a[1..], b);
      KeepAllowedStep(head, a[0], a[1..]);
      KeepAllowedStep(head, a[0], a[1..] + b);
      HeadFirst(a, b);
    }
  }

  lemma HeadFirst(a: string, b: string)
    requires a != []
    ensures a == [a[0]] + a[1..] && a + b == [a[0]] + (a[1..] + b)
  {
  }

  lemma {:induction false} LoweredAlike(lower: char -> string, a: string, b: string)
    requires LowersAscii(lower) && |a| == |b| && forall i :: 0 <= i < |a| ==> AsciiLower(a[i]) == AsciiLower(b[i])
    ensures Lowered(lower, a) == Lowered(lower, b)
  {
    if a != [] {
      LoweredAlike(lower, a[..|a| - 1], b[..|b| - 1]);
    }
  }

  /** Inputs that differ only in the case of ASCII letters sanitise alike. */
  lemma CaseIsIgnored(toLower: string -> string, lower: char -> string, a: string, b: string)
    requires LowersEach(toLower, lower, a) && LowersEach(toLower, lower, b)
    requires |a| == |b| && forall i :: 0 <= i < |a| ==> AsciiLower(a[i]) == AsciiLower(b[i])
    ensures SanitizeInput(toLower, a) == SanitizeInput(toLower, b)
  {
    LoweredAlike(lower, a, b);
  }

  /** A character that is not ASCII and whose lower case has nothing of an account id. */
  predicate IsForeign(lower: char -> string, c: char) {
    c as int >= 0x80 && forall i :: 0 <= i < |lower(c)| ==> !IsIdChar(lower(c)[i])
  }

  lemma {:induction false} KeepNothing(s: string)
    requires forall i :: 0 <= i < |s| ==> !IsIdChar(s[i])
    ensures KeepAllowed(s) == []
  {
    if s != [] {
      KeepNothing(s[1..]);
    }
  }

  /** `at` lists the positions of an input whose characters in lower case belong to an account id, in order. */
  ghost predicate IdPositions(at: seq<nat>, input: string) {
    && (forall j, k :: 0 <= j < k < |at| ==> at[j] < at[k])
    && (forall j :: 0 <= j < |at| ==> at[j] < |input|)
    && (forall i: nat :: i in at <==> i < |input| && IsIdChar(AsciiLower(input[i])))
  }

  lemma IdPositionsGrow(at: seq<nat>, input: string)
    requires input != [] && IdPositions(at, input[..|input| - 1])
    ensures var n := |input| - 1;
            IdPositions(if IsIdChar(AsciiLower(input[n])) then at + [n] else at, input)
  {
    var n := |input| - 1;
    var more := if IsIdChar(AsciiLower(input[n])) then at + [n] else at;
    forall i: nat ensures i in more <==> i < |input| && IsIdChar(AsciiLower(input[i])) {
      assert i < n ==> input[..n][i] == input[i];
      assert i in more <==> i in at || (i == n && IsIdChar(AsciiLower(input[n])));
    }
  }

  /** The characters of `input` at the positions `at`, in lower case. */
  ghost predicate Spells(r: string, at: seq<nat>, input: string) {
    |r| == |at| && forall j :: 0 <= j < |r| ==> at[j] < |input| && r[j] == AsciiLower(input[at[j]])
  }

  lemma SpellsMore(r: string, at: seq<nat>, input: string)
    requires input != [] && Spells(r, at, input[..|input| - 1])
    ensures Spells(r, at, input)
    ensures Spells(r + [AsciiLower(input[|input| - 1])], at + [|input| - 1], input)
  {
  }

  lemma {:induction false} KeptAt(lower: char -> string, input: string) returns (at: seq<nat>)
    requires LowersAscii(lower) && forall i :: 0 <= i < |input| ==> input[i] as int < 0x80 || IsForeign(lower, input[i])
    ensures IdPositions(at, input) && Spells(KeepAllowed(Lowered(lower, input)), at, input)
  {
    if input == [] {
      at := [];
    } else {
      var n := |input| - 1;
      at := KeptAt(lower, input[..n]);
      IdPositionsGrow(at, input);
      SpellsMore(KeepAllowed(Lowered(lower, input[..n])), at, input);
      KeptGrows(lower, input);
      at := if IsIdChar(AsciiLower(input[n])) then at + [n] else at;
    }
  }

  lemma KeptGrows(lower: char -> string, input: string)
    requires input != [] && LowersAscii(lower)
    requires input[|input| - 1] as int < 0x80 || IsForeign(lower, input[|input| - 1])
    ensures var c := input[|input| - 1];
            KeepAllowed(Lowered(lower, input))
            == KeepAllowed(Lowered(lower, input[..|input| - 1]))
               + if IsIdChar(AsciiLower(c)) then [AsciiLower(c)] else []
  {
    var n := |input| - 1;
    KeepAllowedSplit(Lowered(lower, input[..n]), lower(input[n]));
    KeptOfOne(lower, input[n]);
  }

  lemma KeptOfOne(lower: char -> string, c: char)
    requires LowersAscii(lower) && (c as int < 0x80 || IsForeign(lower, c))
    ensures KeepAllowed(lower(c)) == if IsIdChar(AsciiLower(c)) then [AsciiLower(c)] else []
  {
    if c as int < 0x80 {
      assert lower(c)[1..] == [];
    } else {
      KeepNothing(lower(c));
    }
  }

  /**
   * No character of an account id is lost: the result holds the lower case of exactly those characters, in order,
   * up to the 64th.
   */
  lemma NothingIsLost(toLower: string -> string, lower: char -> string, input: string) returns (at: seq<nat>)
    requires LowersEach(toLower, lower, input)
    requires forall i :: 0 <= i < |input| ==> input[i] as int < 0x80 || IsForeign(lower, input[i])
    ensures IdPositions(at, input)
    ensures var r := SanitizeInput(toLower, input);
            && |r| == (if |at| <= 64 then |at| else 64)
            && forall j :: 0 <= j < |r| ==> r[j] == AsciiLower(input[at[j]])
  {
    at := KeptAt(lower, input);
  }

  predicate IsSeparator(c: char) {
    c == '-' || c == '_' || c == '.'
  }

  /** What a sanitised input still needs to be acceptable is decided by one pass over it. */
  lemma AcceptedIff(s: string)
    ensures Accepted(s) <==>
            && 2 <= |s| <= 64 && (forall i :: 0 <= i < |s| ==> IsIdChar(s[i]))
            && !IsSeparator(s[0]) && !IsSeparator(s[|s| - 1])
            && (forall i :: 0 <= i < |s| - 1 ==> !IsSeparator(s[i]) || !IsSeparator(s[i + 1]))
  {
    PatternIffSeparated(s);
  }
}
