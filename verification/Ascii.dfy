/** Lower-casing and recognising ASCII characters. */
module Ascii {
  function AsciiLower(ch: char): char {
    if 'A' <= ch <= 'Z' then (ch as int + 32) as char else ch
  }

  predicate IsAscii(s: string) {
    forall i :: 0 <= i < |s| ==> s[i] as int < 0x80
  }

  /** `lower` is Unicode lower-casing of one character; on ASCII it is this one. */
  ghost predicate LowersAscii(lower: char -> string) {
    forall ch: char :: ch as int < 0x80 ==> lower(ch) == [AsciiLower(ch)]
  }

  /** The letters one by one, and that nothing else changes. */
  lemma LettersLowered(c: char, i: nat)
    requires i < 26
    ensures AsciiLower("ABCDEFGHIJKLMNOPQRSTUVWXYZ"[i]) == "abcdefghijklmnopqrstuvwxyz"[i]
    ensures AsciiLower(c) != c ==> c in "ABCDEFGHIJKLMNOPQRSTUVWXYZ"
  {
    var letters := "ABCDEFGHIJKLMNOPQRSTUVWXYZ";
    if 'A' <= c <= 'Z' {
      assert letters[c as int - 'A' as int] == c;
    }
  }
}
