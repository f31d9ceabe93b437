/** The string operations the quiz relies on: substring search
    (`String.prototype.includes`) and lower-casing for answer comparison. */
module Text {

  /** `pat` occurs in `s` starting at position `i`. */
  predicate OccursAt(s: string, pat: string, i: nat) {
    i + |pat| <= |s| && s[i..i + |pat|] == pat
  }

  /** `s.includes(pat)`: scan for `pat` as a prefix of successive suffixes. */
  predicate Includes(s: string, pat: string)
    decreases |s|
  {
    pat <= s || (|s| > 0 && Includes(s[1..], pat))
  }

  /** An occurrence at position 0 is a prefix. */
  lemma OccursAtStart(s: string, pat: string)
    ensures OccursAt(s, pat, 0) <==> pat <= s
  {
    if pat <= s {
      assert s[0..|pat|] == pat;
    }
  }

  /** An occurrence in the tail is an occurrence one position later. */
  lemma OccursInTail(s: string, pat: string, i: nat)
    requires |s| > 0
    ensures OccursAt(s[1..], pat, i) <==> OccursAt(s, pat, i + 1)
  {
    if i + |pat| <= |s| - 1 {
      assert s[1..][i..i + |pat|] == s[i + 1..i + 1 + |pat|];
    }
  }

  /** The scan finds `pat` exactly when `pat` occurs somewhere in `s`. */
  lemma {:induction false} IncludesIff(s: string, pat: string)
    ensures Includes(s, pat) <==> exists i: nat :: OccursAt(s, pat, i)
    decreases |s|
  {
    OccursAtStart(s, pat);
    if pat <= s {
      assert OccursAt(s, pat, 0);
    } else if |s| > 0 {
      IncludesIff(s[1..], pat);
      if Includes(s[1..], pat) {
        var i: nat :| OccursAt(s[1..], pat, i);
        OccursInTail(s, pat, i);
      }
      if i: nat :| OccursAt(s, pat, i) {
        OccursInTail(s, pat, i - 1);
      }
    } else {
      if i: nat :| OccursAt(s, pat, i) {
        assert false;
      }
    }
  }

  /** ASCII lower-casing of one character. */
  function LowerChar(c: char): char {
    if 'A' <= c <= 'Z' then (c as int + 32) as char else c
  }

  /** `toLowerCase()`, restricted to ASCII letters. */
  function ToLower(s: string): (r: string)
    ensures |r| == |s|
    ensures forall i :: 0 <= i < |s| ==> r[i] == LowerChar(s[i])
  {
    seq(|s|, i requires 0 <= i < |s| => LowerChar(s[i]))
  }

  /** Two texts name the same answer when they agree after lower-casing. */
  predicate SameIgnoringCase(a: string, b: string) {
    ToLower(a) == ToLower(b)
  }
}
