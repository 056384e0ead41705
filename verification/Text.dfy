/** The Python string operations the stores use, on ASCII text. */
module Texts {
  predicate IsSpace(c: char) {
    c == ' ' || '\t' <= c <= '\r' || '\U{1C}' <= c <= '\U{1F}'
  }

  function LStrip(s: string): string {
    if s != [] && IsSpace(s[0]) then LStrip(s[1..]) else s
  }

  function RStrip(s: string): string {
    if s != [] && IsSpace(s[|s| - 1]) then RStrip(s[..|s| - 1]) else s
  }

  /** `s.strip()`. */
  function Strip(s: string): string {
    RStrip(LStrip(s))
  }

  function LowerChar(c: char): char {
    if 'A' <= c <= 'Z' then (c as int + 32) as char else c
  }

  /** `s.lower()`. */
  function Lower(s: string): string {
    seq(|s|, i requires 0 <= i < |s| => LowerChar(s[i]))
  }

  /** `s[:n]`. */
  function Cut(s: string, n: nat): string {
    if |s| <= n then s else s[..n]
  }

  /** `s or default`. */
  function Or(s: string, default: string): string {
    if s == "" then default else s
  }

  /** No blank at either end. */
  predicate Trimmed(s: string) {
    s == "" || (!IsSpace(s[0]) && !IsSpace(s[|s| - 1]))
  }

  lemma {:induction false} LStripStart(s: string)
    ensures LStrip(s) == "" || !IsSpace(LStrip(s)[0])
  {
    if s != [] && IsSpace(s[0]) {
      LStripStart(s[1..]);
    }
  }

  lemma {:induction false} RStripEnds(s: string)
    requires s == "" || !IsSpace(s[0])
    ensures Trimmed(RStrip(s))
  {
    if s != [] && IsSpace(s[|s| - 1]) {
      assert |s| > 1;
      assert s[..|s| - 1][0] == s[0];
      RStripEnds(s[..|s| - 1]);
    }
  }

  lemma SpaceExactly(c: char)
    ensures IsSpace(c) <==> c as int in {9, 10, 11, 12, 13, 28, 29, 30, 31, 32}
  {
  }

  ghost predicate Blank(s: string) {
    forall i :: 0 <= i < |s| ==> IsSpace(s[i])
  }

  lemma {:induction false} LStripTakes(s: string) returns (front: string)
    ensures Blank(front) && s == front + LStrip(s)
  {
    if s != [] && IsSpace(s[0]) {
      front := LStripTakes(s[1..]);
      front := [s[0]] + front;
    } else {
      front := "";
    }
  }

  lemma {:induction false} RStripTakes(s: string) returns (back: string)
    ensures Blank(back) && s == RStrip(s) + back
  {
    if s != [] && IsSpace(s[|s| - 1]) {
      back := RStripTakes(s[..|s| - 1]);
      back := back + [s[|s| - 1]];
    } else {
      back := "";
    }
  }

  /** Stripping takes blanks off both ends, and all of them. */
  lemma StripMeans(s: string) returns (front: string, back: string)
    ensures Blank(front) && Blank(back) && s == front + Strip(s) + back
    ensures Trimmed(Strip(s))
  {
    front := LStripTakes(s);
    back := RStripTakes(LStrip(s));
    LStripStart(s);
    RStripEnds(LStrip(s));
    assert front + (Strip(s) + back) == front + Strip(s) + back;
  }

  /** Lower-casing moves the letters from 65..90 up by 32 and leaves all else. */
  lemma LowerMeans(s: string)
    ensures |Lower(s)| == |s|
    ensures forall i :: 0 <= i < |s| ==>
              Lower(s)[i] as int == s[i] as int + if 65 <= s[i] as int <= 90 then 32 else 0
  {
  }

  /** Normalising a tenant name twice is the same as once. */
  lemma NormalTwice(s: string)
    ensures Lower(Strip(Lower(Strip(s)))) == Lower(Strip(s))
  {
    LStripStart(s);
    RStripEnds(LStrip(s));
    var n := Lower(Strip(s));
    assert Trimmed(n);
    assert Strip(n) == n;
    assert forall i :: 0 <= i < |n| ==> LowerChar(n[i]) == n[i];
  }
}
