/** The `strings` operations shared by header and report code, on text. */
module Text {

  /** The code points with Unicode property White_Space. */
  const WHITE_SPACE: set<int> := {
    9, 10, 11, 12, 13, 32, 0x85, 0xA0, 0x1680,
    0x2000, 0x2001, 0x2002, 0x2003, 0x2004, 0x2005, 0x2006, 0x2007, 0x2008, 0x2009, 0x200A,
    0x2028, 0x2029, 0x202F, 0x205F, 0x3000}

  /** unicode.IsSpace */
  predicate IsSpace(c: char) {
    var p := c as int;
    || 9 <= p <= 13 || p == 0x20 || p == 0x85 || p == 0xA0 || p == 0x1680
    || 0x2000 <= p <= 0x200A || p == 0x2028 || p == 0x2029 || p == 0x202F || p == 0x205F || p == 0x3000
  }

  lemma IsSpaceMeaning(c: char)
    ensures IsSpace(c) <==> c as int in WHITE_SPACE
  {
  }

  function TrimSpace(s: string): string
    decreases |s|
  {
    if s == "" then s
    else if IsSpace(s[0]) then TrimSpace(s[1..])
    else if IsSpace(s[|s| - 1]) then TrimSpace(s[..|s| - 1])
    else s
  }

  /** `s[i..j]` is `s` less white space at both ends, and starts and ends with something else. */
  ghost predicate IsTrimmed(s: string, i: nat, j: nat) {
    && i <= j <= |s|
    && (forall k :: 0 <= k < i || j <= k < |s| ==> IsSpace(s[k]))
    && (i < j ==> !IsSpace(s[i]) && !IsSpace(s[j - 1]))
  }

  lemma TrimmedAfter(s: string, i: nat, j: nat)
    requires s != "" && IsSpace(s[0]) && IsTrimmed(s[1..], i, j)
    ensures IsTrimmed(s, i + 1, j + 1) && s[1..][i..j] == s[i + 1..j + 1]
  {
    assert forall k :: 1 <= k < |s| ==> s[k] == s[1..][k - 1];
  }

  lemma TrimmedBefore(s: string, i: nat, j: nat)
    requires s != "" && IsSpace(s[|s| - 1]) && IsTrimmed(s[..|s| - 1], i, j)
    ensures IsTrimmed(s, i, j) && s[..|s| - 1][i..j] == s[i..j]
  {
    assert forall k :: 0 <= k < |s| - 1 ==> s[k] == s[..|s| - 1][k];
  }

  /** Trimming removes white space at the ends, all of it and nothing else. */
  lemma {:induction false} TrimSpaceMeaning(s: string)
    ensures exists i: nat, j: nat :: IsTrimmed(s, i, j) && TrimSpace(s) == s[i..j]
    decreases |s|
  {
    if s == "" {
      assert IsTrimmed(s, 0, 0) && TrimSpace(s) == s[0..0];
    } else if IsSpace(s[0]) {
      TrimSpaceMeaning(s[1..]);
      var i: nat, j: nat :| IsTrimmed(s[1..], i, j) && TrimSpace(s[1..]) == s[1..][i..j];
      TrimmedAfter(s, i, j);
    } else if IsSpace(s[|s| - 1]) {
      var init := s[..|s| - 1];
      TrimSpaceMeaning(init);
      var i: nat, j: nat :| IsTrimmed(init, i, j) && TrimSpace(init) == init[i..j];
      TrimmedBefore(s, i, j);
    } else {
      assert IsTrimmed(s, 0, |s|) && TrimSpace(s) == s[0..|s|];
    }
  }

  function LowerChar(c: char): char {
    if 'A' <= c <= 'Z' then (c as int + 32) as char else c
  }

  function UpperChar(c: char): char {
    if 'a' <= c <= 'z' then (c as int - 32) as char else c
  }

  function Lower(s: string): (r: string)
    ensures |r| == |s|
  {
    if s == "" then "" else [LowerChar(s[0])] + Lower(s[1..])
  }

  function Upper(s: string): (r: string)
    ensures |r| == |s|
  {
    if s == "" then "" else [UpperChar(s[0])] + Upper(s[1..])
  }

  /** ASCII letters change case, nothing else changes. */
  lemma {:induction false} CaseMeaning(s: string, i: nat)
    requires i < |s|
    ensures Lower(s)[i] as int == if 'A' <= s[i] <= 'Z' then s[i] as int + 32 else s[i] as int
    ensures Upper(s)[i] as int == if 'a' <= s[i] <= 'z' then s[i] as int - 32 else s[i] as int
    decreases |s|
  {
    if i > 0 {
      CaseMeaning(s[1..], i - 1);
      assert Lower(s)[i] == Lower(s[1..])[i - 1] && Upper(s)[i] == Upper(s[1..])[i - 1];
    }
  }
}
