/** Byte strings and the handful of `bytes` package operations the observer uses. */
module ByteStrings {
  import Text

  newtype Byte = b: int | 0 <= b < 256

  type Bytes = seq<Byte>

  const LF: Byte := 10
  const CR: Byte := 13

  /** `data:` */
  const DATA_FIELD: Bytes := [100, 97, 116, 97, 58]

  /** `[DONE]` */
  const DONE_MARK: Bytes := [91, 68, 79, 78, 69, 93]

  /** `"usage"`, quotes included */
  const USAGE_KEY: Bytes := [34, 117, 115, 97, 103, 101, 34]

  /** bytes.TrimSuffix(line, "\r"): at most one carriage return goes. */
  function DropCR(line: Bytes): Bytes {
    if line != [] && line[|line| - 1] == CR then line[..|line| - 1] else line
  }

  /** bytes.Contains */
  predicate Contains(s: Bytes, needle: Bytes) {
    exists i | 0 <= i <= |s| :: needle <= s[i..]
  }

  lemma DropCRMeaning(v: Bytes)
    ensures DropCR(v + [13]) == v
    ensures v == [] || v[|v| - 1] != 13 ==> DropCR(v) == v
  {
  }

  lemma ContainsMeaning(s: Bytes, needle: Bytes)
    ensures Contains(s, needle) <==> exists before: Bytes, after: Bytes :: s == before + needle + after
  {
    if Contains(s, needle) {
      var i :| 0 <= i <= |s| && needle <= s[i..];
      assert s == s[..i] + needle + s[i + |needle|..];
    }
    if exists before: Bytes, after: Bytes :: s == before + needle + after {
      var before: Bytes, after: Bytes :| s == before + needle + after;
      assert s[|before|..] == needle + after;
      assert needle <= s[|before|..];
    }
  }

  /** The three-byte UTF-8 encodings of the code points unicode.IsSpace accepts. */
  predicate IsWideSpace(a: Byte, b: Byte, c: Byte) {
    || (a == 0xE1 && b == 0x9A && c == 0x80)
    || (a == 0xE2 && b == 0x80 && (0x80 <= c <= 0x8A || c == 0xA8 || c == 0xA9 || c == 0xAF))
    || (a == 0xE2 && b == 0x81 && c == 0x9F)
    || (a == 0xE3 && b == 0x80 && c == 0x80)
  }

  predicate IsNarrowSpace(a: Byte) {
    9 <= a <= 13 || a == 32
  }

  /** Width of the white-space code point at the front of `s`, zero when there is none. */
  function LeadingSpace(s: Bytes): (n: nat)
    ensures n <= |s|
  {
    if |s| >= 1 && IsNarrowSpace(s[0]) then 1
    else if |s| >= 2 && s[0] == 0xC2 && (s[1] == 0x85 || s[1] == 0xA0) then 2
    else if |s| >= 3 && IsWideSpace(s[0], s[1], s[2]) then 3
    else 0
  }

  function TrailingSpace(s: Bytes): (n: nat)
    ensures n <= |s|
  {
    var k := |s|;
    if k >= 1 && IsNarrowSpace(s[k - 1]) then 1
    else if k >= 2 && s[k - 2] == 0xC2 && (s[k - 1] == 0x85 || s[k - 1] == 0xA0) then 2
    else if k >= 3 && IsWideSpace(s[k - 3], s[k - 2], s[k - 1]) then 3
    else 0
  }

  /** UTF-8 of a code point of the basic plane. */
  function Utf8(p: nat): Bytes
    requires p < 0x10000
  {
    if p < 0x80 then [p as Byte]
    else if p < 0x800 then [(0xC0 + p / 64) as Byte, (0x80 + p % 64) as Byte]
    else [(0xE0 + p / 4096) as Byte, (0x80 + p / 64 % 64) as Byte, (0x80 + p % 64) as Byte]
  }

  /** The byte tables above are the UTF-8 encodings of the white-space code points, at either end. */
  lemma SpaceMeaning(p: nat, rest: Bytes)
    requires p in Text.WHITE_SPACE
    ensures LeadingSpace(Utf8(p) + rest) == |Utf8(p)| && TrailingSpace(rest + Utf8(p)) == |Utf8(p)|
  {
  }

  /** ... and nothing else is. */
  lemma SpaceOnly(s: Bytes)
    ensures LeadingSpace(s) > 0 ==> exists p: nat :: p in Text.WHITE_SPACE && s[..LeadingSpace(s)] == Utf8(p)
    ensures TrailingSpace(s) > 0 ==>
              exists p: nat :: p in Text.WHITE_SPACE && s[|s| - TrailingSpace(s)..] == Utf8(p)
  {
    if LeadingSpace(s) > 0 {
      SpaceCode(s[..LeadingSpace(s)]);
    }
    if TrailingSpace(s) > 0 {
      SpaceCode(s[|s| - TrailingSpace(s)..]);
    }
  }

  lemma SpaceCode(w: Bytes)
    requires |w| > 0 && (LeadingSpace(w) == |w| || TrailingSpace(w) == |w|)
    ensures exists p: nat :: p in Text.WHITE_SPACE && w == Utf8(p)
  {
    var p: nat := if |w| == 1 then w[0] as int
      else if |w| == 2 then (w[0] as int - 0xC0) * 64 + (w[1] as int - 0x80)
      else (w[0] as int - 0xE0) * 4096 + (w[1] as int - 0x80) * 64 + (w[2] as int - 0x80);
    assert p in Text.WHITE_SPACE && w == Utf8(p);
  }

  function TrimLeft(s: Bytes): Bytes
    decreases |s|
  {
    var n := LeadingSpace(s);
    if n == 0 then s else TrimLeft(s[n..])
  }

  function TrimRight(s: Bytes): Bytes
    decreases |s|
  {
    var n := TrailingSpace(s);
    if n == 0 then s else TrimRight(s[..|s| - n])
  }

  /** bytes.TrimSpace */
  function TrimSpace(s: Bytes): Bytes {
    TrimRight(TrimLeft(s))
  }

  /** A run of white-space code points. */
  predicate AllSpace(s: Bytes)
    decreases |s|
  {
    s == [] || (LeadingSpace(s) > 0 && AllSpace(s[LeadingSpace(s)..]))
  }

  /** `s[i..j]` is `s` less white space at both ends, and starts and ends with something else. */
  ghost predicate IsTrimmed(s: Bytes, i: nat, j: nat) {
    && i <= j <= |s|
    && AllSpace(s[..i]) && AllSpace(s[j..])
    && LeadingSpace(s[i..j]) == 0 && TrailingSpace(s[i..j]) == 0
  }

  lemma {:induction false} TrimLeftMeaning(s: Bytes) returns (i: nat)
    ensures i <= |s| && TrimLeft(s) == s[i..] && AllSpace(s[..i]) && LeadingSpace(s[i..]) == 0
    decreases |s|
  {
    var n := LeadingSpace(s);
    i := 0;
    if n > 0 {
      var k := TrimLeftMeaning(s[n..]);
      i := n + k;
      assert s[n..][k..] == s[i..];
      assert LeadingSpace(s[..i]) == n && s[..i][n..] == s[n..][..k];
    }
  }

  lemma TrailingIsSpace(s: Bytes)
    ensures AllSpace(s[|s| - TrailingSpace(s)..])
  {
    var n := TrailingSpace(s);
    var tail := s[|s| - n..];
    if n > 0 {
      assert LeadingSpace(tail) == n;
      assert tail[n..] == [];
    }
  }

  lemma PrefixLeads(s: Bytes, j: nat)
    requires LeadingSpace(s) == 0 && j <= |s|
    ensures LeadingSpace(s[..j]) == 0
  {
  }

  lemma TailInTwo(s: Bytes, j: nat, k: nat)
    requires j <= k <= |s|
    ensures s[j..] == s[..k][j..] + s[k..] && s[..k][..j] == s[..j]
  {
  }

  lemma {:induction false} TrimRightMeaning(s: Bytes) returns (j: nat)
    ensures j <= |s| && TrimRight(s) == s[..j] && AllSpace(s[j..]) && TrailingSpace(s[..j]) == 0
    ensures LeadingSpace(s) == 0 ==> LeadingSpace(s[..j]) == 0
    decreases |s|
  {
    var n := TrailingSpace(s);
    j := |s|;
    if n > 0 {
      var k := |s| - n;
      j := TrimRightMeaning(s[..k]);
      TailInTwo(s, j, k);
      TrailingIsSpace(s);
      SpaceAfter(s[..k][j..], s[k..]);
    }
    if LeadingSpace(s) == 0 {
      PrefixLeads(s, j);
    }
  }

  lemma {:induction false} SpaceAfter(a: Bytes, b: Bytes)
    requires AllSpace(a) && AllSpace(b)
    ensures AllSpace(a + b)
    decreases |a|
  {
    if a == [] {
      assert a + b == b;
    } else {
      var n := LeadingSpace(a);
      assert LeadingSpace(a + b) == n && (a + b)[n..] == a[n..] + b;
      SpaceAfter(a[n..], b);
    }
  }

  lemma SlicesOfTail(s: Bytes, i: nat, k: nat)
    requires i + k <= |s|
    ensures s[i..][..k] == s[i..i + k] && s[i..][k..] == s[i + k..]
  {
  }

  lemma TrimmedInTwo(s: Bytes, i: nat, k: nat)
    requires i + k <= |s| && AllSpace(s[..i]) && AllSpace(s[i..][k..])
    requires LeadingSpace(s[i..][..k]) == 0 && TrailingSpace(s[i..][..k]) == 0
    ensures IsTrimmed(s, i, i + k)
  {
    SlicesOfTail(s, i, k);
  }

  /** Trimming removes white space at the ends, all of it and nothing else. */
  lemma TrimSpaceMeaning(s: Bytes)
    ensures exists i: nat, j: nat :: IsTrimmed(s, i, j) && TrimSpace(s) == s[i..j]
  {
    var i := TrimLeftMeaning(s);
    var k := TrimRightMeaning(s[i..]);
    SlicesOfTail(s, i, k);
    TrimmedInTwo(s, i, k);
    assert TrimSpace(s) == s[i..i + k];
  }
}
