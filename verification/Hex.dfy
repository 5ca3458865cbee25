/** encoding/hex: lower-case encoding, decoding of either case. */
module Hex {
  import opened ByteStrings
  import opened Common
  import opened Text

  function Digit(n: Byte): (c: char)
    requires n < 16
  {
    if n < 10 then (n as int + '0' as int) as char else (n as int - 10 + 'a' as int) as char
  }

  function DigitValue(c: char): Option<Byte> {
    if '0' <= c <= '9' then Some((c as int - '0' as int) as Byte)
    else if 'a' <= c <= 'f' then Some((c as int - 'a' as int + 10) as Byte)
    else if 'A' <= c <= 'F' then Some((c as int - 'A' as int + 10) as Byte)
    else None
  }

  function Encode(b: Bytes): string {
    if b == [] then "" else [Digit(b[0] / 16), Digit(b[0] % 16)] + Encode(b[1..])
  }

  function Decode(s: string): Option<Bytes>
    decreases |s|
  {
    if s == "" then Some([])
    else if |s| == 1 then None
    else
      var high, low, rest := DigitValue(s[0]), DigitValue(s[1]), Decode(s[2..]);
      if high.None? || low.None? || rest.None? then None
      else Some([(high.value as int * 16 + low.value as int) as Byte] + rest.value)
  }

  lemma DigitRoundTrip(n: Byte, c: char)
    ensures n < 16 ==> DigitValue(Digit(n)) == Some(n)
    ensures DigitValue(c).Some? ==> DigitValue(c).value < 16 && Digit(DigitValue(c).value) == LowerChar(c)
  {
  }

  lemma {:induction false} DecodeEncode(b: Bytes)
    ensures Decode(Encode(b)) == Some(b)
    decreases |b|
  {
    if b != [] {
      DecodeEncode(b[1..]);
      DigitRoundTrip(b[0] / 16, ' ');
      DigitRoundTrip(b[0] % 16, ' ');
      assert Encode(b)[2..] == Encode(b[1..]);
      assert b == [b[0]] + b[1..];
    }
  }

  /** Decoding and encoding again lower-cases the text and does nothing else. */
  lemma {:induction false} EncodeDecode(s: string)
    requires Decode(s).Some?
    ensures Encode(Decode(s).value) == Lower(s)
    decreases |s|
  {
    if s != "" {
      EncodeDecode(s[2..]);
      var b := Decode(s).value;
      var high, low := DigitValue(s[0]).value, DigitValue(s[1]).value;
      DigitRoundTrip(0, s[0]);
      DigitRoundTrip(0, s[1]);
      assert b[0] / 16 == high && b[0] % 16 == low && b[1..] == Decode(s[2..]).value;
      assert s[1..][1..] == s[2..];
      assert Lower(s) == [LowerChar(s[0])] + ([LowerChar(s[1])] + Lower(s[2..]));
    }
  }

  lemma DigitMeaning(n: Byte)
    requires n < 16
    ensures Digit(n) == "0123456789abcdef"[n as int]
  {
  }

  /** Two digits a byte, the high half first. */
  lemma {:induction false} EncodeMeaning(b: Bytes, i: nat)
    requires i < |b|
    ensures |Encode(b)| == 2 * |b|
    ensures Encode(b)[2 * i] == "0123456789abcdef"[b[i] as int / 16]
    ensures Encode(b)[2 * i + 1] == "0123456789abcdef"[b[i] as int % 16]
    decreases |b|
  {
    DigitMeaning(b[0] / 16);
    DigitMeaning(b[0] % 16);
    if |b| > 1 {
      EncodeMeaning(b[1..], if i > 0 then i - 1 else 0);
    }
  }

  predicate IsHexDigit(c: char) {
    '0' <= c <= '9' || 'a' <= c <= 'f' || 'A' <= c <= 'F'
  }

  /** What decodes: an even number of hexadecimal digits, of either case. */
  lemma {:induction false} DecodeDefined(s: string)
    ensures Decode(s).Some? <==> |s| % 2 == 0 && forall i :: 0 <= i < |s| ==> IsHexDigit(s[i])
    ensures Decode(s).Some? ==> 2 * |Decode(s).value| == |s|
    decreases |s|
  {
    if |s| >= 2 {
      DecodeDefined(s[2..]);
      assert forall i :: 2 <= i < |s| ==> s[i] == s[2..][i - 2];
    }
  }
}
