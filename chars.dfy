/** Bytes, the character ranges the codecs care about, and decimal rendering of numbers. */
module Chars {

  type byte = b: int | 0 <= b < 256

  /** Every character is a 7-bit code (what `str.encode('ascii')` accepts). */
  predicate IsAscii(s: string) {
    forall i :: 0 <= i < |s| ==> s[i] as int < 0x80
  }

  /** ASCII text joined to ASCII text is ASCII. */
  lemma AsciiConcat(a: string, b: string)
    requires IsAscii(a) && IsAscii(b)
    ensures IsAscii(a + b)
  {
    var s := a + b;
    forall i | 0 <= i < |s| ensures s[i] as int < 0x80 {
      if i < |a| { assert s[i] == a[i]; } else { assert s[i] == b[i - |a|]; }
    }
  }

  /** Every character is at most 0xFF (what `btoa` accepts). */
  predicate IsLatin1(s: string) {
    forall i :: 0 <= i < |s| ==> s[i] as int <= 0xFF
  }

  /** The bytes `btoa` encodes: one per character, its code point. */
  function Latin1Bytes(s: string): (b: seq<byte>)
    requires IsLatin1(s)
    ensures |b| == |s|
    ensures forall i :: 0 <= i < |s| ==> b[i] == s[i] as int
  {
    if s == [] then [] else [s[0] as int] + Latin1Bytes(s[1..])
  }

  /** The characters whose code points are the given bytes. */
  function BytesAsChars(b: seq<byte>): (s: string)
    ensures |s| == |b|
    ensures forall i :: 0 <= i < |b| ==> s[i] as int == b[i]
  {
    if b == [] then [] else [b[0] as char] + BytesAsChars(b[1..])
  }

  lemma {:induction false} Latin1BytesAsChars(s: string)
    requires IsLatin1(s)
    ensures BytesAsChars(Latin1Bytes(s)) == s
  {
    var r := BytesAsChars(Latin1Bytes(s));
    assert |r| == |s|;
    forall i | 0 <= i < |s| ensures r[i] == s[i] {
      assert r[i] as int == s[i] as int;
    }
  }

  function DigitChar(d: int): char
    requires 0 <= d < 10
  {
    ('0' as int + d) as char
  }

  /** The number a string of decimal digits spells, most significant digit first. */
  function DigitsValue(s: string): int
    decreases |s|
  {
    if |s| == 0 then 0 else 10 * DigitsValue(s[..|s| - 1]) + (s[|s| - 1] as int - '0' as int)
  }

  /** A decimal numeral as JavaScript writes one: at least one digit, digits only, no leading zero. */
  predicate IsDecimal(s: string) {
    |s| >= 1 && (forall i :: 0 <= i < |s| ==> '0' <= s[i] <= '9') && (|s| > 1 ==> s[0] != '0')
  }

  /**
    JavaScript's conversion of a non-negative integer to a string: the decimal digits that spell
    it, with no leading zero.
  */
  function NatToString(n: nat): (s: string)
    ensures IsDecimal(s)
    ensures DigitsValue(s) == n
    decreases n
  {
    if n < 10 then
      var s := [DigitChar(n)];
      assert s[..0] == [];
      s
    else
      var p := NatToString(n / 10);
      var s := p + [DigitChar(n % 10)];
      assert s[..|s| - 1] == p;
      s
  }
}
