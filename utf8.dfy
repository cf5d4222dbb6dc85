/**
  UTF-8 as Python's `bytes.decode('utf-8')` reads it in its default strict mode: only the
  well-formed byte sequences of Table 3-7 of the Unicode Standard (section 3.9) are accepted,
  and anything else is a `UnicodeDecodeError`, here `None`. The encoder beside it is the
  partner the decoder is proved against.
*/
module Utf8 {
  import opened Wrappers
  import opened Chars

  predicate IsCont(b: byte) {
    0x80 <= b < 0xC0
  }

  /** How many bytes a sequence that starts with b0 takes; 0 when b0 starts none. */
  function SeqLength(b0: byte): (n: nat)
    ensures n <= 4
  {
    if b0 < 0x80 then 1
    else if 0xC2 <= b0 < 0xE0 then 2
    else if 0xE0 <= b0 < 0xF0 then 3
    else if 0xF0 <= b0 < 0xF5 then 4
    else 0
  }

  /** The bounds on the second byte of a sequence, which exclude overlongs and surrogates. */
  function SecondLow(b0: byte): int {
    if b0 == 0xE0 then 0xA0 else if b0 == 0xF0 then 0x90 else 0x80
  }

  function SecondHigh(b0: byte): int {
    if b0 == 0xED then 0x9F else if b0 == 0xF4 then 0x8F else 0xBF
  }

  function Code2(b0: byte, b1: byte): (v: int)
    requires 0xC2 <= b0 < 0xE0 && IsCont(b1)
    ensures 0x80 <= v < 0x800
  {
    (b0 - 0xC0) * 64 + (b1 - 0x80)
  }

  function Code3(b0: byte, b1: byte, b2: byte): (v: int)
    requires 0xE0 <= b0 < 0xF0 && SecondLow(b0) <= b1 <= SecondHigh(b0) && IsCont(b2)
    ensures 0x800 <= v < 0x10000 && !(0xD800 <= v < 0xE000)
  {
    (b0 - 0xE0) * 4096 + (b1 - 0x80) * 64 + (b2 - 0x80)
  }

  function Code4(b0: byte, b1: byte, b2: byte, b3: byte): (v: int)
    requires 0xF0 <= b0 < 0xF5 && SecondLow(b0) <= b1 <= SecondHigh(b0) && IsCont(b2) && IsCont(b3)
    ensures 0x10000 <= v < 0x110000
  {
    (b0 - 0xF0) * 262144 + (b1 - 0x80) * 4096 + (b2 - 0x80) * 64 + (b3 - 0x80)
  }

  /** The character the sequence at the front of b encodes, and the sequence's length. */
  function DecodeFirst(b: seq<byte>): (r: Option<(char, nat)>)
    requires |b| > 0
    ensures r.Some? ==> 1 <= r.value.1 <= |b| && r.value.1 == SeqLength(b[0])
  {
    var n := SeqLength(b[0]);
    if n == 0 || |b| < n then None
    else if n == 1 then Some((b[0] as char, 1))
    else if !(SecondLow(b[0]) <= b[1] <= SecondHigh(b[0])) then None
    else if n == 2 then Some((Code2(b[0], b[1]) as char, 2))
    else if !IsCont(b[2]) then None
    else if n == 3 then Some((Code3(b[0], b[1], b[2]) as char, 3))
    else if !IsCont(b[3]) then None
    else Some((Code4(b[0], b[1], b[2], b[3]) as char, 4))
  }

  /** `bytes.decode('utf-8')`: the whole input must be well formed. */
  function Decode(b: seq<byte>): (r: Option<string>)
    ensures r.Some? ==> |r.value| <= |b|
    decreases |b|
  {
    if |b| == 0 then Some([])
    else
      match DecodeFirst(b)
      case None => None
      case Some((c, n)) =>
        match Decode(b[n..])
        case None => None
        case Some(rest) => Some([c] + rest)
  }

  // ---------------------------------------------------------------------------------------
  // The encoder

  /** The shortest UTF-8 form of one character. */
  function EncodeChar(c: char): (e: seq<byte>)
    ensures 1 <= |e| <= 4
  {
    var v := c as int;
    if v < 0x80 then [v]
    else if v < 0x800 then [0xC0 + v / 64, 0x80 + v % 64]
    else if v < 0x10000 then [0xE0 + v / 4096, 0x80 + (v / 64) % 64, 0x80 + v % 64]
    else [0xF0 + v / 262144, 0x80 + (v / 4096) % 64, 0x80 + (v / 64) % 64, 0x80 + v % 64]
  }

  function Encode(s: string): (b: seq<byte>)
    ensures |b| >= |s|
    decreases |s|
  {
    if |s| == 0 then [] else EncodeChar(s[0]) + Encode(s[1..])
  }

  // ---------------------------------------------------------------------------------------
  // Arithmetic of the sequences

  lemma Split2(v: int)
    requires 0x80 <= v < 0x800
    ensures 0xC2 <= 0xC0 + v / 64 < 0xE0 && 0 <= v % 64 < 64
    ensures (v / 64) * 64 + v % 64 == v
  {
  }

  lemma Split3(v: int)
    requires 0x800 <= v < 0x10000 && !(0xD800 <= v < 0xE000)
    ensures var b0, b1 := 0xE0 + v / 4096, 0x80 + (v / 64) % 64;
      0xE0 <= b0 < 0xF0 && SecondLow(b0) <= b1 <= SecondHigh(b0)
    ensures (v / 4096) * 4096 + ((v / 64) % 64) * 64 + v % 64 == v
  {
  }

  lemma Split4(v: int)
    requires 0x10000 <= v < 0x110000
    ensures var b0, b1 := 0xF0 + v / 262144, 0x80 + (v / 4096) % 64;
      0xF0 <= b0 < 0xF5 && SecondLow(b0) <= b1 <= SecondHigh(b0)
    ensures (v / 262144) * 262144 + ((v / 4096) % 64) * 4096 + ((v / 64) % 64) * 64 + v % 64 == v
  {
  }

  /** Division by 64, 4096 and 262144 is determined by quotient and remainder. */
  lemma DivMod64(v: int, q: int, r: int)
    requires 0 <= r < 64 && v == q * 64 + r
    ensures v / 64 == q && v % 64 == r
  {
  }

  lemma DivMod4096(v: int, q: int, r: int)
    requires 0 <= r < 4096 && v == q * 4096 + r
    ensures v / 4096 == q
  {
  }

  lemma DivMod262144(v: int, q: int, r: int)
    requires 0 <= r < 262144 && v == q * 262144 + r
    ensures v / 262144 == q
  {
  }

  lemma Join2(b0: byte, b1: byte)
    requires 0xC2 <= b0 < 0xE0 && IsCont(b1)
    ensures var v := Code2(b0, b1); 0xC0 + v / 64 == b0 && 0x80 + v % 64 == b1
  {
    DivMod64(Code2(b0, b1), b0 - 0xC0, b1 - 0x80);
  }

  lemma Join3(b0: byte, b1: byte, b2: byte)
    requires 0xE0 <= b0 < 0xF0 && SecondLow(b0) <= b1 <= SecondHigh(b0) && IsCont(b2)
    ensures var v := Code3(b0, b1, b2);
      0xE0 + v / 4096 == b0 && 0x80 + (v / 64) % 64 == b1 && 0x80 + v % 64 == b2
  {
    var v := Code3(b0, b1, b2);
    DivMod4096(v, b0 - 0xE0, (b1 - 0x80) * 64 + (b2 - 0x80));
    DivMod64(v, (b0 - 0xE0) * 64 + (b1 - 0x80), b2 - 0x80);
    DivMod64(v / 64, b0 - 0xE0, b1 - 0x80);
  }

  lemma Join4(b0: byte, b1: byte, b2: byte, b3: byte)
    requires 0xF0 <= b0 < 0xF5 && SecondLow(b0) <= b1 <= SecondHigh(b0) && IsCont(b2) && IsCont(b3)
    ensures var v := Code4(b0, b1, b2, b3);
      0xF0 + v / 262144 == b0 && 0x80 + (v / 4096) % 64 == b1
      && 0x80 + (v / 64) % 64 == b2 && 0x80 + v % 64 == b3
  {
    var v := Code4(b0, b1, b2, b3);
    var q0, q1, q2, q3 := b0 - 0xF0, b1 - 0x80, b2 - 0x80, b3 - 0x80;
    DivMod262144(v, q0, q1 * 4096 + q2 * 64 + q3);
    DivMod4096(v, q0 * 64 + q1, q2 * 64 + q3);
    DivMod64(v / 4096, q0, q1);
    DivMod64(v, q0 * 4096 + q1 * 64 + q2, q3);
    DivMod64(v / 64, q0 * 64 + q1, q2);
  }

  // ---------------------------------------------------------------------------------------
  // Properties

  /** The decoder reads back the sequence the encoder writes for one character. */
  lemma DecodeFirstEncodeChar(c: char, rest: seq<byte>)
    ensures DecodeFirst(EncodeChar(c) + rest) == Some((c, |EncodeChar(c)|))
  {
    var v := c as int;
    var e := EncodeChar(c);
    var b := e + rest;
    assert b[..|e|] == e;
    if v < 0x80 {
    } else if v < 0x800 {
      Split2(v);
      assert b[0] == e[0] && b[1] == e[1];
    } else if v < 0x10000 {
      Split3(v);
      assert b[0] == e[0] && b[1] == e[1] && b[2] == e[2];
    } else {
      Split4(v);
      assert b[0] == e[0] && b[1] == e[1] && b[2] == e[2] && b[3] == e[3];
    }
  }

  /** Decoding inverts encoding. */
  lemma {:induction false} DecodeEncode(s: string)
    ensures Decode(Encode(s)) == Some(s)
    decreases |s|
  {
    if |s| > 0 {
      var e, rest := EncodeChar(s[0]), Encode(s[1..]);
      DecodeFirstEncodeChar(s[0], rest);
      assert (e + rest)[|e|..] == rest;
      DecodeEncode(s[1..]);
      assert [s[0]] + s[1..] == s;
    }
  }

  /** What the decoder reads at the front is exactly the encoding of the character it returns. */
  lemma EncodeCharDecodeFirst(b: seq<byte>)
    requires |b| > 0 && DecodeFirst(b).Some?
    ensures EncodeChar(DecodeFirst(b).value.0) == b[..DecodeFirst(b).value.1]
  {
    var n := DecodeFirst(b).value.1;
    if n == 2 {
      Join2(b[0], b[1]);
    } else if n == 3 {
      Join3(b[0], b[1], b[2]);
    } else if n == 4 {
      Join4(b[0], b[1], b[2], b[3]);
    }
  }

  /** Well-formed input decodes sequence by sequence. */
  lemma DecodeCons(b: seq<byte>)
    requires |b| > 0 && Decode(b).Some?
    ensures DecodeFirst(b).Some?
    ensures var n := DecodeFirst(b).value.1;
      Decode(b[n..]).Some? && Decode(b).value == [DecodeFirst(b).value.0] + Decode(b[n..]).value
  {
  }

  /** The encoding of a character followed by text. */
  lemma EncodeCons(c: char, t: string)
    ensures Encode([c] + t) == EncodeChar(c) + Encode(t)
  {
    var s := [c] + t;
    assert s[0] == c && s[1..] == t;
  }

  lemma Rejoin(b: seq<byte>, n: nat)
    requires n <= |b|
    ensures b[..n] + b[n..] == b
  {
  }

  /** The decoder accepts only the encoder's output: no overlong or other second spelling. */
  lemma {:induction false} EncodeDecode(b: seq<byte>)
    requires Decode(b).Some?
    ensures Encode(Decode(b).value) == b
    decreases |b|
  {
    if |b| > 0 {
      DecodeCons(b);
      var c, n := DecodeFirst(b).value.0, DecodeFirst(b).value.1;
      EncodeCharDecodeFirst(b);
      EncodeDecode(b[n..]);
      EncodeCons(c, Decode(b[n..]).value);
      Rejoin(b, n);
    }
  }

  predicate AllAscii(b: seq<byte>) {
    forall i :: 0 <= i < |b| ==> b[i] < 0x80
  }

  /** ASCII bytes decode to the characters of the same codes. */
  lemma {:induction false} DecodeAscii(b: seq<byte>)
    requires AllAscii(b)
    ensures Decode(b) == Some(BytesAsChars(b))
    decreases |b|
  {
    if |b| > 0 {
      assert AllAscii(b[1..]) by {
        forall i | 0 <= i < |b[1..]| ensures b[1..][i] < 0x80 { assert b[1..][i] == b[i + 1]; }
      }
      DecodeAscii(b[1..]);
    }
  }

  /** A non-ASCII byte in well-formed input belongs to a sequence of two or more bytes, so the text is shorter. */
  lemma {:induction false} DecodeShorter(b: seq<byte>)
    requires Decode(b).Some? && !AllAscii(b)
    ensures |Decode(b).value| < |b|
    decreases |b|
  {
    DecodeCons(b);
    var n := DecodeFirst(b).value.1;
    if n == 1 {
      assert b[0] < 0x80;
      assert !AllAscii(b[1..]) by {
        var i :| 0 <= i < |b| && b[i] >= 0x80;
        assert b[1..][i - 1] == b[i];
      }
      DecodeShorter(b[1..]);
    }
  }

  /** The byte 0xE9 alone, as Latin-1 writes U+00E9, is not UTF-8. */
  lemma LoneE9Rejected()
    ensures Decode([0xE9]) == None
  {
  }

  /** The two bytes of U+00E9 'é' in UTF-8. */
  lemma C3A9IsEAcute()
    ensures Decode([0xC3, 0xA9]) == Some([0xE9 as char])
  {
    var b: seq<byte> := [0xC3, 0xA9];
    assert Code2(0xC3, 0xA9) == 0xE9;
    assert DecodeFirst(b) == Some((0xE9 as char, 2));
    assert Decode(b[2..]) == Some([]);
    assert [0xE9 as char] + [] == [0xE9 as char];
  }
}
