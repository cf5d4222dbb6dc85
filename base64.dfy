/**
  Base 64 as in section 4 of RFC 4648: the encoder behind the browser's `btoa`, and the decoder
  behind Python's `base64.b64decode(s)` in its default, non-validating mode.

  The decoder follows CPython's `binascii.a2b_base64` with `strict_mode=False`: characters
  outside the alphabet are skipped, decoding stops at the first '=' that completes a quantum,
  and a final incomplete quantum is an error. Before that, `b64decode` turns its `str`
  argument into bytes with `s.encode('ascii')`, which raises `ValueError` (not
  `binascii.Error`) for any character above 0x7F.
*/
module Base64 {
  import opened Wrappers
  import opened Chars

  /** The data character of value v: A-Z, a-z, 0-9, '+', '/'. */
  function CharOf(v: int): (c: char)
    requires 0 <= v < 64
    ensures IsDataChar(c)
  {
    if v < 26 then ('A' as int + v) as char
    else if v < 52 then ('a' as int + (v - 26)) as char
    else if v < 62 then ('0' as int + (v - 52)) as char
    else if v == 62 then '+'
    else '/'
  }

  /** How the decoder sees a character: a data character with its value, the pad, or other. */
  datatype CharClass = Data(v: int) | Pad | Other

  function Classify(c: char): (k: CharClass)
    ensures k.Data? ==> 0 <= k.v < 64
  {
    if 'A' <= c <= 'Z' then Data(c as int - 'A' as int)
    else if 'a' <= c <= 'z' then Data(c as int - 'a' as int + 26)
    else if '0' <= c <= '9' then Data(c as int - '0' as int + 52)
    else if c == '+' then Data(62)
    else if c == '/' then Data(63)
    else if c == '=' then Pad
    else Other
  }

  predicate IsDataChar(c: char) {
    Classify(c).Data?
  }

  /** The value of a data character; CharOf inverts it. */
  function ValueOf(c: char): (v: int)
    requires IsDataChar(c)
    ensures 0 <= v < 64
  {
    Classify(c).v
  }

  lemma ValueOfCharOf(v: int)
    requires 0 <= v < 64
    ensures ValueOf(CharOf(v)) == v
  {
  }

  // ---------------------------------------------------------------------------------------
  // Encoding

  /** Three bytes as four data characters. */
  function EncodeGroup(b0: byte, b1: byte, b2: byte): string {
    [CharOf(b0 / 4), CharOf((b0 % 4) * 16 + b1 / 16), CharOf((b1 % 16) * 4 + b2 / 64), CharOf(b2 % 64)]
  }

  /** RFC 4648 section 4 encoding with '=' padding of the final quantum. */
  function Encode(b: seq<byte>): (r: string)
    ensures |r| == 0 <==> |b| == 0
    decreases |b|
  {
    if |b| == 0 then []
    else if |b| == 1 then [CharOf(b[0] / 4), CharOf((b[0] % 4) * 16), '=', '=']
    else if |b| == 2 then [CharOf(b[0] / 4), CharOf((b[0] % 4) * 16 + b[1] / 16), CharOf((b[1] % 16) * 4), '=']
    else EncodeGroup(b[0], b[1], b[2]) + Encode(b[3..])
  }

  /**
    The browser's `btoa`: each character, at most 0xFF, is taken as one byte. A character
    above 0xFF makes `btoa` throw; callers check IsLatin1 first.
  */
  function Btoa(s: string): (r: string)
    requires IsLatin1(s)
    ensures r == [] <==> s == []
    ensures InAlphabet(r) && IsAscii(r)
  {
    EncodeAlphabet(Latin1Bytes(s));
    Encode(Latin1Bytes(s))
  }

  /** Only data characters and '='. */
  predicate InAlphabet(s: string) {
    forall i :: 0 <= i < |s| ==> IsDataChar(s[i]) || s[i] == '='
  }

  lemma AlphabetIsAscii(s: string)
    requires InAlphabet(s)
    ensures IsAscii(s)
  {
    forall i | 0 <= i < |s| ensures s[i] as int < 0x80 {
      assert IsDataChar(s[i]) || s[i] == '=';
    }
  }

  /** The encoding holds only data characters and '=', so only ASCII. */
  lemma {:induction false} EncodeAlphabet(b: seq<byte>)
    ensures InAlphabet(Encode(b)) && IsAscii(Encode(b))
    decreases |b|
  {
    if |b| >= 3 {
      EncodeAlphabet(b[3..]);
      var g, e := EncodeGroup(b[0], b[1], b[2]), Encode(b[3..]);
      EncodeFirstGroup(b);
      forall i | 0 <= i < |g + e| ensures IsDataChar((g + e)[i]) || (g + e)[i] == '=' {
        if i >= 4 { assert (g + e)[i] == e[i - 4]; }
      }
    }
    AlphabetIsAscii(Encode(b));
  }

  /** The encoding has four characters for every group of up to three bytes. */
  lemma {:induction false} EncodeLength(b: seq<byte>)
    ensures |Encode(b)| == (|b| + 2) / 3 * 4
    decreases |b|
  {
    if |b| >= 3 {
      EncodeLength(b[3..]);
      EncodeFirstGroup(b);
      Div3(|b|);
    }
  }

  lemma Div3(n: int)
    requires n >= 3
    ensures (n - 3 + 2) / 3 * 4 + 4 == (n + 2) / 3 * 4
  {
  }

  // ---------------------------------------------------------------------------------------
  // Decoding as CPython does it

  datatype DecodeError =
    | NonAsciiInput     // `str.encode('ascii')` fails: a ValueError
    | ExcessDataChar    // binascii.Error: data characters number one more than a multiple of 4
    | IncorrectPadding  // binascii.Error: the last quantum is incomplete

  /** An error `except binascii.Error` catches. */
  predicate IsBinasciiError(e: DecodeError) {
    !e.NonAsciiInput?
  }

  /**
    The state of the scan in `a2b_base64`: `quad` data characters of the current quantum are
    read, `left` holds their bits not yet emitted, `pads` counts the '=' seen since the last
    data character once the quantum has two or more, and `out` holds the bytes so far.
  */
  datatype ScanState = ScanState(quad: int, left: int, pads: nat, out: seq<byte>)

  predicate ValidState(st: ScanState) {
    && 0 <= st.quad < 4 && 0 <= st.left < 64
    && (st.quad == 2 ==> st.left < 16)
    && (st.quad == 3 ==> st.left < 4)
  }

  type State = st: ScanState | ValidState(st) witness ScanState(0, 0, 0, [])

  /** A quantum boundary with the given output. */
  function Boundary(out: seq<byte>): State {
    ScanState(0, 0, 0, out)
  }

  /** What one character does to the scan: it ends it, or it gives the next state. */
  datatype Step = Stop(out: seq<byte>) | Next(st: State)

  function Feed(st: State, c: char): Step {
    match Classify(c)
    case Pad =>
      if st.quad >= 2 && st.quad + st.pads + 1 >= 4 then Stop(st.out)
      else Next(st.(pads := if st.quad >= 2 then st.pads + 1 else st.pads))
    case Other => Next(st)
    case Data(v) => Next(Absorb(st, v))
  }

  /** A data character of value v: its bits join the quantum, and whole bytes are emitted. */
  function Absorb(st: State, v: int): State
    requires 0 <= v < 64
  {
    if st.quad == 0 then ScanState(1, v, 0, st.out)
    else if st.quad == 1 then ScanState(2, v % 16, 0, st.out + [st.left * 4 + v / 16])
    else if st.quad == 2 then ScanState(3, v % 4, 0, st.out + [st.left * 16 + v / 4])
    else Boundary(st.out + [st.left * 64 + v])
  }

  /** The end of the input: only a quantum boundary is accepted. */
  function Finish(st: State): Result<seq<byte>, DecodeError> {
    if st.quad == 0 then Success(st.out)
    else if st.quad == 1 then Failure(ExcessDataChar)
    else Failure(IncorrectPadding)
  }

  /** The loop of `a2b_base64`: feeds the characters in order until one ends the scan. */
  function Run(s: string, st: State): Step
    decreases |s|
  {
    if s == [] then Next(st)
    else
      match Feed(st, s[0])
      case Stop(out) => Stop(out)
      case Next(st') => Run(s[1..], st')
  }

  /** The whole of `a2b_base64` from a given state: the loop, then the check at the end. */
  function Scan(s: string, st: State): (r: Result<seq<byte>, DecodeError>)
    ensures r != Failure(NonAsciiInput)
  {
    match Run(s, st)
    case Stop(out) => Success(out)
    case Next(st') => Finish(st')
  }

  /** `base64.b64decode(s)` for a `str` argument. */
  function Decode(s: string): (r: Result<seq<byte>, DecodeError>)
    ensures r == Failure(NonAsciiInput) <==> !IsAscii(s)
  {
    if !IsAscii(s) then Failure(NonAsciiInput) else Scan(s, Boundary([]))
  }

  // ---------------------------------------------------------------------------------------
  // A strict RFC 4648 decoder, as a reference

  /** Keeps the data characters and '=', drops everything else. */
  function Filter(s: string): (r: string)
    ensures |r| <= |s|
    ensures InAlphabet(r)
    decreases |s|
  {
    if s == [] then []
    else if IsDataChar(s[0]) || s[0] == '=' then [s[0]] + Filter(s[1..])
    else Filter(s[1..])
  }

  /** One quantum of four characters: four data characters, or a padded final form. */
  function DecodeQuantum(a: char, b: char, c: char, d: char, final: bool): Option<seq<byte>> {
    if !IsDataChar(a) || !IsDataChar(b) then None
    else
      var va, vb := ValueOf(a), ValueOf(b);
      if IsDataChar(c) && IsDataChar(d) then
        var vc, vd := ValueOf(c), ValueOf(d);
        Some([va * 4 + vb / 16, (vb % 16) * 16 + vc / 4, (vc % 4) * 64 + vd])
      else if final && IsDataChar(c) && d == '=' then
        var vc := ValueOf(c);
        Some([va * 4 + vb / 16, (vb % 16) * 16 + vc / 4])
      else if final && c == '=' && d == '=' then
        Some([va * 4 + vb / 16])
      else None
  }

  /**
    Strict decoding: a whole number of quanta, padding only in the last one, nothing but the
    alphabet and '='. Nonzero pad bits are accepted, as section 3.5 of RFC 4648 allows.
  */
  function StrictDecode(s: string): Option<seq<byte>>
    decreases |s|
  {
    if |s| == 0 then Some([])
    else if |s| < 4 then None
    else
      match DecodeQuantum(s[0], s[1], s[2], s[3], |s| == 4)
      case None => None
      case Some(g) =>
        match StrictDecode(s[4..])
        case None => None
        case Some(rest) => Some(g + rest)
  }


  // ---------------------------------------------------------------------------------------
  // Properties

  /** Running over a concatenation runs over the first part, then, unless it stopped, the second. */
  lemma {:induction false} RunConcat(a: string, t: string, st: State)
    ensures Run(a + t, st) == match Run(a, st) case Stop(o) => Stop(o) case Next(st') => Run(t, st')
    decreases |a|
  {
    if a == [] {
      assert a + t == t;
    } else {
      assert (a + t)[0] == a[0] && (a + t)[1..] == a[1..] + t;
      match Feed(st, a[0])
      case Stop(_) =>
      case Next(st') => RunConcat(a[1..], t, st');
    }
  }

  lemma GroupArithmetic(b0: byte, b1: byte, b2: byte)
    ensures (b0 / 4) * 4 + ((b0 % 4) * 16 + b1 / 16) / 16 == b0
    ensures (((b0 % 4) * 16 + b1 / 16) % 16) * 16 + ((b1 % 16) * 4 + b2 / 64) / 4 == b1
    ensures (((b1 % 16) * 4 + b2 / 64) % 4) * 64 + b2 % 64 == b2
  {
  }

  /** Four data characters from a quantum boundary: three bytes, and a boundary again. */
  lemma RunFullQuantum(a: char, b: char, c: char, d: char, out: seq<byte>)
    requires IsDataChar(a) && IsDataChar(b) && IsDataChar(c) && IsDataChar(d)
    ensures Run([a, b, c, d], Boundary(out)) == Next(Boundary(out + DecodeQuantum(a, b, c, d, false).value))
  {
    var va, vb, vc, vd := ValueOf(a), ValueOf(b), ValueOf(c), ValueOf(d);
    var s := [a, b, c, d];
    var o1 := out + [va * 4 + vb / 16];
    var o2 := o1 + [(vb % 16) * 16 + vc / 4];
    var o3 := o2 + [(vc % 4) * 64 + vd];
    assert s[1..] == [b, c, d] && s[1..][1..] == [c, d] && s[1..][1..][1..] == [d];
    calc {
      Run(s, Boundary(out));
      Run(s[1..], ScanState(1, va, 0, out));
      Run(s[1..][1..], ScanState(2, vb % 16, 0, o1));
      Run(s[1..][1..][1..], ScanState(3, vc % 4, 0, o2));
      { assert s[1..][1..][1..][1..] == []; }
      Next(Boundary(o3));
      { assert o3 == out + DecodeQuantum(a, b, c, d, false).value; }
      Next(Boundary(out + DecodeQuantum(a, b, c, d, false).value));
    }
  }

  /** Three data characters and '=': two bytes, and the scan stops. */
  lemma RunQuantumOnePad(a: char, b: char, c: char, out: seq<byte>)
    requires IsDataChar(a) && IsDataChar(b) && IsDataChar(c)
    ensures Run([a, b, c, '='], Boundary(out)) == Stop(out + DecodeQuantum(a, b, c, '=', true).value)
  {
    var va, vb, vc := ValueOf(a), ValueOf(b), ValueOf(c);
    var s := [a, b, c, '='];
    var o1 := out + [va * 4 + vb / 16];
    var o2 := o1 + [(vb % 16) * 16 + vc / 4];
    assert s[1..] == [b, c, '='] && s[1..][1..] == [c, '='] && s[1..][1..][1..] == ['='];
    calc {
      Run(s, Boundary(out));
      Run(s[1..], ScanState(1, va, 0, out));
      Run(s[1..][1..], ScanState(2, vb % 16, 0, o1));
      Run(s[1..][1..][1..], ScanState(3, vc % 4, 0, o2));
      Stop(o2);
      { assert o2 == out + DecodeQuantum(a, b, c, '=', true).value; }
      Stop(out + DecodeQuantum(a, b, c, '=', true).value);
    }
  }

  /** Two data characters and "==": one byte, and the scan stops at the second '='. */
  lemma RunQuantumTwoPads(a: char, b: char, out: seq<byte>)
    requires IsDataChar(a) && IsDataChar(b)
    ensures Run([a, b, '=', '='], Boundary(out)) == Stop(out + DecodeQuantum(a, b, '=', '=', true).value)
  {
    var va, vb := ValueOf(a), ValueOf(b);
    var s := [a, b, '=', '='];
    var o1 := out + [va * 4 + vb / 16];
    assert s[1..] == [b, '=', '='] && s[1..][1..] == ['=', '='] && s[1..][1..][1..] == ['='];
    calc {
      Run(s, Boundary(out));
      Run(s[1..], ScanState(1, va, 0, out));
      Run(s[1..][1..], ScanState(2, vb % 16, 0, o1));
      Run(s[1..][1..][1..], ScanState(2, vb % 16, 1, o1));
      Stop(o1);
    }
  }

  /** A quantum of four data characters decodes to the bytes their values spell. */
  lemma DecodeValues(v0: int, v1: int, v2: int, v3: int, final: bool)
    requires 0 <= v0 < 64 && 0 <= v1 < 64 && 0 <= v2 < 64 && 0 <= v3 < 64
    ensures DecodeQuantum(CharOf(v0), CharOf(v1), CharOf(v2), CharOf(v3), final)
            == Some([v0 * 4 + v1 / 16, (v1 % 16) * 16 + v2 / 4, (v2 % 4) * 64 + v3])
  {
    ValueOfCharOf(v0); ValueOfCharOf(v1); ValueOfCharOf(v2); ValueOfCharOf(v3);
  }

  lemma DecodeValuesOnePad(v0: int, v1: int, v2: int)
    requires 0 <= v0 < 64 && 0 <= v1 < 64 && 0 <= v2 < 64
    ensures DecodeQuantum(CharOf(v0), CharOf(v1), CharOf(v2), '=', true)
            == Some([v0 * 4 + v1 / 16, (v1 % 16) * 16 + v2 / 4])
  {
    ValueOfCharOf(v0); ValueOfCharOf(v1); ValueOfCharOf(v2);
  }

  lemma DecodeValuesTwoPads(v0: int, v1: int)
    requires 0 <= v0 < 64 && 0 <= v1 < 64
    ensures DecodeQuantum(CharOf(v0), CharOf(v1), '=', '=', true) == Some([v0 * 4 + v1 / 16])
  {
    ValueOfCharOf(v0); ValueOfCharOf(v1);
  }

  lemma TwoArithmetic(b0: byte, b1: byte)
    ensures (b0 / 4) * 4 + ((b0 % 4) * 16 + b1 / 16) / 16 == b0
    ensures (((b0 % 4) * 16 + b1 / 16) % 16) * 16 + ((b1 % 16) * 4) / 4 == b1
  {
  }

  lemma OneArithmetic(b0: byte)
    ensures (b0 / 4) * 4 + ((b0 % 4) * 16) / 16 == b0
  {
  }

  /** The group of three bytes decodes back to them. */
  lemma GroupValues(x: byte, y: byte, z: byte)
    ensures var g := EncodeGroup(x, y, z);
      DecodeQuantum(g[0], g[1], g[2], g[3], false) == Some([x, y, z])
      && DecodeQuantum(g[0], g[1], g[2], g[3], true) == Some([x, y, z])
  {
    var v0, v1, v2, v3 := x / 4, (x % 4) * 16 + y / 16, (y % 16) * 4 + z / 64, z % 64;
    DecodeValues(v0, v1, v2, v3, false);
    DecodeValues(v0, v1, v2, v3, true);
    GroupArithmetic(x, y, z);
  }

  /** The final quantum for two bytes decodes back to them. */
  lemma TwoValues(x: byte, y: byte)
    ensures DecodeQuantum(CharOf(x / 4), CharOf((x % 4) * 16 + y / 16), CharOf((y % 16) * 4), '=', true)
            == Some([x, y])
  {
    DecodeValuesOnePad(x / 4, (x % 4) * 16 + y / 16, (y % 16) * 4);
    TwoArithmetic(x, y);
  }

  /** The final quantum for one byte decodes back to it. */
  lemma OneValues(x: byte)
    ensures DecodeQuantum(CharOf(x / 4), CharOf((x % 4) * 16), '=', '=', true) == Some([x])
  {
    DecodeValuesTwoPads(x / 4, (x % 4) * 16);
    OneArithmetic(x);
  }

  /** The encoding of one byte. */
  lemma EncodeOne(b: seq<byte>)
    requires |b| == 1
    ensures Encode(b) == [CharOf(b[0] / 4), CharOf((b[0] % 4) * 16), '=', '=']
    ensures b == [b[0]]
  {
  }

  /** The encoding of two bytes. */
  lemma EncodeTwo(b: seq<byte>)
    requires |b| == 2
    ensures Encode(b) == [CharOf(b[0] / 4), CharOf((b[0] % 4) * 16 + b[1] / 16), CharOf((b[1] % 16) * 4), '=']
    ensures b == [b[0], b[1]]
  {
  }

  /** One byte: two data characters and "==", which stop the run after that byte. */
  lemma RunOne(b: seq<byte>, out: seq<byte>)
    requires |b| == 1
    ensures Run(Encode(b), Boundary(out)) == Stop(out + b)
  {
    EncodeOne(b);
    OneValues(b[0]);
    RunQuantumTwoPads(CharOf(b[0] / 4), CharOf((b[0] % 4) * 16), out);
  }

  /** Two bytes: three data characters and '=', which stop the run after those bytes. */
  lemma RunTwo(b: seq<byte>, out: seq<byte>)
    requires |b| == 2
    ensures Run(Encode(b), Boundary(out)) == Stop(out + b)
  {
    EncodeTwo(b);
    var x, y := b[0], b[1];
    var c0, c1, c2 := CharOf(x / 4), CharOf((x % 4) * 16 + y / 16), CharOf((y % 16) * 4);
    assert Encode(b) == [c0, c1, c2, '='];
    TwoValues(x, y);
    RunQuantumOnePad(c0, c1, c2, out);
  }

  /** The final quantum for one byte, as the strict decoder reads it. */
  lemma StrictOne(b: seq<byte>)
    requires |b| == 1
    ensures StrictDecode(Encode(b)) == Some(b)
  {
    EncodeOne(b);
    OneValues(b[0]);
    StrictDecodeLast(Encode(b), b);
  }

  /** The final quantum for two bytes, as the strict decoder reads it. */
  lemma StrictTwo(b: seq<byte>)
    requires |b| == 2
    ensures StrictDecode(Encode(b)) == Some(b)
  {
    EncodeTwo(b);
    TwoValues(b[0], b[1]);
    StrictDecodeLast(Encode(b), b);
  }

  /** The first three bytes, then the rest, make the whole. */
  lemma SplitThree(b: seq<byte>, out: seq<byte>)
    requires |b| >= 3
    ensures [b[0], b[1], b[2]] + b[3..] == b
    ensures out + [b[0], b[1], b[2]] + b[3..] == out + b
  {
  }

  /** The encoder starts with the group of the first three bytes. */
  lemma EncodeFirstGroup(b: seq<byte>)
    requires |b| >= 3
    ensures Encode(b) == EncodeGroup(b[0], b[1], b[2]) + Encode(b[3..])
  {
  }

  /** A group of three bytes takes the run from one quantum boundary to the next. */
  lemma RunGroup(b0: byte, b1: byte, b2: byte, out: seq<byte>)
    ensures Run(EncodeGroup(b0, b1, b2), Boundary(out)) == Next(Boundary(out + [b0, b1, b2]))
  {
    var g := EncodeGroup(b0, b1, b2);
    GroupValues(b0, b1, b2);
    RunFullQuantum(g[0], g[1], g[2], g[3], out);
    assert g == [g[0], g[1], g[2], g[3]];
  }

  /** A part that ends on a quantum boundary hands that boundary on to what follows. */
  lemma RunConcatBoundary(g: string, e: string, out: seq<byte>, o2: seq<byte>)
    requires Run(g, Boundary(out)) == Next(Boundary(o2))
    ensures Run(g + e, Boundary(out)) == Run(e, Boundary(o2))
  {
    RunConcat(g, e, Boundary(out));
  }

  /**
    Running over an encoding emits exactly the encoded bytes: it ends on a quantum boundary
    when the length is a multiple of three, and stops at the padding otherwise.
  */
  lemma {:induction false} RunEncode(b: seq<byte>, out: seq<byte>)
    ensures Run(Encode(b), Boundary(out)) ==
            if |b| % 3 == 0 then Next(Boundary(out + b)) else Stop(out + b)
    decreases |b|
  {
    if |b| == 0 {
      assert out + b == out;
    } else if |b| == 1 {
      RunOne(b, out);
    } else if |b| == 2 {
      RunTwo(b, out);
    } else {
      var o2 := out + [b[0], b[1], b[2]];
      RunGroup(b[0], b[1], b[2], out);
      RunConcatBoundary(EncodeGroup(b[0], b[1], b[2]), Encode(b[3..]), out, o2);
      EncodeFirstGroup(b);
      RunEncode(b[3..], o2);
      SplitThree(b, out);
      Mod3(|b|);
    }
  }

  lemma Mod3(n: int)
    requires n >= 3
    ensures (n - 3) % 3 == n % 3
  {
  }

  /** `b64decode` inverts the encoding. */
  lemma DecodeEncode(b: seq<byte>)
    ensures Decode(Encode(b)) == Success(b)
  {
    RunEncode(b, []);
    EncodeAlphabet(b);
    assert [] + b == b;
  }

  /** `b64decode` of the text `btoa` produced gives back the bytes of the original text. */
  lemma DecodeBtoa(s: string)
    requires IsLatin1(s)
    ensures Decode(Btoa(s)) == Success(Latin1Bytes(s))
  {
    DecodeEncode(Latin1Bytes(s));
  }

  /** After a padded encoding, `b64decode` ignores whatever ASCII text follows. */
  lemma DataAfterPaddingIgnored(b: seq<byte>, t: string)
    requires |b| % 3 != 0 && IsAscii(t)
    ensures Decode(Encode(b) + t) == Success(b)
  {
    RunEncode(b, []);
    RunConcat(Encode(b), t, Boundary([]));
    EncodeAlphabet(b);
    AsciiConcat(Encode(b), t);
    assert [] + b == b;
  }

  /** Characters outside the alphabet do not change the scan. */
  lemma {:induction false} RunIgnoresNonAlphabet(s: string, st: State)
    ensures Run(s, st) == Run(Filter(s), st)
    decreases |s|
  {
    if s != [] {
      var c := s[0];
      if IsDataChar(c) || c == '=' {
        var f := Filter(s);
        assert f == [c] + Filter(s[1..]);
        assert f[0] == c && f[1..] == Filter(s[1..]);
        match Feed(st, c)
        case Stop(_) =>
        case Next(st') => RunIgnoresNonAlphabet(s[1..], st');
      } else {
        RunIgnoresNonAlphabet(s[1..], st);
      }
    }
  }

  /** For ASCII input, `b64decode` sees only the alphabet and '='. */
  lemma DecodeIgnoresNonAlphabet(s: string)
    requires IsAscii(s)
    ensures Decode(s) == Decode(Filter(s))
  {
    RunIgnoresNonAlphabet(s, Boundary([]));
  }

  /** The run ends with the given output, stopped or on a quantum boundary. */
  predicate Emits(r: Step, out: seq<byte>) {
    r == Stop(out) || r == Next(Boundary(out))
  }

  /** On a string the strict decoder accepts, the run emits the same bytes. */
  lemma {:induction false} RunAgreesWithStrict(s: string, out: seq<byte>)
    requires StrictDecode(s).Some?
    ensures Emits(Run(s, Boundary(out)), out + StrictDecode(s).value)
    decreases |s|
  {
    if |s| == 0 {
      assert out + [] == out;
    } else {
      var a, b, c, d := s[0], s[1], s[2], s[3];
      var g := DecodeQuantum(a, b, c, d, |s| == 4).value;
      var rest := StrictDecode(s[4..]).value;
      assert StrictDecode(s).value == g + rest;
      var q := [a, b, c, d];
      assert s == q + s[4..];
      if IsDataChar(c) && IsDataChar(d) {
        RunFullQuantum(a, b, c, d, out);
        RunConcat(q, s[4..], Boundary(out));
        RunAgreesWithStrict(s[4..], out + g);
        assert out + g + rest == out + (g + rest);
      } else if IsDataChar(c) {
        assert |s| == 4 && d == '=' && rest == [] && s == q;
        RunQuantumOnePad(a, b, c, out);
        assert g + rest == g;
      } else {
        assert |s| == 4 && c == '=' && d == '=' && rest == [] && s == q;
        RunQuantumTwoPads(a, b, out);
        assert g + rest == g;
      }
    }
  }

  /**
    Where the strict decoder accepts the input once the characters outside the alphabet are
    dropped, `b64decode` returns the same bytes.
  */
  lemma DecodeAgreesWithStrict(s: string)
    requires IsAscii(s) && StrictDecode(Filter(s)).Some?
    ensures Decode(s) == Success(StrictDecode(Filter(s)).value)
  {
    RunIgnoresNonAlphabet(s, Boundary([]));
    RunAgreesWithStrict(Filter(s), []);
    assert [] + StrictDecode(Filter(s)).value == StrictDecode(Filter(s)).value;
  }

  /** The strict decoder accepts every encoding and inverts it. */
  lemma {:induction false} StrictDecodeEncode(b: seq<byte>)
    ensures StrictDecode(Encode(b)) == Some(b)
    decreases |b|
  {
    if |b| == 1 {
      StrictOne(b);
    } else if |b| == 2 {
      StrictTwo(b);
    } else if |b| >= 3 {
      var g := EncodeGroup(b[0], b[1], b[2]);
      GroupValues(b[0], b[1], b[2]);
      EncodeFirstGroup(b);
      StrictDecodeEncode(b[3..]);
      StrictDecodeFirst(g, Encode(b[3..]), [b[0], b[1], b[2]], b[3..]);
      SplitThree(b, []);
    }
  }

  /** A single final quantum the strict decoder accepts. */
  lemma StrictDecodeLast(e: string, b: seq<byte>)
    requires |e| == 4 && DecodeQuantum(e[0], e[1], e[2], e[3], true) == Some(b)
    ensures StrictDecode(e) == Some(b)
  {
    assert e[4..] == [];
    assert b + [] == b;
  }

  /** A full quantum in front of a string the strict decoder accepts. */
  lemma StrictDecodeFirst(g: string, e: string, x: seq<byte>, y: seq<byte>)
    requires |g| == 4 && StrictDecode(e) == Some(y)
    requires DecodeQuantum(g[0], g[1], g[2], g[3], false) == Some(x)
    requires DecodeQuantum(g[0], g[1], g[2], g[3], true) == Some(x)
    ensures StrictDecode(g + e) == Some(x + y)
  {
    var s := g + e;
    assert s[0] == g[0] && s[1] == g[1] && s[2] == g[2] && s[3] == g[3];
    assert s[4..] == e;
  }
}
