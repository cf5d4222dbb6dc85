/**
  The client-to-server round trip: a buffer goes through `btoa` into the address bar, and the
  server reads it back through form decoding, `b64decode` and UTF-8. `btoa` writes one byte per
  character (Latin-1) while the server reads UTF-8, so the two agree exactly on ASCII text. As
  written, the client does not escape the `btoa` text, and the server's form decoding turns
  each '+' of it into a space.
*/
module RoundTrip {
  import opened Wrappers
  import opened Chars
  import opened Slots
  import opened Query
  import opened Server
  import Base64
  import Utf8

  lemma AsciiBytes(s: string)
    requires IsAscii(s)
    ensures Utf8.AllAscii(Latin1Bytes(s))
  {
    var b := Latin1Bytes(s);
    forall i | 0 <= i < |b| ensures b[i] < 0x80 { assert b[i] == s[i] as int; }
  }

  /** The server decodes the `btoa` of a buffer to the UTF-8 reading of the buffer's Latin-1 bytes. */
  lemma DecodeTextBtoa(s: string)
    requires IsLatin1(s)
    ensures DecodeText(Base64.Btoa(s)) == Utf8.Decode(Latin1Bytes(s))
  {
    Base64.DecodeBtoa(s);
  }

  /** Non-empty ASCII content comes back unchanged. */
  lemma AsciiRoundTrip(slot: Slot, s: string)
    requires s != "" && IsAscii(s)
    ensures DecodeSlot(slot, Base64.Btoa(s)) == s
  {
    assert IsLatin1(s);
    DecodeTextBtoa(s);
    AsciiBytes(s);
    Utf8.DecodeAscii(Latin1Bytes(s));
    Latin1BytesAsChars(s);
  }

  /** An empty buffer is written as an empty parameter and comes back as the slot's default. */
  lemma EmptyBufferGivesDefault(slot: Slot)
    ensures Base64.Btoa("") == ""
    ensures DecodeSlot(slot, Base64.Btoa("")) == Default(slot)
  {
  }

  /** Content outside ASCII never comes back unchanged (unless it happens to be the default text). */
  lemma NonAsciiChanges(slot: Slot, s: string)
    requires IsLatin1(s) && !IsAscii(s) && s != Default(slot)
    ensures DecodeSlot(slot, Base64.Btoa(s)) != s
  {
    var p := Base64.Btoa(s);
    var b := Latin1Bytes(s);
    DecodeTextBtoa(s);
    if p != "" && Utf8.Decode(b).Some? {
      assert !Utf8.AllAscii(b) by {
        var i :| 0 <= i < |s| && s[i] as int >= 0x80;
        assert b[i] == s[i] as int;
      }
      Utf8.DecodeShorter(b);
    }
  }

  /** For Latin-1 content other than the default, the round trip is exact iff the content is non-empty ASCII. */
  lemma RoundTripIffAscii(slot: Slot, s: string)
    requires IsLatin1(s) && s != Default(slot)
    ensures DecodeSlot(slot, Base64.Btoa(s)) == s <==> s != "" && IsAscii(s)
  {
    if s != "" && IsAscii(s) {
      AsciiRoundTrip(slot, s);
    } else if s == "" {
      EmptyBufferGivesDefault(slot);
    } else {
      NonAsciiChanges(slot, s);
    }
  }

  /** A lone 'é' is written as the byte 0xE9, which is not UTF-8: the slot shows its default. */
  lemma EAcuteGivesDefault(slot: Slot)
    ensures DecodeSlot(slot, Base64.Btoa([0xE9 as char])) == Default(slot)
  {
    var s := [0xE9 as char];
    assert IsLatin1(s);
    DecodeTextBtoa(s);
    assert Latin1Bytes(s) == [0xE9];
    Utf8.LoneE9Rejected();
  }

  /** 'Ã©' is written as the bytes 0xC3 0xA9, which the server reads as 'é'. */
  lemma MojibakeGivesEAcute(slot: Slot)
    ensures DecodeSlot(slot, Base64.Btoa([0xC3 as char, 0xA9 as char])) == [0xE9 as char]
  {
    var s := [0xC3 as char, 0xA9 as char];
    assert IsLatin1(s);
    DecodeTextBtoa(s);
    assert Latin1Bytes(s) == [0xC3, 0xA9];
    Utf8.C3A9IsEAcute();
    assert Base64.Btoa(s) != "";
  }

  /** The buffers the server renders for a URL. */
  function Reload(url: string): Buffers {
    Index(ParseQuery(QueryPart(url)))
  }

  /** What the server renders for each slot of the URL the client as written produces. */
  lemma ServerReadsClientUrl(pathname: string, b: Buffers, slot: Slot)
    requires AllLatin1(b) && '?' !in pathname
    ensures Reload(UrlFor(pathname, b)).Get(slot) == DecodeSlot(slot, FormDecode(Base64.Btoa(b.Get(slot))))
  {
    GetUrlParam(pathname, b, slot);
  }

  /** What the server renders for each slot of the URL the corrected client produces. */
  lemma ServerReadsEscapedUrl(pathname: string, b: Buffers, slot: Slot)
    requires AllLatin1(b) && '?' !in pathname
    ensures Reload(EscapedUrlFor(pathname, b)).Get(slot) == DecodeSlot(slot, Base64.Btoa(b.Get(slot)))
  {
    GetEscapedUrlParam(pathname, b, slot);
  }

  /**
    As written, reloading shows an ASCII buffer unchanged when its `btoa` holds no '+', and an
    empty one as the default.
  */
  lemma ReloadShowsAsciiBuffers(pathname: string, b: Buffers, slot: Slot)
    requires AllLatin1(b) && IsAscii(b.Get(slot)) && '?' !in pathname
    ensures '+' !in Base64.Btoa(b.Get(slot)) ==>
      Reload(UrlFor(pathname, b)).Get(slot) == if b.Get(slot) == "" then Default(slot) else b.Get(slot)
  {
    var p := Base64.Btoa(b.Get(slot));
    ServerReadsClientUrl(pathname, b, slot);
    FormDecodeBase64(p);
    if b.Get(slot) != "" {
      AsciiRoundTrip(slot, b.Get(slot));
    }
  }

  /** With the corrected client, reloading shows every ASCII buffer unchanged, and an empty one as the default. */
  lemma EscapedReloadShowsAsciiBuffers(pathname: string, b: Buffers, slot: Slot)
    requires AllLatin1(b) && IsAscii(b.Get(slot)) && '?' !in pathname
    ensures Reload(EscapedUrlFor(pathname, b)).Get(slot) == if b.Get(slot) == "" then Default(slot) else b.Get(slot)
  {
    ServerReadsEscapedUrl(pathname, b, slot);
    if b.Get(slot) != "" {
      AsciiRoundTrip(slot, b.Get(slot));
    }
  }

  /** `btoa("<p>")` is `PHA+`; the code of the '+' is 62, the value of the three bytes' last six bits. */
  lemma BtoaOfParagraph()
    ensures IsLatin1("<p>") && Base64.Btoa("<p>") == "PHA+"
  {
    var s := "<p>";
    assert IsLatin1(s);
    var bs := Latin1Bytes(s);
    assert bs == [60, 112, 62];
    assert bs[3..] == [];
    assert Base64.Encode(bs) == Base64.EncodeGroup(60, 112, 62) + Base64.Encode([]);
    assert Base64.EncodeGroup(60, 112, 62) == [Base64.CharOf(15), Base64.CharOf(7), Base64.CharOf(0), Base64.CharOf(62)];
  }

  /** The server's form decoding of `PHA+` is `PHA `. */
  lemma FormDecodeOfParagraph()
    ensures FormDecode("PHA+") == "PHA "
  {
    var s := "PHA+";
    assert s[0] != '+' && !StartsWithEscape(s) && s[1..] == "HA+";
    assert FormDecode(s) == ['P'] + FormDecode("HA+");
    assert "HA+"[1..] == "A+" && FormDecode("HA+") == ['H'] + FormDecode("A+");
    assert "A+"[1..] == "+" && FormDecode("A+") == ['A'] + FormDecode("+");
    assert "+"[1..] == "" && FormDecode("+") == [' '];
  }

  /** `PHA ` holds three data characters, an incomplete quantum: `b64decode` reports incorrect padding. */
  lemma DecodeOfParagraphSpace()
    ensures Base64.Decode("PHA ") == Failure(Base64.IncorrectPadding)
  {
    var s := "PHA ";
    assert IsAscii(s);
    var st := Base64.Boundary([]);
    var st1 := Base64.Absorb(st, 15);
    var st2 := Base64.Absorb(st1, 7);
    var st3 := Base64.Absorb(st2, 0);
    assert s[1..] == "HA " && s[1..][1..] == "A " && s[1..][1..][1..] == " " && s[1..][1..][1..][1..] == "";
    assert Base64.Run(" ", st3) == Base64.Run("", st3);
    assert Base64.Run("A ", st2) == Base64.Run(" ", st3);
    assert Base64.Run("HA ", st1) == Base64.Run("A ", st2);
    assert Base64.Run(s, st) == Base64.Run("HA ", st1);
  }

  /**
    As written, the markup `<p>` does not survive a reload: the client writes `html=PHA+`, the
    server reads `PHA `, whose three data characters are an incomplete quantum, and shows the
    default markup. The corrected client writes `html=PHA%2B` and gets `<p>` back.
  */
  lemma PlusBreaksReload()
    ensures AllLatin1(Triple("<p>", "", "")) && IsAscii("<p>")
    ensures Reload(UrlFor("/", Triple("<p>", "", ""))).html == Default(Html)
    ensures Reload(EscapedUrlFor("/", Triple("<p>", "", ""))).html == "<p>"
  {
    var b := Triple("<p>", "", "");
    BtoaOfParagraph();
    assert AllLatin1(b) && IsAscii("<p>");
    assert Reload(UrlFor("/", b)).html == Default(Html) by {
      ServerReadsClientUrl("/", b, Html);
      FormDecodeOfParagraph();
      DecodeOfParagraphSpace();
      assert DecodeText("PHA ") == None;
    }
    assert Reload(EscapedUrlFor("/", b)).html == "<p>" by {
      ServerReadsEscapedUrl("/", b, Html);
      AsciiRoundTrip(Html, "<p>");
    }
  }

  /** The parameters either client writes are ASCII, so the error that escapes `index()` never comes from them. */
  lemma ClientUrlNeverEscapes(pathname: string, b: Buffers)
    requires AllLatin1(b) && '?' !in pathname
    ensures IndexAsWritten(ParseQuery(QueryPart(UrlFor(pathname, b)))) == Success(Reload(UrlFor(pathname, b)))
    ensures IndexAsWritten(ParseQuery(QueryPart(EscapedUrlFor(pathname, b)))) == Success(Reload(EscapedUrlFor(pathname, b)))
  {
    var args := ParseQuery(QueryPart(UrlFor(pathname, b)));
    forall s: Slot ensures IsAscii(Param(args, s)) {
      GetUrlParam(pathname, b, s);
      FormDecodeAscii(Base64.Btoa(b.Get(s)));
    }
    AsWrittenAgreesOnAscii(args);
    var escaped := ParseQuery(QueryPart(EscapedUrlFor(pathname, b)));
    forall s: Slot ensures IsAscii(Param(escaped, s)) {
      GetEscapedUrlParam(pathname, b, s);
    }
    AsWrittenAgreesOnAscii(escaped);
  }
}
