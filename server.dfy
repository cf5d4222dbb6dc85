/**
  The server's `index()` view: each of the three parameters is base-64 decoded, then decoded
  as UTF-8; an absent or empty parameter, and a parameter that fails either decoding, gives
  that slot's fixed default text. The three slots are decoded one after the other, each in a
  `try` of its own.
*/
module Server {
  import opened Wrappers
  import opened Chars
  import opened Slots
  import opened Query
  import Base64
  import Utf8

  const DefaultHtml: string :=
    "\n<h1 class=\"revertable\">Hello, World!</h1>\n<button onClick=\"button()\">press me </button>\n"

  const DefaultCss: string := "h1 { color: blue; }"

  const DefaultJs: string :=
    "\nfunction button() {\n"
    + "    const element = document.querySelector('h1.revertable');\n"
    + "    if (element) {\n"
    + "    const text = element.textContent;\n"
    + "    element.textContent = text.split('').reverse().join('');\n"
    + "    }\n"
    + "    console.log(\"reverted!\");\n"
    + "}\n"

  /** The text a slot shows when its parameter gives nothing usable. */
  function Default(s: Slot): (t: string)
    ensures t != ""
  {
    match s
    case Html => assert |DefaultHtml| > 0; DefaultHtml
    case Css => assert |DefaultCss| > 0; DefaultCss
    case Js => assert |DefaultJs| > 0; DefaultJs
  }

  /** The raw value of a slot's parameter, '' when it is absent. */
  function Param(args: Args, s: Slot): string {
    Get(args, ParamName(s))
  }

  /**
    What a non-empty parameter decodes to: the UTF-8 text of its base-64 bytes, if both succeed.
    A text it gives is exactly the one whose UTF-8 encoding the base-64 bytes are.
  */
  function DecodeText(p: string): (t: Option<string>)
    ensures t.Some? <==> Base64.Decode(p).Success? && Utf8.Decode(Base64.Decode(p).value).Some?
    ensures t.Some? ==> Utf8.Encode(t.value) == Base64.Decode(p).value
  {
    match Base64.Decode(p)
    case Failure(_) => None
    case Success(bytes) =>
      if Utf8.Decode(bytes).Some? then Utf8.EncodeDecode(bytes); Utf8.Decode(bytes) else None
  }

  /**
    One slot as the server should decode it: every failure, including a parameter with
    characters outside ASCII, falls back to the default.
  */
  function DecodeSlot(s: Slot, p: string): (t: string)
    ensures t == Default(s) || (p != "" && DecodeText(p) == Some(t))
  {
    if p == "" then Default(s)
    else
      match DecodeText(p)
      case None => Default(s)
      case Some(text) => text
  }

  /**
    One slot as `index()` decodes it: `b64decode` raises ValueError, which the `except` clause
    does not name, for a parameter with characters outside ASCII. That error escapes.
  */
  function DecodeSlotAsWritten(s: Slot, p: string): (r: Result<string, Base64.DecodeError>)
    ensures r.Failure? <==> !IsAscii(p)
    ensures r.Failure? ==> r.error == Base64.NonAsciiInput
    ensures r.Success? ==> r.value == DecodeSlot(s, p)
  {
    if p == "" then Success(Default(s))
    else
      match Base64.Decode(p)
      case Failure(e) =>
        if Base64.IsBinasciiError(e) then Success(Default(s)) else Failure(e)
      case Success(bytes) =>
        match Utf8.Decode(bytes)
        case None => Success(Default(s))
        case Some(text) => Success(text)
  }

  /** The three buffers the page is rendered with. */
  function Index(args: Args): (b: Buffers)
    ensures forall s :: b.Get(s) == DecodeSlot(s, Param(args, s))
  {
    Triple(DecodeSlot(Html, Param(args, Html)),
           DecodeSlot(Css, Param(args, Css)),
           DecodeSlot(Js, Param(args, Js)))
  }

  /** `index()` as written: html, css and js in turn; the first error that escapes ends the request. */
  function IndexAsWritten(args: Args): (r: Result<Buffers, Base64.DecodeError>)
    ensures r.Success? ==> r.value == Index(args)
  {
    match DecodeSlotAsWritten(Html, Param(args, Html))
    case Failure(e) => Failure(e)
    case Success(h) =>
      match DecodeSlotAsWritten(Css, Param(args, Css))
      case Failure(e) => Failure(e)
      case Success(c) =>
        match DecodeSlotAsWritten(Js, Param(args, Js))
        case Failure(e) => Failure(e)
        case Success(j) => Success(Triple(h, c, j))
  }

  // ---------------------------------------------------------------------------------------
  // Properties

  /** An absent or empty parameter gives the slot's default, which is never empty. */
  lemma EmptyGivesDefault(args: Args, s: Slot)
    requires Param(args, s) == ""
    ensures Index(args).Get(s) == Default(s) && Default(s) != ""
  {
  }

  /** A parameter missing from the query is read as empty. */
  lemma AbsentGivesDefault(args: Args, s: Slot)
    requires forall i :: 0 <= i < |args| ==> args[i].0 != ParamName(s)
    ensures Index(args).Get(s) == Default(s)
  {
    GetAbsent(args, ParamName(s));
  }

  /** Malformed base 64, or bytes that are not UTF-8, give the same default as an absent parameter. */
  lemma MalformedGivesDefault(s: Slot, p: string)
    requires Base64.Decode(p).Failure? || Utf8.Decode(Base64.Decode(p).value).None?
    ensures DecodeSlot(s, p) == Default(s)
  {
  }

  /** A well-formed parameter gives exactly the UTF-8 text of its base-64 bytes. */
  lemma WellFormedDecodes(s: Slot, p: string, bytes: seq<Chars.byte>, text: string)
    requires p != "" && Base64.Decode(p) == Success(bytes) && Utf8.Decode(bytes) == Some(text)
    ensures DecodeSlot(s, p) == text
  {
  }

  /** A slot's text depends on its own parameter only. */
  lemma SlotsIndependent(a1: Args, a2: Args, s: Slot)
    requires Param(a1, s) == Param(a2, s)
    ensures Index(a1).Get(s) == Index(a2).Get(s)
  {
  }

  /** As written, the request fails exactly when some parameter holds a character outside ASCII. */
  lemma AsWrittenFailsIff(args: Args)
    ensures IndexAsWritten(args).Failure? <==>
      !IsAscii(Param(args, Html)) || !IsAscii(Param(args, Css)) || !IsAscii(Param(args, Js))
  {
  }

  /** On ASCII parameters the code as written and the corrected decoding agree. */
  lemma AsWrittenAgreesOnAscii(args: Args)
    requires IsAscii(Param(args, Html)) && IsAscii(Param(args, Css)) && IsAscii(Param(args, Js))
    ensures IndexAsWritten(args) == Success(Index(args))
  {
    AsWrittenFailsIff(args);
  }

  /** `?html=é`: the code as written lets a ValueError escape; the corrected decoding shows the default. */
  lemma NonAsciiParameterEscapes()
    ensures IndexAsWritten([("html", [0xE9 as char])]) == Failure(Base64.NonAsciiInput)
    ensures Index([("html", [0xE9 as char])]).html == DefaultHtml
  {
    var args := [("html", [0xE9 as char])];
    assert Param(args, Html) == [0xE9 as char];
    assert [0xE9 as char][0] as int == 0xE9;
  }
}
