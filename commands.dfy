/**
  The host page's command logic: which buffers "save all" writes, and which command a key press
  selects. Both only decide; the effects are carried out by the page.
*/
module Commands {
  import opened Wrappers
  import opened Slots

  /** The characters `String.prototype.trim` removes: white space and line terminators. */
  predicate IsJsWhitespace(c: char) {
    c == '\t' || c == '\U{000B}' || c == '\U{000C}' || c == ' ' || c == '\U{00A0}' || c == '\U{FEFF}'
    || c == '\U{1680}' || ('\U{2000}' <= c <= '\U{200A}') || c == '\U{202F}' || c == '\U{205F}'
    || c == '\U{3000}' || c == '\n' || c == '\r' || c == '\U{2028}' || c == '\U{2029}'
  }

  predicate AllWhitespace(s: string) {
    forall i :: 0 <= i < |s| ==> IsJsWhitespace(s[i])
  }

  /** The text without its leading white space. */
  function TrimStart(s: string): (r: string)
    ensures |r| <= |s| && r == s[|s| - |r|..]
    ensures AllWhitespace(s[..|s| - |r|])
    ensures r != "" ==> !IsJsWhitespace(r[0]) && !IsJsWhitespace(s[|s| - |r|])
    decreases |s|
  {
    if |s| > 0 && IsJsWhitespace(s[0]) then
      var r := TrimStart(s[1..]);
      assert s[..|s| - |r|] == [s[0]] + s[1..][..|s| - 1 - |r|];
      r
    else s
  }

  /** The text without its trailing white space. */
  function TrimEnd(s: string): (r: string)
    ensures |r| <= |s| && r == s[..|r|]
    ensures AllWhitespace(s[|r|..])
    ensures r != "" ==> !IsJsWhitespace(r[|r| - 1])
    decreases |s|
  {
    if |s| > 0 && IsJsWhitespace(s[|s| - 1]) then
      var r := TrimEnd(s[..|s| - 1]);
      assert s[|r|..] == s[..|s| - 1][|r|..] + [s[|s| - 1]];
      r
    else s
  }

  /** `s.trim()`: never longer, and neither end is white space (`TrimIsSlice`, `TrimEmptyIff`). */
  function Trim(s: string): (t: string)
    ensures |t| <= |s|
    ensures t != "" ==> !IsJsWhitespace(t[0]) && !IsJsWhitespace(t[|t| - 1])
  {
    TrimEnd(TrimStart(s))
  }

  /** A file handed to the browser for download: its content and its name. */
  datatype Download = Download(content: string, filename: string)

  /** `if (buffer.trim())`: the buffer holds something besides white space (`TrimEmptyIff`). */
  predicate NonBlank(s: string) {
    !AllWhitespace(s)
  }

  /** The slots whose test succeeds, in the order html, css, js. */
  function Chosen(keep: Triple<bool>): seq<Slot> {
    (if keep.html then [Html] else []) + (if keep.css then [Css] else []) + (if keep.js then [Js] else [])
  }

  /** The slots `saveAllFiles` saves. */
  function SavedSlots(b: Buffers): (ss: seq<Slot>)
    ensures |ss| <= 3
    ensures forall i :: 0 <= i < |ss| ==> NonBlank(b.Get(ss[i]))
  {
    Chosen(Triple(NonBlank(b.html), NonBlank(b.css), NonBlank(b.js)))
  }

  /** One `saveFile(buffer, name)` per slot, in the given order. */
  function Downloads(ss: seq<Slot>, b: Buffers): (p: seq<Download>)
    ensures |p| == |ss|
    decreases |ss|
  {
    if ss == [] then [] else [Download(b.Get(ss[0]), FileName(ss[0]))] + Downloads(ss[1..], b)
  }

  /** The downloads `saveAllFiles` starts. */
  function SaveAllPlan(b: Buffers): (p: seq<Download>)
    ensures |p| == |SavedSlots(b)|
    ensures forall i :: 0 <= i < |p| ==> p[i] == Download(b.Get(SavedSlots(b)[i]), FileName(SavedSlots(b)[i]))
  {
    DownloadsContents(SavedSlots(b), b);
    Downloads(SavedSlots(b), b)
  }

  /** What a key press asks the page to do. */
  datatype Command =
    | SaveAll
    | Save(slot: Slot)
    | ClearAll
    | Close
    | Load(slot: Slot)

  /** The outcome of the key handler: whether it calls `preventDefault`, and the command, if any. */
  datatype KeyOutcome = KeyOutcome(prevented: bool, command: Option<Command>)

  /**
    The `keydown` handler. `focus` is the first editor, in the order html, css, js, whose
    `hasFocus()` holds.
  */
  function Dispatch(ctrl: bool, shift: bool, key: string, focus: Option<Slot>): (o: KeyOutcome)
    ensures o.command.Some? ==> o.prevented
    ensures o.prevented ==> ctrl
  {
    if ctrl && shift && key == "S" then KeyOutcome(true, Some(SaveAll))
    else if ctrl && key == "s" then
      KeyOutcome(true, match focus case None => None case Some(s) => Some(Save(s)))
    else if ctrl && key == "r" then KeyOutcome(true, Some(ClearAll))
    else if ctrl && key == "t" then KeyOutcome(true, Some(Close))
    else if ctrl && key == "l" then
      KeyOutcome(true, Some(Load(match focus case None => Html case Some(s) => s)))
    else KeyOutcome(false, None)
  }

  // ---------------------------------------------------------------------------------------
  // Properties

  /** Trimming leaves nothing exactly when the text is all white space. */
  lemma TrimEmptyIff(s: string)
    ensures Trim(s) == "" <==> AllWhitespace(s)
  {
    var t := TrimStart(s);
    if Trim(s) == "" {
      assert AllWhitespace(t) by { assert t[0..] == t; }
      assert |t| == 0;
      assert s[..|s|] == s;
    }
    if AllWhitespace(s) {
      assert t == "";
    }
  }

  /** Trimming keeps the text between the first and the last non-white-space characters. */
  lemma TrimIsSlice(s: string)
    ensures exists i, j :: 0 <= i <= j <= |s| && Trim(s) == s[i..j]
  {
    var t := TrimStart(s);
    var r := TrimEnd(t);
    assert r == s[|s| - |t|..][..|r|];
    assert r == s[|s| - |t|..|s| - |t| + |r|];
  }

  /** The i-th download is the i-th slot's buffer under that slot's file name. */
  lemma {:induction false} DownloadsContents(ss: seq<Slot>, b: Buffers)
    ensures forall i :: 0 <= i < |ss| ==> Downloads(ss, b)[i] == Download(b.Get(ss[i]), FileName(ss[i]))
    decreases |ss|
  {
    if ss != [] {
      DownloadsContents(ss[1..], b);
    }
  }

  /** A slot is chosen exactly when its test succeeds; at most three, in the order html, css, js. */
  lemma ChosenProperties(keep: Triple<bool>)
    ensures forall s :: s in Chosen(keep) <==> keep.Get(s)
    ensures |Chosen(keep)| <= 3
    ensures forall i, j :: 0 <= i < j < |Chosen(keep)| ==> Rank(Chosen(keep)[i]) < Rank(Chosen(keep)[j])
  {
  }

  /** `saveAllFiles` saves a buffer iff its trimmed content is non-empty, in the order index.html, styles.css, script.js. */
  lemma SaveAllIff(b: Buffers)
    ensures forall s :: s in SavedSlots(b) <==> Trim(b.Get(s)) != ""
    ensures |SaveAllPlan(b)| <= 3
    ensures forall i, j :: 0 <= i < j < |SavedSlots(b)| ==> Rank(SavedSlots(b)[i]) < Rank(SavedSlots(b)[j])
  {
    var keep := Triple(NonBlank(b.html), NonBlank(b.css), NonBlank(b.js));
    ChosenProperties(keep);
    forall s ensures keep.Get(s) == (Trim(b.Get(s)) != "") {
      TrimEmptyIff(b.Get(s));
      match s case Html => case Css => case Js =>
    }
  }

  /** A buffer of white space only is never saved. */
  lemma BlankNotSaved(b: Buffers, s: Slot)
    requires AllWhitespace(b.Get(s))
    ensures s !in SavedSlots(b)
  {
    TrimEmptyIff(b.Get(s));
    SaveAllIff(b);
  }

  /** Ctrl+Shift+'S' is checked first: save all, whatever has focus. */
  lemma SaveAllChecksFirst(key: string, focus: Option<Slot>)
    requires key == "S"
    ensures Dispatch(true, true, key, focus) == KeyOutcome(true, Some(SaveAll))
  {
  }

  /** Ctrl+'s' saves the focused buffer only, and nothing when no editor has focus. */
  lemma CtrlSSavesFocused(shift: bool, focus: Option<Slot>)
    ensures Dispatch(true, shift, "s", focus).command ==
      (match focus case None => None case Some(s) => Some(Save(s)))
    ensures Dispatch(true, shift, "s", focus).prevented
  {
  }

  /** Ctrl+'l' loads into the focused editor, or into html when none has focus. */
  lemma CtrlLLoads(shift: bool, focus: Option<Slot>)
    ensures Dispatch(true, shift, "l", focus).command == Some(Load(if focus.Some? then focus.value else Html))
  {
  }

  /** Ctrl+'r' clears all buffers. */
  lemma CtrlRClears(shift: bool, focus: Option<Slot>)
    ensures Dispatch(true, shift, "r", focus).command == Some(ClearAll)
  {
  }

  /** Without Ctrl no command is issued and the default action is kept. */
  lemma NoCtrlNoCommand(shift: bool, key: string, focus: Option<Slot>)
    ensures Dispatch(false, shift, key, focus) == KeyOutcome(false, None)
  {
  }

  /** Exactly which key presses issue a command. */
  lemma CommandIff(ctrl: bool, shift: bool, key: string, focus: Option<Slot>)
    ensures Dispatch(ctrl, shift, key, focus).command.Some? <==>
      ctrl && ((shift && key == "S") || key == "r" || key == "t" || key == "l" || (key == "s" && focus.Some?))
    ensures Dispatch(ctrl, shift, key, focus).prevented <==>
      ctrl && ((shift && key == "S") || key == "s" || key == "r" || key == "t" || key == "l")
  {
  }
}
