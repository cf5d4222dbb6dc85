/**
  The host page: three editor buffers, their filename labels, the downloads started, the file
  dialogs opened, and the preview. Its methods are the page's event handlers: the save, load,
  clear and close actions, a user edit, the `keydown` handler and the host `window.onerror`.
*/
module Editor {
  import opened Wrappers
  import opened Chars
  import opened Slots
  import opened Query
  import opened Composer
  import opened Bridge
  import opened Executor
  import opened Commands
  import opened Server
  import opened RoundTrip

  /**
    An open file dialog: the editor it loads into, and whether the label element was found
    when it was opened (after `closeEditor` the lookup gives `null`).
  */
  datatype Dialog = Dialog(target: Slot, labelled: bool)

  /**
    The buffers each render of `clearAllFields` shows: after each of the three `setValue('')`
    calls, then once more for its own `updatePreview()`.
  */
  function ClearStages(b: Buffers): seq<Buffers> {
    [Triple("", b.css, b.js), Triple("", "", b.js), Triple("", "", ""), Triple("", "", "")]
  }

  /**
    The renders of `clearAllFields` on the frame f while the editors hold b. A first render that
    throws ends the handler. Once it completes the others do too: their buffers have fewer
    non-empty editors and the frame stays attached.
  */
  function ClearRenders(asWritten: bool, pathname: string, f: Frame, b: Buffers, run: Buffers -> UserScript): (r: Step)
    requires |f.history| > 0
    ensures r.ok <==> f.attached && IsLatin1(b.css) && IsLatin1(b.js)
    ensures |r.frame.history| == |f.history| && r.frame.attached == f.attached
  {
    var bs := ClearStages(b);
    var r1 := RenderStep(asWritten, pathname, f, bs[0], run(bs[0]));
    if !r1.ok then r1
    else
      var r2 := RenderStep(asWritten, pathname, r1.frame, bs[1], run(bs[1]));
      var r3 := RenderStep(asWritten, pathname, r2.frame, bs[2], run(bs[2]));
      var r4 := RenderStep(asWritten, pathname, r3.frame, bs[3], run(bs[3]));
      Step(r4.frame, r1.appended + (r2.appended + (r3.appended + r4.appended)), r4.ok)
  }

  class Page {
    var buffers: Buffers
    var labels: Triple<string>      // the `(name)` shown beside each editor
    var downloads: seq<Download>
    var dialogs: seq<Dialog>        // file dialogs opened by `loadFile` and not yet loaded
    var closed: bool
    var hostHooked: bool            // the host `window.onerror` was installed
    var keysBound: bool             // the `keydown` listener was installed
    const panel: Panel
    const preview: Preview

    ghost predicate Valid()
      reads this, preview
    {
      preview.panel == panel && preview.Valid() && (closed <==> !preview.attached)
    }

    /**
      The page's start-up: the buffers hold what the server rendered, then the first
      `updatePreview()` runs on a fresh frame and an empty log panel. The host `window.onerror`
      and the `keydown` listener are installed after it, so a first render that throws leaves
      both out.
    */
    constructor(asWritten: bool, pathname: string, history: seq<Location>, initial: Buffers,
                initialLabels: Triple<string>, run: Buffers -> UserScript)
      requires |history| > 0
      ensures Valid() && fresh(panel) && fresh(preview)
      ensures preview.asWritten == asWritten && preview.pathname == pathname
      ensures buffers == initial && labels == initialLabels && downloads == [] && dialogs == [] && !closed
      ensures var r := RenderStep(asWritten, pathname, Frame(history, Blank, Native, [], true), initial, run(initial));
        preview.State() == r.frame && panel.entries == r.appended && hostHooked == r.ok && keysBound == r.ok
      ensures hostHooked == keysBound == AllLatin1(initial)
      ensures preview.Url() == if AllLatin1(initial) then Encoded(asWritten, pathname, initial) else history[|history| - 1]
      ensures AllLatin1(initial) ==> preview.document == Written(initial)
    {
      var p := new Panel();
      var v := new Preview(asWritten, pathname, history, p);
      buffers := initial;
      labels := initialLabels;
      downloads := [];
      dialogs := [];
      closed := false;
      panel := p;
      preview := v;
      new;
      var ok := v.Render(initial, run(initial));
      hostHooked := ok;
      keysBound := ok;
    }

    /** `saveFile(editor.getValue(), name)`. */
    method SaveFile(s: Slot)
      requires Valid()
      modifies this
      ensures Valid()
      ensures downloads == old(downloads) + [Download(buffers.Get(s), FileName(s))]
      ensures buffers == old(buffers) && labels == old(labels) && dialogs == old(dialogs) && closed == old(closed)
      ensures hostHooked == old(hostHooked) && keysBound == old(keysBound)
    {
      downloads := downloads + [Download(buffers.Get(s), FileName(s))];
    }

    /** `saveAllFiles()`. */
    method SaveAllFiles()
      requires Valid()
      modifies this
      ensures Valid()
      ensures downloads == old(downloads) + SaveAllPlan(buffers)
      ensures buffers == old(buffers) && labels == old(labels) && dialogs == old(dialogs) && closed == old(closed)
      ensures hostHooked == old(hostHooked) && keysBound == old(keysBound)
    {
      downloads := downloads + SaveAllPlan(buffers);
    }

    /**
      `clearAllFields()`: each `setValue('')` fires its change render, then one more
      `updatePreview()`. A render that throws ends the handler, leaving the editors not yet
      cleared as they were.
    */
    method ClearAllFields(run: Buffers -> UserScript) returns (ok: bool)
      requires Valid()
      modifies this, preview, panel
      ensures Valid()
      ensures var r := ClearRenders(preview.asWritten, preview.pathname, old(preview.State()), old(buffers), run);
        preview.State() == r.frame && panel.entries == old(panel.entries) + r.appended && ok == r.ok
      ensures ok <==> !closed && IsLatin1(old(buffers).css) && IsLatin1(old(buffers).js)
      ensures buffers == if ok then Triple("", "", "") else Triple("", old(buffers).css, old(buffers).js)
      ensures ok ==> preview.Url() == Encoded(preview.asWritten, preview.pathname, Triple("", "", ""))
      ensures labels == old(labels) && downloads == old(downloads) && dialogs == old(dialogs) && closed == old(closed)
      ensures hostHooked == old(hostHooked) && keysBound == old(keysBound)
    {
      ghost var aw, pn, bs := preview.asWritten, preview.pathname, ClearStages(buffers);
      ghost var f0, e0 := preview.State(), panel.entries;
      ok := Edit(Html, "", run);
      assert buffers == bs[0];
      if !ok {
        return;
      }
      ghost var f1, e1 := preview.State(), panel.entries;
      ok := Edit(Css, "", run);
      assert buffers == bs[1];
      if !ok {
        return;
      }
      ghost var f2, e2 := preview.State(), panel.entries;
      ok := Edit(Js, "", run);
      assert buffers == bs[2];
      if !ok {
        return;
      }
      ghost var f3, e3 := preview.State(), panel.entries;
      ok := preview.Render(buffers, run(buffers));
      assert buffers == bs[3];
      AppendFour(e0, RenderStep(aw, pn, f0, bs[0], run(bs[0])).appended, RenderStep(aw, pn, f1, bs[1], run(bs[1])).appended,
                 RenderStep(aw, pn, f2, bs[2], run(bs[2])).appended, RenderStep(aw, pn, f3, bs[3], run(bs[3])).appended);
    }

    /** `loadFile(editor, label)`: a file dialog opens for that editor. */
    method LoadFile(s: Slot)
      requires Valid()
      modifies this
      ensures Valid()
      ensures dialogs == old(dialogs) + [Dialog(s, !closed)]
      ensures buffers == old(buffers) && labels == old(labels) && downloads == old(downloads) && closed == old(closed)
      ensures hostHooked == old(hostHooked) && keysBound == old(keysBound)
    {
      dialogs := dialogs + [Dialog(s, !closed)];
    }

    /**
      The reader's `onload` for the file chosen in dialog i: `setValue` gives the editor the
      text and fires its change render; then the label shows `(name)` and one more render
      follows. Without a label element, setting its text throws and that render does not happen.
    */
    method FileLoaded(i: nat, name: string, content: string, run: Buffers -> UserScript) returns (ok: bool)
      requires Valid() && i < |dialogs|
      modifies this, preview, panel
      ensures Valid()
      ensures dialogs == old(dialogs[..i] + dialogs[i + 1..])
      ensures buffers == old(buffers).With(old(dialogs[i]).target, content)
      ensures var r := RenderStep(preview.asWritten, preview.pathname, old(preview.State()), buffers, run(buffers));
        if r.ok && old(dialogs[i]).labelled then
          var r2 := RenderStep(preview.asWritten, preview.pathname, r.frame, buffers, run(buffers));
          preview.State() == r2.frame && panel.entries == old(panel.entries) + r.appended + r2.appended
        else preview.State() == r.frame && panel.entries == old(panel.entries) + r.appended
      ensures ok <==> old(dialogs[i]).labelled && AllLatin1(buffers) && !closed
      ensures labels == if ok then old(labels).With(old(dialogs[i]).target, "(" + name + ")") else old(labels)
      ensures ok ==> preview.Url() == Encoded(preview.asWritten, preview.pathname, buffers) && preview.document == Written(buffers)
      ensures downloads == old(downloads) && closed == old(closed)
      ensures hostHooked == old(hostHooked) && keysBound == old(keysBound)
    {
      var d := dialogs[i];
      dialogs := dialogs[..i] + dialogs[i + 1..];
      var changed := Edit(d.target, content, run);
      if !changed || !d.labelled {
        return false;
      }
      labels := labels.With(d.target, "(" + name + ")");
      ok := preview.Render(buffers, run(buffers));
    }

    /**
      A change of one editor's text, typed by the user or set by `setValue`: its `change` event
      runs one render.
    */
    method Edit(s: Slot, text: string, run: Buffers -> UserScript) returns (ok: bool)
      requires Valid()
      modifies this, preview, panel
      ensures Valid()
      ensures buffers == old(buffers).With(s, text)
      ensures var r := RenderStep(preview.asWritten, preview.pathname, old(preview.State()), buffers, run(buffers));
        preview.State() == r.frame && panel.entries == old(panel.entries) + r.appended && ok == r.ok
      ensures ok <==> AllLatin1(buffers) && !closed
      ensures ok ==> preview.Url() == Encoded(preview.asWritten, preview.pathname, buffers) && preview.document == Written(buffers)
      ensures labels == old(labels) && downloads == old(downloads) && dialogs == old(dialogs) && closed == old(closed)
      ensures hostHooked == old(hostHooked) && keysBound == old(keysBound)
    {
      buffers := buffers.With(s, text);
      ok := preview.Render(buffers, run(buffers));
    }

    /** `closeEditor()`: the page body is replaced, taking the preview frame and the log panel with it. */
    method CloseEditor()
      requires Valid()
      modifies this, preview
      ensures Valid()
      ensures closed
      ensures preview.State() == old(preview.State()).(attached := false)
      ensures buffers == old(buffers) && labels == old(labels) && downloads == old(downloads) && dialogs == old(dialogs)
      ensures hostHooked == old(hostHooked) && keysBound == old(keysBound)
      ensures panel.entries == old(panel.entries)
    {
      closed := true;
      preview.Detach();
    }

    /** The host `window.onerror`: one unstyled entry, while the hook is installed and the panel is still in the page. */
    method HostOnError(message: string, source: string, lineno: nat, colno: nat)
      requires Valid()
      modifies panel
      ensures hostHooked && !closed
        ==> panel.entries == old(panel.entries) + [HostEntry(HostErrorText(message, source, lineno, colno))]
      ensures !(hostHooked && !closed) ==> panel.entries == old(panel.entries)
    {
      if hostHooked && !closed {
        panel.UpdateConsole(HostErrorText(message, source, lineno, colno));
      }
    }

    /** The `keydown` listener: decides with `Dispatch`, then carries out the command. */
    method KeyDown(ctrl: bool, shift: bool, key: string, focus: Option<Slot>, run: Buffers -> UserScript)
      returns (outcome: KeyOutcome)
      requires Valid()
      modifies this, preview, panel
      ensures Valid()
      ensures outcome == if keysBound then Dispatch(ctrl, shift, key, focus) else KeyOutcome(false, None)
      ensures labels == old(labels) && hostHooked == old(hostHooked) && keysBound == old(keysBound)
      // no command, a save or a load: the preview and the panel are as they were
      ensures !outcome.command.Some? || outcome.command.value.Save? || outcome.command.value.SaveAll?
              || outcome.command.value.Load? ==>
                preview.State() == old(preview.State()) && panel.entries == old(panel.entries)
      ensures outcome.command.None? ==>
                buffers == old(buffers) && downloads == old(downloads) && dialogs == old(dialogs) && closed == old(closed)
      ensures outcome.command == Some(SaveAll) ==>
                downloads == old(downloads) + SaveAllPlan(old(buffers))
                && buffers == old(buffers) && dialogs == old(dialogs) && closed == old(closed)
      ensures forall s :: outcome.command == Some(Save(s)) ==>
                downloads == old(downloads) + [Download(old(buffers).Get(s), FileName(s))]
                && buffers == old(buffers) && dialogs == old(dialogs) && closed == old(closed)
      ensures outcome.command == Some(ClearAll) ==>
                downloads == old(downloads) && dialogs == old(dialogs) && closed == old(closed)
                && buffers == (if !closed && IsLatin1(old(buffers).css) && IsLatin1(old(buffers).js)
                               then Triple("", "", "") else Triple("", old(buffers).css, old(buffers).js))
      ensures outcome.command == Some(ClearAll) ==>
                var r := ClearRenders(preview.asWritten, preview.pathname, old(preview.State()), old(buffers), run);
                preview.State() == r.frame && panel.entries == old(panel.entries) + r.appended
      ensures outcome.command == Some(Close) ==>
                closed && preview.State() == old(preview.State()).(attached := false)
                && buffers == old(buffers) && downloads == old(downloads) && dialogs == old(dialogs)
                && panel.entries == old(panel.entries)
      ensures forall s :: outcome.command == Some(Load(s)) ==>
                dialogs == old(dialogs) + [Dialog(s, !closed)]
                && buffers == old(buffers) && downloads == old(downloads) && closed == old(closed)
    {
      if !keysBound {
        return KeyOutcome(false, None);
      }
      outcome := Dispatch(ctrl, shift, key, focus);
      match outcome.command
      case None =>
      case Some(SaveAll) => SaveAllFiles();
      case Some(Save(s)) => SaveFile(s);
      case Some(ClearAll) => var _ := ClearAllFields(run);
      case Some(Close) => CloseEditor();
      case Some(Load(s)) => LoadFile(s);
    }
  }

  // ---------------------------------------------------------------------------------------
  // Properties

  /** Appending four pieces in turn appends their concatenation. */
  lemma AppendFour<T>(e: seq<T>, a: seq<T>, b: seq<T>, c: seq<T>, d: seq<T>)
    ensures e + a + b + c + d == e + (a + (b + (c + d)))
  {
  }

  /** The renders of `clearAllFields` are the handler's chain of change renders over `ClearStages`. */
  lemma ClearRendersIsChain(asWritten: bool, pathname: string, f: Frame, b: Buffers, run: Buffers -> UserScript)
    requires |f.history| > 0
    ensures ClearRenders(asWritten, pathname, f, b, run) == RenderChain(asWritten, pathname, f, ClearStages(b), run)
  {
    var bs := ClearStages(b);
    RenderChainFirst(asWritten, pathname, f, bs, run);
    var r1 := RenderStep(asWritten, pathname, f, bs[0], run(bs[0]));
    if r1.ok {
      var r2 := RenderStep(asWritten, pathname, r1.frame, bs[1], run(bs[1]));
      var r3 := RenderStep(asWritten, pathname, r2.frame, bs[2], run(bs[2]));
      var r4 := RenderStep(asWritten, pathname, r3.frame, bs[3], run(bs[3]));
      assert bs[1..][0] == bs[1] && bs[2..][0] == bs[2] && bs[3..][0] == bs[3];
      assert bs[1..][1..] == bs[2..] && bs[2..][1..] == bs[3..] && bs[3..][1..] == [];
      RenderChainFirst(asWritten, pathname, r3.frame, bs[3..], run);
      var c4 := RenderChain(asWritten, pathname, r3.frame, bs[3..], run);
      assert c4.frame == r4.frame && c4.appended == r4.appended + [] == r4.appended && c4.ok == r4.ok;
      RenderChainFirst(asWritten, pathname, r2.frame, bs[2..], run);
      var c3 := RenderChain(asWritten, pathname, r2.frame, bs[2..], run);
      assert c3.frame == r4.frame && c3.appended == r3.appended + r4.appended && c3.ok == r4.ok;
      RenderChainFirst(asWritten, pathname, r1.frame, bs[1..], run);
      var c2 := RenderChain(asWritten, pathname, r1.frame, bs[1..], run);
      assert c2.frame == r4.frame && c2.appended == r2.appended + (r3.appended + r4.appended) && c2.ok == r4.ok;
    }
  }

  /**
    After `clearAllFields`, reloading the page's URL brings back the three default buffers,
    both as written and with the corrected URL.
  */
  lemma ClearedPageReloadsDefaults(asWritten: bool, pathname: string)
    requires '?' !in pathname
    ensures Reload(Href(Encoded(asWritten, pathname, Triple("", "", ""))))
      == Triple(Default(Html), Default(Css), Default(Js))
  {
    var r := Reload(Href(Encoded(asWritten, pathname, Triple("", "", ""))));
    ClearedSlotReloadsDefault(asWritten, pathname, Html);
    ClearedSlotReloadsDefault(asWritten, pathname, Css);
    ClearedSlotReloadsDefault(asWritten, pathname, Js);
    assert r.Get(Html) == r.html && r.Get(Css) == r.css && r.Get(Js) == r.js;
  }

  /** One slot of `ClearedPageReloadsDefaults`. */
  lemma ClearedSlotReloadsDefault(asWritten: bool, pathname: string, s: Slot)
    requires '?' !in pathname
    ensures Reload(Href(Encoded(asWritten, pathname, Triple("", "", "")))).Get(s) == Default(s)
  {
    var b: Buffers := Triple("", "", "");
    assert AllLatin1(b);
    EmptyBufferGivesDefault(s);
    if asWritten {
      ServerReadsClientUrl(pathname, b, s);
    } else {
      ServerReadsEscapedUrl(pathname, b, s);
    }
  }

  /**
    With the corrected client, every ASCII buffer survives the reload of the URL a render wrote
    (an empty one comes back as its default).
  */
  lemma RenderedUrlReloads(pathname: string, b: Buffers)
    requires IsAscii(b.html) && IsAscii(b.css) && IsAscii(b.js) && '?' !in pathname
    ensures AllLatin1(b)
    ensures forall s: Slot ::
              Reload(Href(Encoded(false, pathname, b))).Get(s) == if b.Get(s) == "" then Default(s) else b.Get(s)
  {
    assert AllLatin1(b);
    forall s: Slot ensures Reload(Href(Encoded(false, pathname, b))).Get(s)
      == if b.Get(s) == "" then Default(s) else b.Get(s) {
      EscapedReloadShowsAsciiBuffers(pathname, b, s);
    }
  }
}
