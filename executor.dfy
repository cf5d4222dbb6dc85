/**
  `updatePreview` as a state change: it replaces the current history entry with the URL that
  carries the three buffers (kept as the entry `Encoded(…)`, whose text `Href` gives), replaces
  the preview frame's document with the composed text, and the two copies of the user script in
  that document then run, appending to the log panel. The panel itself is never cleared. The
  frame window outlives each document, so the console a render's bridge wraps is the one the
  previous render left.
*/
module Executor {
  import opened Wrappers
  import opened Chars
  import opened Slots
  import opened Query
  import opened Composer
  import opened Bridge

  /** The URL `updatePreview` writes: as written, the bare `btoa` values; corrected, each one escaped. */
  function Address(asWritten: bool, pathname: string, b: Buffers): string
    requires AllLatin1(b)
  {
    if asWritten then UrlFor(pathname, b) else EscapedUrlFor(pathname, b)
  }

  /** The console a render's bridge wraps: as written, the frame's current one; corrected, the browser's own. */
  function Install(asWritten: bool, c: Console): Console {
    if asWritten then WrapAsWritten(c) else Wrap(c)
  }

  /** The frame's console once the new document has run; a bridge block that does not compile leaves it. */
  function ConsoleAfter(asWritten: bool, c: Console, script: UserScript): Console {
    if script.SyntaxError? then c else Install(asWritten, c)
  }

  /**
    What the two copies of the user script do during one render, through the bridge it installs:
    nothing when the bridge block does not compile; otherwise one native call per console call
    of either copy, plus the `console.error` of a throw the `try` copy catches.
  */
  function RenderEffects(asWritten: bool, c: Console, script: UserScript): (r: Effects)
    ensures script.SyntaxError? ==> r == NoEffects
    ensures script.Compiles? ==>
      |r.natives| == |script.tryRun.calls| + (if script.tryRun.end.Throws? then 1 else 0) + |script.appendedRun.calls|
  {
    match script
    case SyntaxError => NoEffects
    case Compiles(tryRun, appendedRun) =>
      var w := Install(asWritten, c);
      Then(TryCopy(w, tryRun), AppendedCopy(w, appendedRun))
  }

  /** A session-history entry: a URL the page was given, or the one a render wrote from Latin-1 buffers. */
  datatype Location = Visited(url: string) | Encoded(asWritten: bool, pathname: string, from: Buffers)

  /** The URL text of a history entry (a render writes one only for buffers `btoa` accepts). */
  function Href(l: Location): string {
    match l
    case Visited(url) => url
    case Encoded(asWritten, pathname, b) => if AllLatin1(b) then Address(asWritten, pathname, b) else pathname
  }

  /** The frame's document: the initial blank one, or the one a render wrote from the buffers. */
  datatype Document = Blank | Written(from: Buffers)

  /** The text of a document. */
  function Text(d: Document): string {
    match d
    case Blank => ""
    case Written(b) => Compose(b)
  }

  /**
    What `updatePreview` acts on besides the log panel: the host's session history, the frame's
    document and console, the console calls that reached the browser's own console, and
    whether the frame element is still part of the page.
  */
  datatype Frame = Frame(history: seq<Location>, document: Document, console: Console, devtools: seq<NativeCall>,
                         attached: bool)

  /** One render: the frame afterwards, the entries it appended to the log panel, and whether it completed. */
  datatype Step = Step(frame: Frame, appended: seq<Entry>, ok: bool)

  /**
    `updatePreview()` on a frame. `btoa` throws for a character above 0xFF before anything
    changes; once the frame element is gone, the URL is still replaced and reading the frame's
    document throws. Only the last history entry is ever replaced, and a render that throws
    leaves the frame's document and console as they were and appends nothing.
  */
  function RenderStep(asWritten: bool, pathname: string, f: Frame, b: Buffers, script: UserScript): (r: Step)
    requires |f.history| > 0
    ensures r.ok <==> AllLatin1(b) && f.attached
    ensures r.frame.attached == f.attached
    ensures |r.frame.history| == |f.history| && r.frame.history[..|f.history| - 1] == f.history[..|f.history| - 1]
    ensures r.frame.history[|f.history| - 1] == if AllLatin1(b) then Encoded(asWritten, pathname, b) else f.history[|f.history| - 1]
    ensures r.ok ==> r.frame.document == Written(b)
    ensures !r.ok ==> r.frame.document == f.document && r.frame.console == f.console
    ensures !r.ok ==> r.frame.devtools == f.devtools && r.appended == []
  {
    if !AllLatin1(b) then Step(f, [], false)
    else
      var history := f.history[..|f.history| - 1] + [Encoded(asWritten, pathname, b)];
      assert history[..|f.history| - 1] == f.history[..|f.history| - 1];
      if !f.attached then Step(f.(history := history), [], false)
      else
        var e := RenderEffects(asWritten, f.console, script);
        Step(Frame(history, Written(b), ConsoleAfter(asWritten, f.console, script), f.devtools + e.natives, true),
             e.entries, true)
  }

  /** The frame's console after n bridges were installed in the same frame window. */
  function AfterRenders(n: nat, asWritten: bool): Console
    decreases n
  {
    if n == 0 then Native
    else if asWritten then WrapAsWritten(AfterRenders(n - 1, asWritten))
    else Wrap(AfterRenders(n - 1, asWritten))
  }

  /** The preview frame, the host's session history, and the host's log panel. */
  class Preview {
    const asWritten: bool          // `updatePreview` as written, or with its bridge and URL corrected
    const pathname: string
    const panel: Panel
    var history: seq<Location>
    var document: Document
    var console: Console           // the frame window's `console`
    var devtools: seq<NativeCall>  // the console calls that reached the browser's own console
    var attached: bool             // the frame element is still part of the page

    function State(): Frame
      reads this
    {
      Frame(history, document, console, devtools, attached)
    }

    /** The current URL: the last history entry. */
    function Url(): Location
      reads this
      requires |history| > 0
    {
      history[|history| - 1]
    }

    /** There is a current history entry. */
    ghost predicate Valid()
      reads this
    {
      |history| > 0
    }

    constructor(asWritten: bool, pathname: string, history: seq<Location>, panel: Panel)
      requires |history| > 0
      ensures this.asWritten == asWritten && this.pathname == pathname && this.panel == panel
      ensures State() == Frame(history, Blank, Native, [], true)
      ensures Valid()
    {
      this.asWritten := asWritten;
      this.pathname := pathname;
      this.history := history;
      this.panel := panel;
      document := Blank;
      console := Native;
      devtools := [];
      attached := true;
    }

    /** `updatePreview()` with the buffers' current content; the result says whether it completed. */
    method Render(b: Buffers, script: UserScript) returns (ok: bool)
      requires Valid()
      modifies this, panel
      ensures Valid()
      ensures var r := RenderStep(asWritten, pathname, old(State()), b, script);
        State() == r.frame && panel.entries == old(panel.entries) + r.appended && ok == r.ok
    {
      if !AllLatin1(b) {
        return false;
      }
      history := history[..|history| - 1] + [Encoded(asWritten, pathname, b)];
      if !attached {
        return false;
      }
      var e := RenderEffects(asWritten, console, script);
      document := Written(b);
      console := ConsoleAfter(asWritten, console, script);
      devtools := devtools + e.natives;
      panel.Append(e.entries);
      ok := true;
    }

    /** The frame element leaves the page (the editor is closed). */
    method Detach()
      requires Valid()
      modifies this
      ensures Valid()
      ensures State() == old(State()).(attached := false)
    {
      attached := false;
    }
  }

  /**
    Renders one after another in one event handler, the user script doing `run(b)` in a render
    of the buffers b. Each `setValue` fires its change render before it returns, so the first
    render that throws ends the handler and the later ones never start.
  */
  function RenderChain(asWritten: bool, pathname: string, f: Frame, bs: seq<Buffers>, run: Buffers -> UserScript): (r: Step)
    requires |f.history| > 0
    ensures |r.frame.history| == |f.history| && r.frame.attached == f.attached
    ensures r.ok <==> |bs| == 0 || (f.attached && forall i :: 0 <= i < |bs| ==> AllLatin1(bs[i]))
    decreases |bs|
  {
    if |bs| == 0 then Step(f, [], true)
    else
      var s := RenderStep(asWritten, pathname, f, bs[0], run(bs[0]));
      if !s.ok then s
      else
        var t := RenderChain(asWritten, pathname, s.frame, bs[1..], run);
        assert forall i :: 1 <= i < |bs| ==> bs[1..][i - 1] == bs[i];
        Step(t.frame, s.appended + t.appended, t.ok)
  }

  // ---------------------------------------------------------------------------------------
  // Properties

  /** Each render that installs a bridge moves the console on by one; one that does not compile leaves it. */
  lemma ConsoleAfterRenders(asWritten: bool, n: nat, script: UserScript)
    ensures ConsoleAfter(asWritten, AfterRenders(n, asWritten), script)
      == AfterRenders(if script.Compiles? then n + 1 else n, asWritten)
  {
  }

  /** A completed render leaves the frame's console as the new document's script made it. */
  lemma RenderStepConsole(asWritten: bool, pathname: string, f: Frame, b: Buffers, script: UserScript)
    requires |f.history| > 0 && AllLatin1(b) && f.attached
    ensures RenderStep(asWritten, pathname, f, b, script).frame.console == ConsoleAfter(asWritten, f.console, script)
    ensures RenderStep(asWritten, pathname, f, b, script).frame.attached
  {
  }

  /** A chain whose first render completes goes on from that render's frame; one whose first render throws ends there. */
  lemma RenderChainFirst(asWritten: bool, pathname: string, f: Frame, bs: seq<Buffers>, run: Buffers -> UserScript)
    requires |f.history| > 0 && |bs| > 0
    ensures var s := RenderStep(asWritten, pathname, f, bs[0], run(bs[0]));
      var r := RenderChain(asWritten, pathname, f, bs, run);
      if s.ok then
        var t := RenderChain(asWritten, pathname, s.frame, bs[1..], run);
        r.frame == t.frame && r.appended == s.appended + t.appended && r.ok == t.ok
      else r == s
  {
  }

  /**
    In one frame window, renders that complete with a script that compiles each install one
    bridge: after n of them from the browser's own console, the frame's console is
    `AfterRenders(n, asWritten)`.
  */
  lemma {:induction false} RendersInstallBridges(asWritten: bool, pathname: string, f: Frame, n: nat,
                                                 bs: seq<Buffers>, run: Buffers -> UserScript)
    requires |f.history| > 0 && f.attached && f.console == AfterRenders(n, asWritten)
    requires forall i :: 0 <= i < |bs| ==> AllLatin1(bs[i]) && run(bs[i]).Compiles?
    ensures RenderChain(asWritten, pathname, f, bs, run).frame.console == AfterRenders(n + |bs|, asWritten)
    decreases |bs|
  {
    if |bs| > 0 {
      var g := RenderStep(asWritten, pathname, f, bs[0], run(bs[0])).frame;
      RenderStepConsole(asWritten, pathname, f, bs[0], run(bs[0]));
      ConsoleAfterRenders(asWritten, n, run(bs[0]));
      var rest := bs[1..];
      assert forall i :: 0 <= i < |rest| ==> rest[i] == bs[i + 1];
      RendersInstallBridges(asWritten, pathname, g, n + 1, rest, run);
      assert n + 1 + |rest| == n + |bs|;
      assert RenderChain(asWritten, pathname, f, bs, run).frame == RenderChain(asWritten, pathname, g, rest, run).frame;
    }
  }

  /** A render with the corrected bridge: each console call of the user script appends exactly its own entry. */
  lemma RenderEntries(c: Console, tryCalls: seq<Call>, appendedCalls: seq<Call>)
    ensures RenderEffects(false, c, Compiles(ScriptRun(tryCalls, Completes), ScriptRun(appendedCalls, Completes))).entries
      == InvokeAll(Wrap(c), tryCalls).entries + InvokeAll(Wrap(c), appendedCalls).entries
    ensures |RenderEffects(false, c, Compiles(ScriptRun(tryCalls, Completes), ScriptRun(appendedCalls, Completes))).entries|
      == |tryCalls| + |appendedCalls|
  {
    InvokeAllEntries(c, tryCalls);
    InvokeAllEntries(c, appendedCalls);
  }

  /** A script that does not compile still replaces the document, but installs nothing and appends nothing. */
  lemma SyntaxErrorShowsNothing(asWritten: bool, pathname: string, f: Frame, b: Buffers)
    requires |f.history| > 0 && AllLatin1(b) && f.attached
    ensures RenderStep(asWritten, pathname, f, b, SyntaxError).ok
    ensures RenderStep(asWritten, pathname, f, b, SyntaxError).appended == []
    ensures RenderStep(asWritten, pathname, f, b, SyntaxError).frame.console == f.console
    ensures RenderStep(asWritten, pathname, f, b, SyntaxError).frame.document == Written(b)
  {
  }

  /** As written, after n renders in the same frame window a console call appends n entries. */
  lemma {:induction false} AsWrittenStacks(n: nat, level: Level, arg: Option<string>)
    ensures Depth(AfterRenders(n, true)) == n
    ensures |Invoke(AfterRenders(n, true), level, arg).entries| == n
    decreases n
  {
    if n > 0 {
      AsWrittenStacks(n - 1, level, arg);
    }
    InvokeStack(AfterRenders(n, true), level, arg);
  }

  /** With the intended bridge, after any number of renders a console call appends one entry. */
  lemma IntendedDoesNotStack(n: nat, level: Level, arg: Option<string>)
    requires n > 0
    ensures |Invoke(AfterRenders(n, false), level, arg).entries| == 1
  {
    InvokeStack(AfterRenders(n, false), level, arg);
  }

  /** Two renders, then `console.log("a")`: two entries as written, one as intended. */
  lemma SecondRenderDuplicates()
    ensures Invoke(AfterRenders(2, true), Log, Some("a")).entries == [Entry("a", false), Entry("a", false)]
    ensures Invoke(AfterRenders(2, false), Log, Some("a")).entries == [Entry("a", false)]
  {
  }
}
