/**
  The console bridge between the preview frame and the host page. Each render installs an
  object with `log`, `info`, `warn` and `error` that forwards its one argument to the console it
  wraps and then appends one entry to the host's log panel (red for `error`); a `window.onerror`
  hook in the frame that appends a red entry; and, on the host, a `window.onerror` that appends
  an unstyled entry through `updateConsole`. The panel is an append-only list of entries.
*/
module Bridge {
  import opened Wrappers
  import opened Chars

  datatype Level = Log | Info | Warn | Error

  /** One line of the log panel: its text and whether it is shown in red. */
  datatype Entry = Entry(text: string, red: bool)

  /** A call that reached the browser's own console, with the one argument it was given. */
  datatype NativeCall = NativeCall(level: Level, arg: Option<string>)

  /** The console a script sees: the browser's own, or a bridge object around another console. */
  datatype Console = Native | Wrapped(inner: Console)

  /** A call from the user script: a level and its arguments, each already converted to text. */
  datatype Call = Call(level: Level, args: seq<string>)

  /** What calls into a console do: the native calls made and the panel entries appended, in order. */
  datatype Effects = Effects(natives: seq<NativeCall>, entries: seq<Entry>)

  const NoEffects := Effects([], [])

  function Then(a: Effects, b: Effects): Effects {
    Effects(a.natives + b.natives, a.entries + b.entries)
  }

  /** The wrapper declares one parameter, `text`: only the first argument is passed on. */
  function FirstArg(args: seq<string>): (a: Option<string>)
    ensures a.Some? <==> |args| > 0
    ensures a.Some? ==> a.value == args[0]
  {
    if |args| == 0 then None else Some(args[0])
  }

  /** `'<div>' + text`: a missing argument shows as "undefined". */
  function Shown(arg: Option<string>): string {
    match arg
    case None => "undefined"
    case Some(s) => s
  }

  /** The entry a wrapper method appends. */
  function WrapperEntry(level: Level, arg: Option<string>): (e: Entry)
    ensures e.red <==> level == Error
    ensures e.text == Shown(arg)
  {
    Entry(Shown(arg), level == Error)
  }

  /**
    One call into a console: the wrapped console's effects first, then this wrapper's entry.
    The call reaches the browser's console once, and each bridge object on the way appends one
    entry (`InvokeStack`).
  */
  function Invoke(c: Console, level: Level, arg: Option<string>): (r: Effects)
    ensures r.natives == [NativeCall(level, arg)]
    ensures |r.entries| == Depth(c)
    decreases c
  {
    match c
    case Native => Effects([NativeCall(level, arg)], [])
    case Wrapped(inner) => Then(Invoke(inner, level, arg), Effects([], [WrapperEntry(level, arg)]))
  }

  /** How many bridge objects a console call passes through. */
  function Depth(c: Console): nat
    decreases c
  {
    match c
    case Native => 0
    case Wrapped(inner) => 1 + Depth(inner)
  }

  /** The console a render installs, as intended: one bridge object around the browser's console. */
  function Wrap(c: Console): (w: Console)
    ensures Depth(w) == 1
  {
    Wrapped(Native)
  }

  /**
    The console a render installs as written: `(function(oldCons){…}(window.console))` wraps
    whatever `window.console` is, which after an earlier render in the same frame window is
    that render's bridge object.
  */
  function WrapAsWritten(c: Console): (w: Console)
    ensures Depth(w) == Depth(c) + 1
  {
    Wrapped(c)
  }

  /** The calls of a script, in order: one native call each, and one entry per call and bridge object. */
  function InvokeAll(c: Console, calls: seq<Call>): (r: Effects)
    ensures |r.natives| == |calls|
    ensures |r.entries| == |calls| * Depth(c)
    ensures forall i :: 0 <= i < |calls| ==> r.natives[i] == NativeCall(calls[i].level, FirstArg(calls[i].args))
    decreases |calls|
  {
    if |calls| == 0 then NoEffects
    else Then(Invoke(c, calls[0].level, FirstArg(calls[0].args)), InvokeAll(c, calls[1..]))
  }

  /** The entry the frame's `window.onerror` hook appends. */
  function SandboxErrorEntry(message: string, lineno: nat): (e: Entry)
    ensures e.red
    ensures exists d :: e.text == "Error: " + message + " at line " + d && IsDecimal(d) && DigitsValue(d) == lineno
  {
    Entry("Error: " + message + " at line " + NatToString(lineno), true)
  }

  /** The message the host's `window.onerror` hands to `updateConsole`. */
  function HostErrorText(message: string, source: string, lineno: nat, colno: nat): (t: string)
    ensures exists l, c ::
      t == "Error: " + message + " at " + source + ":" + l + ":" + c
      && IsDecimal(l) && DigitsValue(l) == lineno && IsDecimal(c) && DigitsValue(c) == colno
  {
    "Error: " + message + " at " + source + ":" + NatToString(lineno) + ":" + NatToString(colno)
  }

  /** `updateConsole(message)`: an unstyled entry. */
  function HostEntry(message: string): Entry {
    Entry(message, false)
  }

  /** How a run of the user script ends: normally, or by a synchronous throw. */
  datatype Completion =
    | Completes
    | Throws(shown: string, message: string, lineno: nat)  // `'' + e`; the error event's message and line

  /** What one run of the user script does: its console calls, then how it ends. */
  datatype ScriptRun = ScriptRun(calls: seq<Call>, end: Completion)

  /**
    The user script in one render. It is spliced into the bridge's own `<script>` block, so a
    syntax error in it stops that whole block from compiling: no bridge, no hook and neither
    copy runs. Otherwise each copy runs as described.
  */
  datatype UserScript = Compiles(tryRun: ScriptRun, appendedRun: ScriptRun) | SyntaxError

  /**
    The copy inside `try`: a throw is caught and passed to `console.error`, not rethrown, so it
    makes one more call than the script's own.
  */
  function TryCopy(c: Console, run: ScriptRun): (r: Effects)
    ensures |r.natives| == |run.calls| + (if run.end.Throws? then 1 else 0)
    ensures |r.entries| == (|run.calls| + (if run.end.Throws? then 1 else 0)) * Depth(c)
    ensures run.end.Throws? ==> r.natives[|r.natives| - 1] == NativeCall(Error, Some(run.end.shown))
  {
    var calls := InvokeAll(c, run.calls);
    match run.end
    case Completes => calls
    case Throws(shown, _, _) => Then(calls, Invoke(c, Error, Some(shown)))
  }

  /**
    The appended `<script>` copy: a throw is uncaught and reaches the frame's `window.onerror`
    hook, which appends its entry without a console call.
  */
  function AppendedCopy(c: Console, run: ScriptRun): (r: Effects)
    ensures |r.natives| == |run.calls|
    ensures |r.entries| == |run.calls| * Depth(c) + (if run.end.Throws? then 1 else 0)
    ensures run.end.Throws? ==> r.entries[|r.entries| - 1] == SandboxErrorEntry(run.end.message, run.end.lineno)
  {
    var calls := InvokeAll(c, run.calls);
    match run.end
    case Completes => calls
    case Throws(_, message, lineno) => Then(calls, Effects([], [SandboxErrorEntry(message, lineno)]))
  }

  /** The host's log panel: entries are only ever appended. */
  class Panel {
    var entries: seq<Entry>

    constructor()
      ensures entries == []
    {
      entries := [];
    }

    method Append(es: seq<Entry>)
      modifies this
      ensures entries == old(entries) + es
    {
      entries := entries + es;
    }

    /** `updateConsole(message)`. */
    method UpdateConsole(message: string)
      modifies this
      ensures entries == old(entries) + [HostEntry(message)]
      ensures !entries[|entries| - 1].red
    {
      entries := entries + [HostEntry(message)];
    }
  }

  // ---------------------------------------------------------------------------------------
  // Properties

  /** With the intended bridge, a call forwards once to the browser's console and appends one entry, red only for `error`. */
  lemma WrappedCallOnce(c: Console, level: Level, arg: Option<string>)
    ensures Invoke(Wrap(c), level, arg).natives == [NativeCall(level, arg)]
    ensures Invoke(Wrap(c), level, arg).entries == [WrapperEntry(level, arg)]
    ensures WrapperEntry(level, arg).red <==> level == Error
  {
  }

  /** Through any stack of bridge objects a call reaches the browser's console once and appends one entry per object. */
  lemma {:induction false} InvokeStack(c: Console, level: Level, arg: Option<string>)
    ensures Invoke(c, level, arg).natives == [NativeCall(level, arg)]
    ensures |Invoke(c, level, arg).entries| == Depth(c)
    ensures forall i :: 0 <= i < |Invoke(c, level, arg).entries| ==>
      Invoke(c, level, arg).entries[i] == WrapperEntry(level, arg)
    decreases c
  {
    match c
    case Native =>
    case Wrapped(inner) =>
      InvokeStack(inner, level, arg);
      var e := Invoke(inner, level, arg).entries;
      assert Invoke(c, level, arg).entries == e + [WrapperEntry(level, arg)];
      assert Invoke(c, level, arg).natives == Invoke(inner, level, arg).natives + [];
  }

  /** With the intended bridge, each call of a script appends exactly its own entry, in order. */
  lemma {:induction false} InvokeAllEntries(c: Console, calls: seq<Call>)
    ensures |InvokeAll(Wrap(c), calls).entries| == |calls|
    ensures forall i :: 0 <= i < |calls| ==>
      InvokeAll(Wrap(c), calls).entries[i] == WrapperEntry(calls[i].level, FirstArg(calls[i].args))
    ensures |InvokeAll(Wrap(c), calls).natives| == |calls|
    decreases |calls|
  {
    if |calls| > 0 {
      InvokeAllEntries(c, calls[1..]);
      var head := WrapperEntry(calls[0].level, FirstArg(calls[0].args));
      var rest := InvokeAll(Wrap(c), calls[1..]).entries;
      assert InvokeAll(Wrap(c), calls).entries == [head] + rest;
      forall i | 0 <= i < |calls|
        ensures InvokeAll(Wrap(c), calls).entries[i] == WrapperEntry(calls[i].level, FirstArg(calls[i].args))
      {
        if i > 0 { assert calls[1..][i - 1] == calls[i]; }
      }
    }
  }

  /** A synchronous throw in the `try` copy adds exactly one red entry, the thrown value's text, after the script's own. */
  lemma CaughtThrowOneRedEntry(c: Console, calls: seq<Call>, shown: string, message: string, lineno: nat)
    ensures TryCopy(Wrap(c), ScriptRun(calls, Throws(shown, message, lineno))).entries
      == InvokeAll(Wrap(c), calls).entries + [Entry(shown, true)]
  {
  }

  /** The same throw in the appended copy is reported by the frame's hook instead. */
  lemma UncaughtThrowHookEntry(c: Console, calls: seq<Call>, shown: string, message: string, lineno: nat)
    ensures AppendedCopy(Wrap(c), ScriptRun(calls, Throws(shown, message, lineno))).entries
      == InvokeAll(Wrap(c), calls).entries + [SandboxErrorEntry(message, lineno)]
  {
  }

  /** The two error hooks append different entries: the frame's is red and names the line; the host's is plain and names source, line and column. */
  lemma HooksDiffer(message: string, source: string, lineno: nat, colno: nat)
    ensures SandboxErrorEntry(message, lineno).red
    ensures !HostEntry(HostErrorText(message, source, lineno, colno)).red
    ensures SandboxErrorEntry(message, lineno).text == "Error: " + message + " at line " + NatToString(lineno)
    ensures HostEntry(HostErrorText(message, source, lineno, colno)).text
      == "Error: " + message + " at " + source + ":" + NatToString(lineno) + ":" + NatToString(colno)
    ensures SandboxErrorEntry(message, lineno) != HostEntry(HostErrorText(message, source, lineno, colno))
  {
  }
}
