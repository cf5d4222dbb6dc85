# SimpleHtmlWebEditor live preview, modelled in Dafny

SimpleHtmlWebEditor is an in-browser playground. The user edits three buffers (markup,
stylesheet, script) in `static/script.js`. Each change runs `updatePreview`, which does four
things:

- it writes the buffers into the address bar as `pathname?html=…&css=…&js=…`, each value
  through `btoa`;
- it composes one document from a fixed template;
- it writes that document into the preview frame;
- it lets the bridge code inside the document copy the frame's console output and errors into
  the host's log panel.

On reload the Flask view `index()` in `app.py` reads the query string. Werkzeug splits it on '&'
and form-decodes each name and value, so a '+' becomes a space. The view then applies base 64,
then UTF-8, and falls back to a fixed per-slot default.

The model has one module per piece:

| module | file | what it holds |
|---|---|---|
| `Wrappers` | wrappers.dfy | `Option`, `Result` |
| `Chars` | chars.dfy | bytes, ASCII and Latin-1 text, decimal rendering of numbers and its value |
| `Slots` | slots.dfy | the three buffers (`html`, `css`, `js`), their parameter and file names |
| `Base64` | base64.dfy | `btoa`, and Python's non-validating `b64decode`, with a strict RFC 4648 reference decoder |
| `Utf8` | utf8.dfy | a strict UTF-8 decoder as `bytes.decode('utf-8')` applies it, and the matching encoder |
| `Query` | query.dfy | the URL either client writes, and the server's splitting and form decoding of the query |
| `Server` | server.dfy | `index()`: per-slot decoding with fallback, as written and as intended |
| `RoundTrip` | roundtrip.dfy | what a reload gives back for the buffers the client wrote |
| `Composer` | composer.dfy | the document template of `updatePreview`, as a sequence of fixed text and buffer holes |
| `Bridge` | bridge.dfy | the console wrappers, the two `onerror` hooks, and the log panel (class `Panel`) |
| `Executor` | executor.dfy | `updatePreview` as a state change of the preview frame and history (class `Preview`) |
| `Commands` | commands.dfy | `trim`, the choice made by `saveAllFiles`, and the `keydown` decision |
| `Editor` | editor.dfy | the host page and its event handlers (class `Page`) |

The decoders are functions and are proved against their inverses: `Base64.DecodeEncode`,
`Utf8.DecodeEncode`, `Utf8.EncodeDecode` and `Query.FormDecodeEncode`. The non-validating
base-64 decoder is also proved to agree with a strict RFC 4648 reference decoder, once the
characters outside the alphabet are dropped.

The stateful parts are classes, and each method states the whole new state of what it may
modify:

- `Bridge.Panel` holds the log panel's entries.
- `Executor.Preview` holds the history, the frame's document and console, the console calls
  that reached the browser's console, and whether the frame is still in the page. `Preview.Render` is specified
  by the function `Executor.RenderStep`.
- `Editor.Page` holds the buffers, labels, downloads, open file dialogs and the preview. Its
  handlers are specified by `RenderStep`, `Editor.ClearRenders` and `Commands.Dispatch`.

A history entry is a `Location`. It is either a URL the page was given, or `Encoded(…)`, the
entry a render writes; `Executor.Href` gives its text. The frame's document is a `Document`:
blank, or `Written(b)`, whose text is `Composer.Compose(b)`.

A `Preview` has a fixed flag `asWritten`:

- When it is set, `updatePreview` is modelled as written. The bridge wraps the frame's current
  `window.console`, and the `btoa` values go into the URL unescaped.
- When it is clear, the corrected code is modelled. The bridge wraps the browser's own console,
  and each value goes through `encodeURIComponent`.

Running the user script is not modelled. Each handler takes a parameter
`run: Buffers -> UserScript`, the behaviour of the user script in a render of the buffers b:

- `SyntaxError` means the script does not compile;
- otherwise `Compiles(tryRun, appendedRun)` gives, for each copy of the script, the console calls
  it makes and whether it ends by throwing.

CodeMirror's `setValue` fires the editor's `change` event, and with it one render, before it
returns. So `clearAllFields` renders four times and a file load twice. The first render that
throws ends the handler.

The clock, the network, file dialogs, downloads and the browser's own console are not modelled
as I/O. Each appears only as a value: a parameter, a field of the page, or a recorded call.

## Model

| member | source | states |
|---|---|---|
| Chars.Latin1Bytes | static/script.js:28-30 | `btoa` reads text as one byte per character, the byte being the character's code point; the text must be Latin-1 |
| Chars.Latin1BytesAsChars | static/script.js:28-30 | reading those bytes back as characters gives the text again |
| Chars.NatToString | static/script.js:71 | a line number turns into a decimal numeral (`IsDecimal`: at least one digit, digits only, no leading zero) whose value (`DigitsValue`) is the number |
| Base64.Encode | static/script.js:28-30 | the RFC 4648 encoding is empty exactly for no bytes; its length and alphabet are the rows `EncodeLength` and `EncodeAlphabet`, its inverse is `DecodeEncode` |
| Base64.Btoa | static/script.js:28-30 | `btoa` is defined only up to 0xFF; it is empty exactly for empty text, and its output uses only the base-64 alphabet and '=', so it is ASCII |
| Base64.EncodeLength | static/script.js:28-30 | n bytes encode to 4·⌈n/3⌉ characters |
| Base64.EncodeAlphabet | static/script.js:28-30 | the encoding uses only the alphabet and '=' |
| Base64.Decode | app.py:14 | `b64decode` on a `str` fails with the ASCII-encoding error exactly when the parameter has a character above 0x7F; every other failure is a `binascii.Error` |
| Base64.Filter | app.py:14 | dropping non-alphabet characters leaves only the alphabet and '=' and never lengthens the text |
| Base64.DecodeEncode | app.py:14 | decoding the encoding of any bytes gives the bytes back |
| Base64.DecodeBtoa | app.py:14 | decoding what `btoa` wrote gives back the Latin-1 bytes of the buffer |
| Base64.DataAfterPaddingIgnored | app.py:14 | anything after a padded final quantum is ignored, as the non-validating decoder does |
| Base64.DecodeIgnoresNonAlphabet | app.py:14 | characters outside the alphabet are discarded before decoding |
| Base64.DecodeAgreesWithStrict | app.py:14 | wherever the strict RFC 4648 decoder accepts the filtered input, the non-validating decoder gives the same bytes |
| Base64.StrictDecodeEncode | app.py:14 | the strict reference decoder inverts the encoder |
| Utf8.Decode | app.py:14 | a successful decoding has no more characters than bytes |
| Utf8.DecodeEncode | app.py:14 | decoding the UTF-8 encoding of any text gives the text |
| Utf8.EncodeDecode | app.py:14 | bytes the decoder accepts are exactly the encoding of what it returns |
| Utf8.DecodeAscii | app.py:14 | ASCII bytes decode to the characters of the same codes |
| Utf8.DecodeShorter | app.py:14 | accepted bytes with any byte above 0x7F decode to strictly fewer characters |
| Utf8.LoneE9Rejected | app.py:14 | the Latin-1 byte of 'é' alone is not UTF-8 |
| Utf8.C3A9IsEAcute | app.py:14 | bytes C3 A9 decode to 'é' |
| Query.Get | app.py:8-10 | `request.args.get(name, '')` gives either '' or the value of some pair under that name |
| Query.GetFirst | app.py:8-10 | `get` returns the value of the first pair with that name, whatever follows |
| Query.GetAbsent | app.py:8-10 | a name no pair carries gives '' |
| Query.SplitFirst | app.py:8-10 | no split exactly when the separator is absent; otherwise the text is prefix, separator and rest, and the prefix has no separator |
| Query.SplitOnConcat | app.py:8-10 | a separator-free piece followed by the separator splits off as one piece |
| Query.JoinSplitOn | app.py:8-10 | splitting on a separator and joining with it gives the query back |
| Query.FormDecode | app.py:8-10 | form decoding never lengthens the text |
| Query.FormDecodeWithoutEscapes | app.py:8-10 | without '%', form decoding keeps the length, turns each '+' into a space and keeps every other character |
| Query.FormDecodeAscii | app.py:8-10 | form decoding of ASCII text is ASCII |
| Query.ParsePairOf | app.py:8-10 | a piece `name=value` whose name has no '=' parses to the form-decoded name and value |
| Query.ParseQuery | app.py:8-10 | the query gives at most one pair per '&'-separated piece; a query without '&' gives one pair, or none when it is empty |
| Query.ParseThreeParams | app.py:8-10 | three `name=value` parameters joined by '&', with non-empty names free of '=' and '&' and values free of '&', parse to exactly those three form-decoded pairs in order |
| Query.NoSeparatorInBase64 | static/script.js:32 | no value `btoa` writes contains '&', so the values cannot split the query |
| Query.QueryOf | static/script.js:32 | the query splits on '&' into exactly the three parameters `html=`, `css=` and `js=` holding the buffers' `btoa` values, in that order |
| Query.UrlFor | static/script.js:32-33 | for a path without '?', the query part of the URL handed to `replaceState` is `QueryOf` |
| Query.FormDecodeBase64 | static/script.js:32 | the server reads base-64 text back unchanged exactly when it holds no '+' |
| Query.EncodeUriComponent | static/script.js:32 | the corrected client's escaping leaves only unreserved characters and '%'; in particular no '&' and no '+' |
| Query.FormDecodeEncode | static/script.js:32 | form decoding undoes `encodeURIComponent` on ASCII text |
| Query.ParseQueryOf | static/script.js:32 | from the client's query as written, the server reads the three pairs `html`, `css`, `js` in order, each value the form decoding of that buffer's `btoa` |
| Query.ParseEscapedQueryOf | static/script.js:32 | from the corrected client's query, the server reads exactly the three `btoa` values in order |
| Query.QueryPartOfUrl | static/script.js:32-33 | for a path without '?', the query the server sees is the one the client built, for both clients |
| Query.GetThree | app.py:8-10 | in the three pairs the client writes, `get` finds each slot's value under its own name |
| Query.GetUrlParam | static/script.js:32-33 | each parameter the server gets from the URL as written is the form decoding of that buffer's `btoa` |
| Query.GetEscapedUrlParam | static/script.js:32-33 | each parameter the server gets from the corrected URL is exactly that buffer's `btoa` |
| Server.Default | app.py:15-19 | each slot's fallback text is non-empty |
| Server.DecodeText | app.py:14 | decoding succeeds exactly when `b64decode` succeeds and its bytes are UTF-8, and then the bytes are the UTF-8 encoding of the text returned |
| Server.DecodeSlot | app.py:12-24 | a slot is either its default or the base-64-then-UTF-8 decoding of a non-empty parameter |
| Server.DecodeSlotAsWritten | app.py:12-24 | as written, a slot raises exactly when the parameter has a non-ASCII character, and the error is the ASCII-encoding one; otherwise it agrees with `DecodeSlot` |
| Server.Index | app.py:7-58 | each slot is decoded from its own parameter alone |
| Server.IndexAsWritten | app.py:12-58 | when the view returns, it returns what `Index` gives |
| Server.EmptyGivesDefault | app.py:13-19 | an empty parameter gives the slot's default, which is not empty content |
| Server.AbsentGivesDefault | app.py:8-19 | an absent parameter gives the slot's default |
| Server.MalformedGivesDefault | app.py:20-24 | malformed base 64, or bytes that are not UTF-8, give the same default as an absent parameter |
| Server.WellFormedDecodes | app.py:13-14 | a well-formed parameter gives exactly the UTF-8 decoding of its base-64 decoding |
| Server.SlotsIndependent | app.py:12-58 | two requests that agree on one slot's parameter agree on that slot, whatever the others carry |
| Server.AsWrittenFailsIff | app.py:12-58 | as written, the view raises exactly when one of the three parameters has a non-ASCII character |
| Server.AsWrittenAgreesOnAscii | app.py:12-58 | with ASCII parameters, the view as written returns `Index` |
| Server.NonAsciiParameterEscapes | app.py:20 | `?html=é` escapes the `except` clause as written, while the intended view shows the default |
| RoundTrip.DecodeTextBtoa | static/script.js:28 | the server's decoding of a `btoa` value is the UTF-8 decoding of the buffer's Latin-1 bytes |
| RoundTrip.AsciiRoundTrip | app.py:14 | decoding the raw `btoa` parameter of a non-empty ASCII buffer gives the buffer back |
| RoundTrip.EmptyBufferGivesDefault | app.py:13-19 | an empty buffer is written as an empty parameter and comes back as the slot's default |
| RoundTrip.NonAsciiChanges | static/script.js:28 | decoding the raw `btoa` parameter of a Latin-1 buffer with a character above 0x7F never gives the buffer back, unless it is the default text itself |
| RoundTrip.RoundTripIffAscii | app.py:14 | for Latin-1 buffers other than the default, decoding the raw `btoa` parameter gives the buffer back if and only if it is non-empty ASCII |
| RoundTrip.EAcuteGivesDefault | app.py:20-24 | the raw `btoa` parameter of a buffer holding 'é' decodes to the default |
| RoundTrip.MojibakeGivesEAcute | app.py:14 | the raw `btoa` parameter of the two characters 'Ã©' decodes to 'é' |
| RoundTrip.ServerReadsClientUrl | static/script.js:32-33 | a reload of the URL as written decodes each slot from the form decoding of that buffer's `btoa` |
| RoundTrip.ServerReadsEscapedUrl | static/script.js:32-33 | a reload of the corrected URL decodes each slot from that buffer's `btoa` itself |
| RoundTrip.ReloadShowsAsciiBuffers | static/script.js:28-33 | as written, a reload shows an ASCII buffer unchanged when its `btoa` holds no '+', and the default for an empty one |
| RoundTrip.EscapedReloadShowsAsciiBuffers | static/script.js:28-33 | with the corrected client, a reload shows every non-empty ASCII buffer unchanged, and the default for an empty one |
| RoundTrip.BtoaOfParagraph | static/script.js:28 | `btoa("<p>")` is `PHA+` |
| RoundTrip.FormDecodeOfParagraph | app.py:8 | the server reads the parameter `PHA+` as `PHA ` |
| RoundTrip.DecodeOfParagraphSpace | app.py:14 | `b64decode("PHA ")` fails with incorrect padding |
| RoundTrip.PlusBreaksReload | static/script.js:32 | as written, reloading the URL for the markup `<p>` shows the default markup; with the corrected client it shows `<p>` |
| RoundTrip.ClientUrlNeverEscapes | app.py:12-58 | the view as written never raises on a URL either client wrote, because those parameters are ASCII |
| Composer.TemplateOf | static/script.js:38-86 | the template is 15 pieces |
| Composer.Fill | static/script.js:38-86 | filling is incremental: the filling of every prefix of the template is a prefix of the text |
| Composer.Compose | static/script.js:38-86 | the document is the style block around the css, the html verbatim, then one script block. That block holds the console wrapper, the assignment to `window.console` and the `onerror` hook, then the js in `try`, then the js as the text of an appended script |
| Composer.FillTemplateOf | static/script.js:38-86 | filling the template gives its fixed texts and the buffers in template order |
| Composer.TemplateOfHoles | static/script.js:38-86 | the script buffer fills exactly pieces 9 and 12, the stylesheet piece 1, the markup piece 3; pieces 5 to 7 are the bridge code |
| Composer.BridgeBeforeUserScript | static/script.js:43-83 | the wrapper, the `window.console` assignment and the `onerror` hook all come before the first copy of the user script |
| Composer.TemplateHoles | static/script.js:74-83 | the user script appears exactly twice, and markup and stylesheet once each |
| Composer.TemplateOfLength | static/script.js:38-86 | the document's length is the template's own plus css, html and twice the js |
| Composer.ComposeLength | static/script.js:38-86 | the same for the concrete template |
| Bridge.FirstArg | static/script.js:45-64 | a wrapper passes on only its first argument, and `undefined` when there is none |
| Bridge.WrapperEntry | static/script.js:45-64 | a wrapper's panel entry shows the argument and is red exactly for `error` |
| Bridge.Invoke | static/script.js:45-64 | a call reaches the browser's console exactly once, with its level and argument, and appends one entry per bridge object it passes |
| Bridge.Wrap | static/script.js:43-67 | the intended bridge is one wrapper over the native console |
| Bridge.WrapAsWritten | static/script.js:43-66 | as written, the bridge wraps whatever `window.console` is, which adds one layer |
| Bridge.InvokeAll | static/script.js:45-64 | a script's calls reach the browser's console once each, in order, and append one entry per call and bridge object |
| Bridge.SandboxErrorEntry | static/script.js:69-72 | the frame's hook appends a red `Error: m at line d`, where d is a decimal numeral (digits only, at least one, no leading zero) spelling the line number |
| Bridge.HostErrorText | static/script.js:182-184 | the host's hook writes `Error: m at s:l:c`, where l and c are decimal numerals (digits only, at least one, no leading zero) spelling the line and column |
| Bridge.TryCopy | static/script.js:74-78 | the `try` copy makes the script's calls, plus one `console.error` of the thrown value when it throws, each through the bridge |
| Bridge.AppendedCopy | static/script.js:80-83 | the appended copy makes the script's calls; a throw makes no console call and ends with the frame hook's entry |
| Bridge.Panel.Append | static/script.js:45-64 | the panel only grows at its end |
| Bridge.Panel.UpdateConsole | static/script.js:90-93 | `updateConsole` appends one entry, which is not red |
| Bridge.WrappedCallOnce | static/script.js:45-64 | a call through the intended bridge forwards once to the native console and appends exactly one entry, red only for `error` |
| Bridge.InvokeStack | static/script.js:43-66 | a call through stacked wrappers appends, at every layer, the same wrapper entry |
| Bridge.InvokeAllEntries | static/script.js:45-64 | a sequence of calls through the intended bridge appends one entry per call, in order |
| Bridge.CaughtThrowOneRedEntry | static/script.js:74-78 | a throw in the `try` copy is caught and adds exactly one red entry through `console.error`, after the entries of the calls before it |
| Bridge.UncaughtThrowHookEntry | static/script.js:69-83 | a throw in the appended copy reaches the frame's `onerror` hook and adds its entry |
| Bridge.HooksDiffer | static/script.js:69-72 | the frame's hook appends a red `Error: m at line l`; the host's appends an unstyled `Error: m at s:l:c`; these are different entries |
| Executor.RenderEffects | static/script.js:43-83 | a script that does not compile does nothing; one that compiles makes one native call per console call of either copy, plus the `console.error` of a throw the `try` copy catches |
| Executor.RenderStep | static/script.js:23-88 | the render completes exactly for Latin-1 buffers and an attached frame. With Latin-1 buffers only the last history entry is replaced, by the entry for the buffers. A completed render writes the buffers' document. A render that throws leaves the document, console and devtools as they were and appends nothing |
| Executor.Preview.constructor | static/script.js:35-36 | a fresh frame: the page's history, a blank document, the browser's own console, attached |
| Executor.Preview.Render | static/script.js:23-88 | the frame, the history and the panel become exactly what `RenderStep` gives for the buffers and the script, and the result says whether the render completed |
| Executor.Preview.Detach | static/script.js:141-143 | closing the editor removes the frame and leaves everything else |
| Executor.RenderChain | static/script.js:134-139 | the renders of one handler complete exactly when every one has Latin-1 buffers and the frame is attached; history length and attachment are kept |
| Executor.RenderChainFirst | static/script.js:134-139 | a chain whose first render completes goes on from that render's frame; one whose first render throws ends there |
| Executor.ConsoleAfterRenders | static/script.js:43-67 | a render whose script compiles installs one more bridge; one that does not leaves the console |
| Executor.RenderStepConsole | static/script.js:43-67 | a completed render leaves the console its script installed |
| Executor.RendersInstallBridges | static/script.js:43-67 | after n completed renders of compiling scripts in one frame window, the console is `AfterRenders(n, asWritten)`, as written or corrected |
| Executor.RenderEntries | static/script.js:74-83 | a render with the intended bridge whose script copies complete appends one entry per console call of either copy |
| Executor.SyntaxErrorShowsNothing | static/script.js:41-85 | a user script with a syntax error stops the whole bridge block: the document is replaced, nothing is installed and nothing is appended |
| Executor.AsWrittenStacks | static/script.js:43-67 | as written, after n renders in one frame window a console call appends n entries |
| Executor.IntendedDoesNotStack | static/script.js:43-67 | with the intended bridge, after any number of renders a console call appends one entry |
| Executor.SecondRenderDuplicates | static/script.js:43-67 | after two renders, `console.log("a")` appends two entries as written and one as intended |
| Commands.TrimStart | static/script.js:123 | leading white space is removed and nothing else; the result starts with a non-white-space character |
| Commands.TrimEnd | static/script.js:123 | trailing white space is removed and nothing else |
| Commands.Trim | static/script.js:123 | `trim()` never lengthens the text, and a non-empty result starts and ends with a non-white-space character |
| Commands.TrimEmptyIff | static/script.js:123 | `trim()` gives '' exactly when the buffer is all white space |
| Commands.TrimIsSlice | static/script.js:123 | `trim()` gives a contiguous slice of the buffer |
| Commands.SavedSlots | static/script.js:122-132 | at most three slots are saved, and each saved buffer is not blank |
| Commands.SaveAllPlan | static/script.js:122-132 | `saveAllFiles` starts one download per saved slot, in order, each with that buffer's text and the slot's file name |
| Commands.DownloadsContents | static/script.js:124-130 | the i-th `saveFile` call gets the i-th slot's buffer and file name |
| Commands.ChosenProperties | static/script.js:122-132 | a slot is chosen exactly when its test holds; at most three, in the order html, css, js |
| Commands.SaveAllIff | static/script.js:122-132 | a buffer is saved if and only if its trimmed text is non-empty; at most three saves, in the order index.html, styles.css, script.js |
| Commands.BlankNotSaved | static/script.js:122-132 | an all-white-space buffer is not saved |
| Commands.Dispatch | static/script.js:186-217 | every command prevents the key's default action, and nothing is prevented without Ctrl |
| Commands.SaveAllChecksFirst | static/script.js:187-189 | Ctrl+Shift+'S' selects save-all before Ctrl+'s' is considered |
| Commands.CtrlSSavesFocused | static/script.js:190-198 | Ctrl+'s' saves the focused buffer, and nothing when no editor has focus; the default action is prevented either way |
| Commands.CtrlLLoads | static/script.js:205-215 | Ctrl+'l' loads into the focused editor, and into html when none has focus |
| Commands.CtrlRClears | static/script.js:199-201 | Ctrl+'r' clears all fields |
| Commands.NoCtrlNoCommand | static/script.js:186-216 | without Ctrl no command is issued and nothing is prevented |
| Commands.CommandIff | static/script.js:186-216 | a command is issued exactly for Ctrl with Shift+'S', 'r', 't', 'l', or 's' with a focused editor; the default is prevented exactly for Ctrl with one of those keys |
| Editor.ClearRenders | static/script.js:134-139 | the four renders of "clear all" complete exactly when the frame is attached and the stylesheet and script are Latin-1 (the markup is already '' in the first) |
| Editor.ClearRendersIsChain | static/script.js:134-139 | those renders are the handler's chain of change renders over the buffers after each `setValue('')`, then its own `updatePreview` |
| Editor.Page.constructor | static/script.js:176-186 | start-up renders the buffers the server filled once, on a fresh frame and an empty panel: the frame, history and panel are what that render gives; the host `onerror` and the `keydown` listener are installed exactly when it completes, that is for Latin-1 buffers |
| Editor.Page.SaveFile | static/script.js:145-147 | a save button adds one download of that buffer under its file name; nothing else changes |
| Editor.Page.SaveAllFiles | static/script.js:122-132 | save-all adds exactly the downloads `SaveAllPlan` chooses; nothing else changes |
| Editor.Page.ClearAllFields | static/script.js:134-139 | the frame, history and panel are what `ClearRenders` gives. It completes exactly when the editor is open and the stylesheet and script are Latin-1, and then all three buffers are '' and the URL is the one for empty buffers; otherwise only the markup was cleared |
| Editor.Page.LoadFile | static/script.js:103-120 | a file dialog opens for that editor, recording whether its label element still exists; nothing else changes |
| Editor.Page.FileLoaded | static/script.js:111-115 | the editor takes the file's text and renders; if that render completes and the label exists, the label shows `(name)` and a second render follows. The frame, history and panel are what those renders give |
| Editor.Page.Edit | static/script.js:176-178 | an edit to one buffer is followed by one render of the new buffers, which gives the new frame, history and panel |
| Editor.Page.CloseEditor | static/script.js:141-143 | closing detaches the frame and takes the panel out of the page; the frame's history, document, console and devtools, the buffers and the labels remain |
| Editor.Page.HostOnError | static/script.js:182-184 | an error on the host page appends one unstyled `Error: m at s:l:c` entry, if the hook was installed and the panel is still in the page |
| Editor.Page.KeyDown | static/script.js:186-217 | the listener carries out exactly the command `Dispatch` chooses, with that command's whole effect on buffers, downloads, dialogs, preview and panel, and does nothing if it was never installed |
| Editor.ClearedPageReloadsDefaults | static/script.js:134-139 | after clearing, a reload of the page's URL shows the three default buffers, as written and corrected |
| Editor.RenderedUrlReloads | static/script.js:28-33 | with the corrected client, a reload of the URL any render wrote shows every non-empty ASCII buffer unchanged and the default for an empty one |

## Left out

- `Executor.Frame.devtools` records only console-method calls. The browser's own reports of uncaught errors are not recorded: a script's SyntaxError, the appended copy's throw (the hook does not cancel it) and `btoa`'s InvalidCharacterError at the host.
- CodeMirror: each editor is a plain string. The model assumes that `setValue` fires `change` synchronously on every call, even one that sets '' on an editor that is already empty. Undo history, modes and cursor state are not modelled.
- Flask's routing and `render_template`: `index()` is modelled from `request.args` to the three buffers it hands to the template. The template that puts them into the page is not part of this model, and neither is the initial text of the filename labels; both reach `Editor.Page.constructor` as parameters.
- Query.FormDecode: a '%' escape of a byte at or above 0x80 is kept as it is, instead of being decoded as UTF-8 together with the escapes after it. Neither client writes such an escape.
- RoundTrip.ReloadShowsAsciiBuffers: says nothing about a buffer whose `btoa` output holds '+'. Such a buffer comes back as the default or as other text. The model proves this for one buffer, `<p>` (`RoundTrip.PlusBreaksReload`), and not for every such buffer.
- Parsing and running the composed document: HTML parsing, script execution and asynchronous work in the frame (timers, promises) are not modelled. The behaviour of the user script in each render is the input `run`, and depends on that render's buffers alone.
- The evaluation of the inner template literal `\`${js}\``, which would interpolate `${…}` in the user script and break on a backtick: the appended copy is taken as the script text verbatim.
- How `innerHTML +=` reads an entry as markup: an entry is its text and whether it is red.
- Console methods other than the four wrappers: after the bridge is installed they do not exist on `window.console`. Calls to them are not modelled.
- The browser routing an uncaught exception to the host's `window.onerror`: `Editor.Page.HostOnError` is the handler, and its arguments are inputs.
- Blob, `URL.createObjectURL`, anchor clicks, the file input and `FileReader`: a download is a `(content, filename)` value, a dialog is a pending value, and a loaded file is its name and text. A cancelled dialog stays pending.
- Commands.IsJsWhitespace: the ECMAScript white-space and line-terminator set is written out from the standard, not derived from Unicode data.
- RoundTrip.RoundTripIffAscii: requires the buffer to differ from the slot's default text, because the model does not prove that the default texts are ASCII.
- RoundTrip.NonAsciiChanges: excludes the default text for the same reason.

## Findings

| source | as written | input that shows it | evidently intended | confidence | as-written member | corrected member |
|---|---|---|---|---|---|---|
| app.py:20 | `b64decode` of a `str` first encodes it as ASCII, and a character above 0x7F raises `ValueError`, which `except (binascii.Error, UnicodeDecodeError)` does not catch, so the request fails | `/?html=é` | every undecodable parameter falls back to the slot's default | not executed; follows from CPython's `_bytes_from_decode_data` | Server.NonAsciiParameterEscapes | Server.Index |
| static/script.js:43-67 | `document.open()` keeps the frame's `Window`, so each render's bridge wraps the previous render's `window.console`; after n renders one `console.log` appends n entries | two renders, then `console.log("a")` | one entry per console call, however many renders came before | not executed; depends on the browser keeping the `Window` across `document.open()` as the HTML standard now specifies | Executor.SecondRenderDuplicates | Executor.IntendedDoesNotStack |
| static/script.js:32 | the `btoa` values go into the query unescaped, and the server's form decoding reads each '+' of the base-64 alphabet as a space | the markup `<p>`: the client writes `html=PHA+`, the server reads `PHA `, an incomplete quantum, and shows the default markup | every ASCII buffer comes back after a reload, each value escaped with `encodeURIComponent` | not executed; follows from Werkzeug's form decoding of `request.args` | RoundTrip.PlusBreaksReload | RoundTrip.EscapedReloadShowsAsciiBuffers |

The members `Server.IndexAsWritten`, `Bridge.WrapAsWritten` and `Query.UrlFor` model the code as
written. `Server.Index`, `Bridge.Wrap` and `Query.EscapedUrlFor` are the corrected definitions:

- `Executor.Preview` installs `WrapAsWritten` and writes `UrlFor` when its flag `asWritten` is
  set, and `Wrap` and `EscapedUrlFor` when it is clear. `Executor.RendersInstallBridges` holds
  for both.
- `Editor.RenderedUrlReloads` states the third finding's intended property for the corrected
  preview.
- The round-trip lemmas use `Index`.
- `RoundTrip.ClientUrlNeverEscapes` shows that the first finding cannot be reached from a URL
  either client wrote. It needs a hand-edited or foreign URL.

Some of the code's behaviour differs from what the editor's interface suggests. The model
follows the code:

- A missing or undecodable parameter gives the slot's default text, not an empty buffer.
- With the corrected client, the round trip holds only for non-empty ASCII buffers. `btoa`
  encodes Latin-1 bytes, and the server decodes UTF-8. As written, it also needs the buffer's
  `btoa` to hold no '+'.
- Entries from `log`, `info` and `warn` look the same, and only `error` entries are red.
- The host's error entries are not red.
- A synchronous throw in the user script is reported twice in one render. The `try` copy
  catches it and reports it through `console.error`. The appended copy throws again, and the
  frame's `onerror` hook reports that.
  - This holds when the markup starts the document's body.
  - When the markup is empty, as after "clear all", or holds only white space or head elements,
    `document.body` is still `null` at line 83. Then `appendChild` throws a `TypeError`, and
    the hook reports that error instead; the appended copy never runs.
  - In the model, both cases are an `appendedRun` that ends in `Throws`. Which error it
    reports is part of the input.
- A syntax error in the user script stops the whole bridge block from compiling, because the
  script is spliced into that block. No bridge and no hook are installed, and nothing is
  appended (`Executor.SyntaxErrorShowsNothing`).
- The bridge is not reinstalled on a fresh global state. See the second finding.
