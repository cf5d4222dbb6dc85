/**
  The document `updatePreview` writes into the preview frame: a template with holes for the
  three buffers, in the order style block, markup, script. The script installs the console
  wrapper, assigns it to `window.console`, installs the `window.onerror` hook, runs the user
  script inside `try`, and finally appends a second `<script>` element whose text is the user
  script again. The fixed texts are the template's own characters, with the escapes `\``
  and `<\/script>` of the JavaScript template literal already resolved.
*/
module Composer {
  import opened Slots

  /** A piece of the template: fixed text, or the content of one buffer. */
  datatype Piece = Fixed(text: string) | Hole(slot: Slot)

  const StyleOpen: string := "\n        <style>"

  const StyleClose: string := "</style>\n        "

  const ScriptOpen: string :=
    "\n"
    + "        <script>\n"
    + "            (function() {\n"

  const ConsoleWrapper: string :=
    "                const console = (function(oldCons){\n"
    + "                    return {\n"
    + "                        log: function(text){\n"
    + "                            oldCons.log(text);\n"
    + "                            const consoleDiv = parent.document.getElementById('console');\n"
    + "                            consoleDiv.innerHTML += '<div>' + text + '</div>';\n"
    + "                        },\n"
    + "                        info: function(text){\n"
    + "                            oldCons.info(text);\n"
    + "                            const consoleDiv = parent.document.getElementById('console');\n"
    + "                            consoleDiv.innerHTML += '<div>' + text + '</div>';\n"
    + "                        },\n"
    + "                        warn: function(text){\n"
    + "                            oldCons.warn(text);\n"
    + "                            const consoleDiv = parent.document.getElementById('console');\n"
    + "                            consoleDiv.innerHTML += '<div>' + text + '</div>';\n"
    + "                        },\n"
    + "                        error: function(text){\n"
    + "                            oldCons.error(text);\n"
    + "                            const consoleDiv = parent.document.getElementById('console');\n"
    + "                            consoleDiv.innerHTML += '<div style=\"color: red;\">' + text + '</div>';\n"
    + "                        }\n"
    + "                    };\n"
    + "                }(window.console));\n"

  const ConsoleAssign: string := "                window.console = console;\n\n"

  const ErrorHook: string :=
    "                window.onerror = function(message, source, lineno, colno, error) {\n"
    + "                    const consoleDiv = parent.document.getElementById('console');\n"
    + "                    consoleDiv.innerHTML += '<div style=\"color: red;\">Error: ' + message + ' at line ' + lineno + '</div>';\n"
    + "                };\n"
    + "\n"

  const TryOpen: string := "                try {\n                    "

  const TryClose: string :=
    "\n"
    + "                } catch (e) {\n"
    + "                    console.error(e);\n"
    + "                }\n"
    + "\n"

  const AppendOpen: string :=
    "                // Attach functions to the global scope\n"
    + "                const script = document.createElement('script');\n"
    + "                script.textContent = `"

  const AppendClose: string :=
    "`;\n"
    + "                document.body.appendChild(script);\n"
    + "            })();\n"
    + "        "

  const ScriptClose: string := "</script>\n    "

  /** The order of the template's pieces, for any fixed texts. */
  function TemplateOf(styleOpen: string, styleClose: string, scriptOpen: string, wrapper: string,
                      assign: string, hook: string, tryOpen: string, tryClose: string,
                      appendOpen: string, appendClose: string, scriptClose: string): (t: seq<Piece>)
    ensures |t| == 15
  {
    [Fixed(styleOpen), Hole(Css), Fixed(styleClose),
     Hole(Html),
     Fixed(scriptOpen), Fixed(wrapper), Fixed(assign), Fixed(hook),
     Fixed(tryOpen), Hole(Js), Fixed(tryClose),
     Fixed(appendOpen), Hole(Js), Fixed(appendClose),
     Fixed(scriptClose)]
  }

  /** The template as written. */
  const Template: seq<Piece> :=
    TemplateOf(StyleOpen, StyleClose, ScriptOpen, ConsoleWrapper, ConsoleAssign, ErrorHook,
               TryOpen, TryClose, AppendOpen, AppendClose, ScriptClose)

  /** The text a piece stands for. */
  function PieceText(p: Piece, b: Buffers): string {
    match p
    case Fixed(text) => text
    case Hole(s) => b.Get(s)
  }

  /**
    The text of a template once its holes are filled from the buffers. Filling is incremental:
    the filling of every prefix of the template is a prefix of the text.
  */
  function Fill(t: seq<Piece>, b: Buffers): (r: string)
    ensures forall k :: 0 <= k <= |t| ==> Fill(t[..k], b) <= r
    decreases |t|
  {
    if |t| == 0 then "" else
      var u := t[..|t| - 1];
      var r := Fill(u, b) + PieceText(t[|t| - 1], b);
      assert forall k :: 0 <= k < |t| ==> u[..k] == t[..k];
      assert t[..|t|] == t;
      r
  }

  /**
    The document written into the preview frame: the style block around the css, the markup,
    then one script block holding the bridge code, the user script in a `try`, and the user
    script again as the text of an appended script.
  */
  function Compose(b: Buffers): (doc: string)
    ensures doc == StyleOpen + b.css + StyleClose + b.html
      + ScriptOpen + ConsoleWrapper + ConsoleAssign + ErrorHook
      + TryOpen + b.js + TryClose
      + AppendOpen + b.js + AppendClose
      + ScriptClose
  {
    FillTemplateOf(StyleOpen, StyleClose, ScriptOpen, ConsoleWrapper, ConsoleAssign, ErrorHook,
                   TryOpen, TryClose, AppendOpen, AppendClose, ScriptClose, b);
    Fill(Template, b)
  }

  // ---------------------------------------------------------------------------------------
  // Properties

  /** Filling one more piece appends its text. */
  lemma FillStep(t: seq<Piece>, k: nat, b: Buffers)
    requires k < |t|
    ensures Fill(t[..k + 1], b) == Fill(t[..k], b) + PieceText(t[k], b)
  {
    assert t[..k + 1][..k] == t[..k];
  }

  /** Filling five more pieces appends their texts in order. */
  lemma FillFive(t: seq<Piece>, k: nat, b: Buffers)
    requires k + 5 <= |t|
    ensures Fill(t[..k + 5], b) == Fill(t[..k], b) + PieceText(t[k], b) + PieceText(t[k + 1], b)
      + PieceText(t[k + 2], b) + PieceText(t[k + 3], b) + PieceText(t[k + 4], b)
  {
    FillStep(t, k, b);
    FillStep(t, k + 1, b);
    FillStep(t, k + 2, b);
    FillStep(t, k + 3, b);
    FillStep(t, k + 4, b);
  }

  /** The same, for pieces whose texts are known. */
  lemma FillFiveTexts(t: seq<Piece>, k: nat, b: Buffers, x0: string, x1: string, x2: string, x3: string, x4: string)
    requires k + 5 <= |t|
    requires PieceText(t[k], b) == x0 && PieceText(t[k + 1], b) == x1 && PieceText(t[k + 2], b) == x2
    requires PieceText(t[k + 3], b) == x3 && PieceText(t[k + 4], b) == x4
    ensures Fill(t[..k + 5], b) == Fill(t[..k], b) + x0 + x1 + x2 + x3 + x4
  {
    FillFive(t, k, b);
  }

  lemma TakeAll(t: seq<Piece>)
    ensures t[..|t|] == t
  {
  }

  /** The template's pieces, one by one. */
  lemma TemplateOfPieces(styleOpen: string, styleClose: string, scriptOpen: string, wrapper: string,
                         assign: string, hook: string, tryOpen: string, tryClose: string,
                         appendOpen: string, appendClose: string, scriptClose: string)
    ensures var t := TemplateOf(styleOpen, styleClose, scriptOpen, wrapper, assign, hook, tryOpen, tryClose,
                                appendOpen, appendClose, scriptClose);
      && t[0] == Fixed(styleOpen) && t[1] == Hole(Css) && t[2] == Fixed(styleClose) && t[3] == Hole(Html)
      && t[4] == Fixed(scriptOpen) && t[5] == Fixed(wrapper) && t[6] == Fixed(assign) && t[7] == Fixed(hook)
      && t[8] == Fixed(tryOpen) && t[9] == Hole(Js) && t[10] == Fixed(tryClose) && t[11] == Fixed(appendOpen)
      && t[12] == Hole(Js) && t[13] == Fixed(appendClose) && t[14] == Fixed(scriptClose)
  {
  }

  /** Filling the template's shape writes the fixed texts and the buffers in template order. */
  lemma FillTemplateOf(styleOpen: string, styleClose: string, scriptOpen: string, wrapper: string,
                       assign: string, hook: string, tryOpen: string, tryClose: string,
                       appendOpen: string, appendClose: string, scriptClose: string, b: Buffers)
    ensures Fill(TemplateOf(styleOpen, styleClose, scriptOpen, wrapper, assign, hook, tryOpen, tryClose,
                            appendOpen, appendClose, scriptClose), b)
      == styleOpen + b.css + styleClose + b.html + scriptOpen + wrapper + assign + hook
         + tryOpen + b.js + tryClose + appendOpen + b.js + appendClose + scriptClose
  {
    var t := TemplateOf(styleOpen, styleClose, scriptOpen, wrapper, assign, hook, tryOpen, tryClose,
                        appendOpen, appendClose, scriptClose);
    TemplateOfPieces(styleOpen, styleClose, scriptOpen, wrapper, assign, hook, tryOpen, tryClose,
                     appendOpen, appendClose, scriptClose);
    FillFiveTexts(t, 0, b, styleOpen, b.css, styleClose, b.html, scriptOpen);
    FillFiveTexts(t, 5, b, wrapper, assign, hook, tryOpen, b.js);
    FillFiveTexts(t, 10, b, tryClose, appendOpen, b.js, appendClose, scriptClose);
    TakeAll(t);
    assert "" + styleOpen == styleOpen;
  }

  /** The user script fills the 10th and the 13th piece and no other; css and html fill one piece each. */
  lemma TemplateOfHoles(styleOpen: string, styleClose: string, scriptOpen: string, wrapper: string,
                        assign: string, hook: string, tryOpen: string, tryClose: string,
                        appendOpen: string, appendClose: string, scriptClose: string)
    ensures var t := TemplateOf(styleOpen, styleClose, scriptOpen, wrapper, assign, hook, tryOpen, tryClose,
                                appendOpen, appendClose, scriptClose);
      forall i :: 0 <= i < |t| ==>
        (t[i] == Hole(Js) <==> i == 9 || i == 12) &&
        (t[i] == Hole(Css) <==> i == 1) &&
        (t[i] == Hole(Html) <==> i == 3)
    ensures var t := TemplateOf(styleOpen, styleClose, scriptOpen, wrapper, assign, hook, tryOpen, tryClose,
                                appendOpen, appendClose, scriptClose);
      t[5] == Fixed(wrapper) && t[6] == Fixed(assign) && t[7] == Fixed(hook)
  {
  }

  /** The bridge code (console wrapper, `window.console` assignment, error hook) precedes every copy of the user script. */
  lemma BridgeBeforeUserScript()
    ensures Template[5] == Fixed(ConsoleWrapper)
    ensures Template[6] == Fixed(ConsoleAssign)
    ensures Template[7] == Fixed(ErrorHook)
    ensures forall i :: 0 <= i < |Template| && Template[i] == Hole(Js) ==> 7 < i
  {
    TemplateOfHoles(StyleOpen, StyleClose, ScriptOpen, ConsoleWrapper, ConsoleAssign, ErrorHook,
                    TryOpen, TryClose, AppendOpen, AppendClose, ScriptClose);
  }

  /** The buffers' holes in the template as written. */
  lemma TemplateHoles()
    ensures forall i :: 0 <= i < |Template| ==>
      (Template[i] == Hole(Js) <==> i == 9 || i == 12) &&
      (Template[i] == Hole(Css) <==> i == 1) &&
      (Template[i] == Hole(Html) <==> i == 3)
  {
    TemplateOfHoles(StyleOpen, StyleClose, ScriptOpen, ConsoleWrapper, ConsoleAssign, ErrorHook,
                    TryOpen, TryClose, AppendOpen, AppendClose, ScriptClose);
  }

  /** Any filling of the shape holds the css and the markup once and the user script twice. */
  lemma TemplateOfLength(styleOpen: string, styleClose: string, scriptOpen: string, wrapper: string,
                         assign: string, hook: string, tryOpen: string, tryClose: string,
                         appendOpen: string, appendClose: string, scriptClose: string, b: Buffers)
    ensures var t := TemplateOf(styleOpen, styleClose, scriptOpen, wrapper, assign, hook, tryOpen, tryClose,
                                appendOpen, appendClose, scriptClose);
      |Fill(t, b)| == |Fill(t, Triple("", "", ""))| + |b.css| + |b.html| + 2 * |b.js|
  {
    FillTemplateOf(styleOpen, styleClose, scriptOpen, wrapper, assign, hook, tryOpen, tryClose,
                   appendOpen, appendClose, scriptClose, b);
    FillTemplateOf(styleOpen, styleClose, scriptOpen, wrapper, assign, hook, tryOpen, tryClose,
                   appendOpen, appendClose, scriptClose, Triple("", "", ""));
  }

  /** The document holds the css and the markup once and the user script twice, besides the fixed text. */
  lemma ComposeLength(b: Buffers)
    ensures |Compose(b)| == |Compose(Triple("", "", ""))| + |b.css| + |b.html| + 2 * |b.js|
  {
    TemplateOfLength(StyleOpen, StyleClose, ScriptOpen, ConsoleWrapper, ConsoleAssign, ErrorHook,
                     TryOpen, TryClose, AppendOpen, AppendClose, ScriptClose, b);
  }
}
