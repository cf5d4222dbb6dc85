/** The three editor buffers, the query parameter that carries each and the file it saves to. */
module Slots {

  datatype Slot = Html | Css | Js

  /** One value per buffer, in the editor's fixed order html, css, js. */
  datatype Triple<T> = Triple(html: T, css: T, js: T) {
    function Get(s: Slot): T {
      match s
      case Html => html
      case Css => css
      case Js => js
    }

    function With(s: Slot, v: T): (r: Triple<T>)
      ensures r.Get(s) == v
      ensures forall o :: o != s ==> r.Get(o) == Get(o)
    {
      match s
      case Html => this.(html := v)
      case Css => this.(css := v)
      case Js => this.(js := v)
    }
  }

  type Buffers = Triple<string>

  /** The query parameter that carries a buffer in the address bar. */
  function ParamName(s: Slot): string {
    match s
    case Html => "html"
    case Css => "css"
    case Js => "js"
  }

  /** The file name a buffer is saved under. */
  function FileName(s: Slot): string {
    match s
    case Html => "index.html"
    case Css => "styles.css"
    case Js => "script.js"
  }

  /** The position of a buffer in the save order. */
  function Rank(s: Slot): nat {
    match s
    case Html => 0
    case Css => 1
    case Js => 2
  }
}
