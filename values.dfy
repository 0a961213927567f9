/** The values the extension stores and passes around: prompt records as
    they appear in the "prompts" storage key, in messages and in imported
    JSON files. */
module Values {

  datatype Option<T> = None | Some(value: T)

  /** One property of a loosely typed JavaScript record: a string, or
      missing (reads as `undefined`). */
  datatype Field = Str(s: string) | Absent

  /** A prompt record `{id?, title, text}`. Records written by the sidebar
      always have string `title` and `text`; records that reached storage
      through the legacy importer need not. */
  datatype Prompt = Prompt(id: Field, title: Field, text: Field)

  /** An element of a parsed JSON array: `null` or an object. */
  datatype Item = Null | Record(prompt: Prompt)

  /** The outcome of `JSON.parse` on an imported file. */
  datatype Parsed = ParseError | NotArray | Array(items: seq<Item>)

  /** An opaque reference to the page element that had focus. */
  datatype ElementRef = ElementRef(handle: nat)

  predicate IsStr(f: Field) { f.Str? }

  /** Both `title` and `text` are strings. */
  predicate WellFormed(p: Prompt) { IsStr(p.title) && IsStr(p.text) }

  /** The string a DOM or clipboard API receives for a field: the string
      itself, or "undefined" for a missing one. */
  function JsString(f: Field): (r: string)
    ensures f.Str? ==> r == f.s
    ensures f.Absent? ==> r == "undefined"
  {
    match f
    case Str(s) => s
    case Absent => "undefined"
  }

  /** The records of a list, as the JSON array that exporting them yields. */
  function AsItems(ps: seq<Prompt>): (r: seq<Item>)
    ensures |r| == |ps|
    ensures forall k :: 0 <= k < |ps| ==> r[k] == Record(ps[k])
  {
    seq(|ps|, k requires 0 <= k < |ps| => Record(ps[k]))
  }
}
