/** The dependency entries of a `Package.swift` manifest written in the pre-4 style
    (`.Package(url: "...", majorVersion: 1)`), as the `remove` and `version latest`
    commands see them: a sequence of chunks, each either plain text or one entry. */
module PackageText {
  import opened Strings

  /** One `.Package(url: "<url>", <version>)` entry. `comma` is a `,` right before the
      entry, `lead` the text between that comma and `head`, which is `.Package(url:`
      in some spelling. The entry is written with one space after `url:` and one
      after the comma that ends the URL. */
  datatype Entry = Entry(comma: bool, lead: string, head: string, url: string, version: string)

  datatype Chunk = Text(text: string) | Dep(entry: Entry)

  /** The characters the version argument may hold: `\w`, `:`, `(`, `)`, `\s` and `,`. */
  predicate IsVersionChar(c: char)
  {
    IsWordChar(c) || c == ':' || c == '(' || c == ')' || c == ',' || IsRegexSpace(c)
  }

  /** A version argument both rewrites recognise: one or more version characters. */
  predicate IsVersionArg(v: string)
  {
    v != [] && forall k :: 0 <= k < |v| ==> IsVersionChar(v[k])
  }

  function CommaText(comma: bool): string
  {
    if comma then "," else ""
  }

  /** The entry from `.Package` to its closing parenthesis. */
  function Tail(e: Entry): string
  {
    e.head + " \"" + e.url + "\", " + e.version + ")"
  }

  function RenderEntry(e: Entry): string
  {
    CommaText(e.comma) + e.lead + Tail(e)
  }

  function RenderChunk(c: Chunk): string
  {
    match c
    case Text(t) => t
    case Dep(e) => RenderEntry(e)
  }

  /** The manifest text the chunks stand for. */
  function Render(doc: seq<Chunk>): string
  {
    if doc == [] then "" else RenderChunk(doc[0]) + Render(doc[1..])
  }

  /** The entries of the manifest, in text order. */
  function Entries(doc: seq<Chunk>): seq<Entry>
  {
    if doc == [] then []
    else (if doc[0].Dep? then [doc[0].entry] else []) + Entries(doc[1..])
  }

  lemma RenderCons(c: Chunk, rest: seq<Chunk>)
    ensures Render([c] + rest) == RenderChunk(c) + Render(rest)
  {
    assert ([c] + rest)[1..] == rest;
  }

  lemma EntriesCons(c: Chunk, rest: seq<Chunk>)
    ensures Entries([c] + rest) == (if c.Dep? then [c.entry] else []) + Entries(rest)
  {
    assert ([c] + rest)[1..] == rest;
  }

  /** A comma-separated list: no comma before the first entry, one before every other. */
  predicate ListShaped(es: seq<Entry>)
  {
    es == [] || (!es[0].comma && forall k :: 1 <= k < |es| ==> es[k].comma)
  }
}
