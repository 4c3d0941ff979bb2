/**
 * The editor's rich-text tree (a ProseMirror/Tiptap JSON document) as the two
 * PHP helpers read it. A node's `type`, `textAlign`, `src`, `alt` and `latex`
 * read as "" when absent or null (PHP's `?? ''`), and so do a mark's
 * `fontSize` and `fontFamily`, which the renderer tests with `empty()`. A
 * mark's `type` and `color` have no default in the source; here they are
 * always present. `text` stays an Option because the plain-text walk tells
 * an absent text from an empty one.
 */
module Document {
  import opened Wrappers

  /** One inline mark of a text node: its `type` and the attributes the renderer reads. */
  datatype Mark = Mark(kind: string, color: string, fontSize: string, fontFamily: string)

  /** The `attrs` object of a node, one field per key the renderer reads. */
  datatype Attrs = Attrs(
    level: Option<int>,   // heading
    textAlign: string,    // paragraph
    checked: bool,        // taskItem, `!empty(...)` already applied
    src: string,          // image
    alt: string,          // image
    latex: string,        // mathBlock, as the renderer reads it
    formula: string       // mathBlock, as the editor stores it
  )

  /** A node of the tree: `type`, child `content`, `text`, `marks` and `attrs`. */
  datatype Node = Node(kind: string, content: seq<Node>, text: Option<string>, marks: seq<Mark>, attrs: Attrs)

  /** The root object; `content` is None when the key is missing or not a JSON array. */
  datatype Doc = Doc(kind: string, content: Option<seq<Node>>)

  /**
   * What the helpers are handed as a note's content: an already-decoded
   * array, a JSON string that still has to be decoded, or a scalar (null, a
   * number, a boolean) that never decodes to an array.
   */
  datatype Value = Tree(doc: Doc) | Raw(json: string) | Scalar

  /** `json_decode($s, true)`, None when the string does not decode to an array. */
  type Decoder = string -> Option<Doc>

  /** The array the helpers walk: a non-array input is JSON-decoded first. */
  function Decoded(v: Value, decode: Decoder): Option<Doc> {
    match v
    case Tree(d) => Some(d)
    case Raw(s) => decode(s)
    case Scalar => None
  }

  /** The root's `content` when it is present and an array. */
  function TopContent(v: Value, decode: Decoder): (r: Option<seq<Node>>)
    ensures r.Some? ==> Decoded(v, decode).Some? && Decoded(v, decode).value.content == r
  {
    match Decoded(v, decode)
    case None => None
    case Some(d) => d.content
  }

  const NoAttrs := Attrs(None, "", false, "", "", "", "")

  function TextNode(t: string): Node {
    Node("text", [], Some(t), [], NoAttrs)
  }

  function Paragraph(children: seq<Node>): Node {
    Node("paragraph", children, None, [], NoAttrs)
  }

  /** The document a fresh editor holds: one paragraph with no content. */
  const BlankDocument := Doc("doc", Some([Paragraph([])]))

  /**
   * The reference reading of a tree: the literals of its `text` nodes in
   * document order (a node's own text before its descendants').
   */
  function Literals(n: Node): string
    decreases n
  {
    (if n.kind == "text" then n.text.GetOr("") else "") + LiteralsAll(n.content)
  }

  function LiteralsAll(ns: seq<Node>): string
    decreases ns
  {
    if ns == [] then "" else LiteralsAll(ns[..|ns| - 1]) + Literals(ns[|ns| - 1])
  }
}
