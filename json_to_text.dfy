/**
 * backend/app/Helpers/JsonToText.php: flattens the editor tree to plain text
 * (the prompt sent to the AI services). Each `text` node with a `text`
 * contributes it and a space; a node's children contribute their own,
 * separately trimmed, flattening; the whole is trimmed.
 */
module JsonToText {
  import opened Wrappers
  import opened Strings
  import opened Document

  /** What a node adds by itself: a `text` node with a `text` gives that text and one space. */
  function OwnText(n: Node): string {
    if n.kind == "text" && n.text.Some? then n.text.value + " " else ""
  }

  /** A node's contribution to the accumulator: its own text, then its children's trimmed flattening. */
  function NodeText(n: Node): string
    decreases n, 2
  {
    OwnText(n) + ContentText(n.content)
  }

  /** The accumulator after the loop over `ns`, before the final trim. */
  function Accumulated(ns: seq<Node>): string
    decreases ns, 0
  {
    if ns == [] then "" else Accumulated(ns[..|ns| - 1]) + NodeText(ns[|ns| - 1])
  }

  /** `extractText(['content' => ns])`. */
  function ContentText(ns: seq<Node>): (r: string)
    ensures r == [] || (!IsTrimSpace(r[0]) && !IsTrimSpace(r[|r| - 1]))
    decreases ns, 1
  {
    Trim(Accumulated(ns))
  }

  /** `extractText($json)`: "" when the root content is missing or not an array. */
  function TextOf(v: Value, decode: Decoder): string {
    match TopContent(v, decode)
    case None => ""
    case Some(ns) => ContentText(ns)
  }

  /** The `foreach` over a content array, recursing into array-valued children. */
  method ExtractContent(ns: seq<Node>) returns (r: string)
    ensures r == ContentText(ns)
    decreases ns
  {
    var text := "";
    var i := 0;
    while i < |ns|
      invariant 0 <= i <= |ns|
      invariant text == Accumulated(ns[..i])
    {
      var node := ns[i];
      var own := "";
      if node.kind == "text" && node.text.Some? {
        own := node.text.value + " ";
      }
      var inner := "";
      if node.content != [] {
        inner := ExtractContent(node.content);
      } else {
        EmptyContentText();
      }
      AccumulatedStep(ns, i);
      text := text + own + inner;
      i := i + 1;
    }
    WholePrefix(ns);
    r := Trim(text);
  }

  lemma WholePrefix(ns: seq<Node>)
    ensures Accumulated(ns[..|ns|]) == Accumulated(ns)
  {
    assert ns[..|ns|] == ns;
  }

  /** One pass of the loop appends the node's own text, then its children's flattening. */
  lemma AccumulatedStep(ns: seq<Node>, i: nat)
    requires i < |ns|
    ensures Accumulated(ns[..i + 1]) == Accumulated(ns[..i]) + OwnText(ns[i]) + ContentText(ns[i].content)
  {
    assert ns[..i + 1][..i] == ns[..i];
    var a, o, c := Accumulated(ns[..i]), OwnText(ns[i]), ContentText(ns[i].content);
    assert Accumulated(ns[..i + 1]) == a + (o + c);
    assert a + (o + c) == a + o + c;
  }

  /** `extractText`: decodes a non-array input, gives "" without an array `content`. */
  method ExtractText(v: Value, decode: Decoder) returns (r: string)
    ensures TopContent(v, decode).None? ==> r == ""
    ensures TopContent(v, decode).Some? ==> r == ContentText(TopContent(v, decode).value)
  {
    var json := Decoded(v, decode);
    if json.None? || json.value.content.None? {
      return "";
    }
    r := ExtractContent(json.value.content.value);
  }

  /** The flattened text never starts or ends with whitespace. */
  lemma TextIsTrimmed(v: Value, decode: Decoder)
    ensures var r := TextOf(v, decode); r == [] || (!IsTrimSpace(r[0]) && !IsTrimSpace(r[|r| - 1]))
  {
  }

  /**
   * Up to whitespace the flattening is exactly the document's literals in
   * order: nothing is escaped, dropped or reordered; marks and attributes
   * contribute nothing.
   */
  lemma {:induction false} NodeTextLiterals(n: Node)
    ensures Unspaced(NodeText(n)) == Unspaced(Literals(n))
    decreases n, 2
  {
    var own, lit := OwnText(n), if n.kind == "text" then n.text.GetOr("") else "";
    var c := n.content;
    ContentTextLiterals(c);
    OwnTextLiteral(n);
    assert NodeText(n) == own + ContentText(c);
    assert Literals(n) == lit + LiteralsAll(c);
    UnspacedConcat(own, ContentText(c));
    UnspacedConcat(lit, LiteralsAll(c));
  }

  lemma OwnTextLiteral(n: Node)
    ensures Unspaced(OwnText(n)) == Unspaced(if n.kind == "text" then n.text.GetOr("") else "")
  {
    if n.kind == "text" && n.text.Some? {
      UnspacedConcat(n.text.value, " ");
      assert Unspaced(" ") == [];
    }
  }

  lemma {:induction false} AccumulatedLiterals(ns: seq<Node>)
    ensures Unspaced(Accumulated(ns)) == Unspaced(LiteralsAll(ns))
    decreases ns, 0
  {
    if ns != [] {
      var init, last := ns[..|ns| - 1], ns[|ns| - 1];
      AccumulatedLiterals(init);
      NodeTextLiterals(last);
      UnspacedConcat(Accumulated(init), NodeText(last));
      UnspacedConcat(LiteralsAll(init), Literals(last));
    }
  }

  lemma {:induction false} ContentTextLiterals(ns: seq<Node>)
    ensures Unspaced(ContentText(ns)) == Unspaced(LiteralsAll(ns))
    decreases ns, 1
  {
    AccumulatedLiterals(ns);
    UnspacedTrim(Accumulated(ns));
  }

  /** The document a fresh editor holds flattens to "". */
  lemma BlankDocumentIsSilent(decode: Decoder)
    ensures TextOf(Tree(BlankDocument), decode) == ""
  {
    var p := Paragraph([]);
    assert Accumulated([]) == "";
    assert ContentText([]) == "";
    assert NodeText(p) == "";
    assert [p][..0] == [];
    assert Accumulated([p]) == "" + "";
  }

  lemma EmptyContentText()
    ensures ContentText([]) == ""
  {
    assert Accumulated([]) == "";
    assert TrimLeft("") == "" && TrimRight("") == "";
  }

  /** A string without whitespace at either end is its own trim. */
  lemma TrimmedAlready(s: string)
    requires s != [] && !IsTrimSpace(s[0]) && !IsTrimSpace(s[|s| - 1])
    ensures Trim(s) == s
  {
    assert TrimLeft(s) == s;
    assert TrimRight(s) == s;
  }

  /** A one-letter text node's flattening: the letter, its space trimmed off. */
  lemma LetterText(c: char)
    requires !IsTrimSpace(c)
    ensures ContentText([TextNode([c])]) == [c]
  {
    var t := TextNode([c]);
    EmptyContentText();
    assert [t][..0] == [];
    assert NodeText(t) == [c] + " " + "" == [c, ' '];
    assert Accumulated([t]) == "" + [c, ' '] == [c, ' '];
    assert TrimLeft([c, ' ']) == [c, ' '];
    assert [c, ' '][..1] == [c];
    assert TrimRight([c, ' ']) == TrimRight([c]) == [c];
  }

  lemma LetterParagraph(c: char)
    requires !IsTrimSpace(c)
    ensures NodeText(Paragraph([TextNode([c])])) == [c]
  {
    LetterText(c);
    assert NodeText(Paragraph([TextNode([c])])) == "" + [c];
  }

  lemma TwoParagraphs(a: Node, b: Node)
    ensures Accumulated([a, b]) == NodeText(a) + NodeText(b)
  {
    var ta, tb := NodeText(a), NodeText(b);
    assert [a][..0] == [];
    assert Accumulated([a]) == Accumulated([]) + ta;
    EmptyLeft(ta);
    assert [a, b][..1] == [a];
    assert Accumulated([a, b]) == Accumulated([a]) + tb;
  }

  lemma EmptyLeft(s: string)
    ensures "" + s == s
  {
  }

  /** Sibling paragraphs are trimmed separately and joined with no separator: `[p["a"], p["b"]]` gives "ab". */
  lemma SiblingParagraphsRunTogether(x: char, y: char, decode: Decoder)
    requires !IsTrimSpace(x) && !IsTrimSpace(y)
    ensures TextOf(Tree(Doc("doc", Some([Paragraph([TextNode([x])]), Paragraph([TextNode([y])])]))), decode) == [x, y]
  {
    LetterParagraph(x);
    LetterParagraph(y);
    TwoParagraphs(Paragraph([TextNode([x])]), Paragraph([TextNode([y])]));
    assert [x] + [y] == [x, y];
    TrimmedAlready([x, y]);
  }
}
