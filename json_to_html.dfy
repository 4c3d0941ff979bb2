/**
 * backend/app/Helpers/JsonToHtml.php: renders the editor tree as an HTML
 * fragment (used for the Word export). `asset()` is the deployment's asset
 * URL resolver, taken as a parameter.
 */
module JsonToHtml {
  import opened Wrappers
  import opened Strings
  import opened Document

  type AssetResolver = string -> string

  // ---------------------------------------------------------------------------
  // htmlspecialchars($s, ENT_QUOTES, 'UTF-8')

  /** One character through `htmlspecialchars`. */
  function EscapeChar(c: char): string {
    if c == '&' then "&amp;"
    else if c == '<' then "&lt;"
    else if c == '>' then "&gt;"
    else if c == '"' then "&quot;"
    else if c == '\'' then "&#039;"
    else [c]
  }

  function Escape(s: string): string
    decreases |s|
  {
    if s == [] then [] else EscapeChar(s[0]) + Escape(s[1..])
  }

  /** The four characters besides `&` that `htmlspecialchars` replaces under ENT_QUOTES; `&` is left out because every entity starts with it. */
  predicate IsMarkupChar(c: char) {
    c == '<' || c == '>' || c == '"' || c == '\''
  }

  /** The markup characters and `&` become entities from `&` to `;`; every other character is kept. */
  lemma EscapeCharEntities(c: char)
    ensures var r := EscapeChar(c);
      && |r| >= 1 && (r == [c] <==> c != '&' && !IsMarkupChar(c))
      && (r != [c] ==> r[0] == '&' && r[|r| - 1] == ';')
  {
  }

  lemma {:induction false} EscapeConcat(a: string, b: string)
    ensures Escape(a + b) == Escape(a) + Escape(b)
    decreases |a|
  {
    if a == [] {
      assert a + b == b;
    } else {
      assert (a + b)[0] == a[0];
      assert (a + b)[1..] == a[1..] + b;
      EscapeConcat(a[1..], b);
    }
  }

  /** An escaped literal never contains a raw `<`, `>`, `"` or `'`. */
  lemma {:induction false} EscapeHasNoMarkup(s: string)
    ensures forall i :: 0 <= i < |Escape(s)| ==> !IsMarkupChar(Escape(s)[i])
    decreases |s|
  {
    if s != [] {
      EscapeHasNoMarkup(s[1..]);
      var e := EscapeChar(s[0]);
      assert forall i :: 0 <= i < |e| ==> !IsMarkupChar(e[i]);
    }
  }

  /** The entity at the start of `s`, if any: the character it stands for and its length. */
  function EntityAt(s: string): Option<(char, nat)> {
    if |s| >= 5 && s[0] == '&' && s[1] == 'a' && s[2] == 'm' && s[3] == 'p' && s[4] == ';' then Some(('&', 5))
    else if |s| >= 4 && s[0] == '&' && s[1] == 'l' && s[2] == 't' && s[3] == ';' then Some(('<', 4))
    else if |s| >= 4 && s[0] == '&' && s[1] == 'g' && s[2] == 't' && s[3] == ';' then Some(('>', 4))
    else if |s| >= 6 && s[0] == '&' && s[1] == 'q' && s[2] == 'u' && s[3] == 'o' && s[4] == 't' && s[5] == ';' then Some(('"', 6))
    else if |s| >= 6 && s[0] == '&' && s[1] == '#' && s[2] == '0' && s[3] == '3' && s[4] == '9' && s[5] == ';' then Some(('\'', 6))
    else None
  }

  /** Decoding of the five entities `Escape` produces (`htmlspecialchars_decode` with ENT_QUOTES). */
  function Unescape(s: string): string
    decreases |s|
  {
    if s == [] then []
    else match EntityAt(s)
      case Some((c, k)) => (if k <= |s| then [c] + Unescape(s[k..]) else [])
      case None => [s[0]] + Unescape(s[1..])
  }

  lemma EntityAtEscape(c: char, rest: string)
    ensures EntityAt(EscapeChar(c) + rest) == if EscapeChar(c) == [c] then None else Some((c, |EscapeChar(c)|))
  {
    var x := EscapeChar(c) + rest;
    if c == '&' {
      assert x[..5] == "&amp;";
    } else if c == '<' {
      assert x[..4] == "&lt;";
    } else if c == '>' {
      assert x[..4] == "&gt;";
    } else if c == '"' {
      assert x[..6] == "&quot;";
    } else if c == '\'' {
      assert x[..6] == "&#039;";
    } else {
      assert x[0] == c;
    }
  }

  /** Escaping loses nothing: decoding the entities gives the literal back. */
  lemma {:induction false} UnescapeEscape(s: string)
    ensures Unescape(Escape(s)) == s
    decreases |s|
  {
    if s != [] {
      var e, rest := EscapeChar(s[0]), Escape(s[1..]);
      var x := e + rest;
      assert Escape(s) == x;
      assert x[|e|..] == rest;
      EntityAtEscape(s[0], rest);
      UnescapeEscape(s[1..]);
      if e == [s[0]] {
        assert x[1..] == rest;
      }
    }
  }

  // ---------------------------------------------------------------------------
  // Marks

  /** The element a wrapping mark puts around the text (bold, italic, underline, subscript, superscript). */
  function MarkTag(kind: string): Option<string> {
    if kind == "bold" then Some("strong")
    else if kind == "italic" then Some("em")
    else if kind == "underline" then Some("u")
    else if kind == "subscript" then Some("sub")
    else if kind == "superscript" then Some("sup")
    else None
  }

  /** What a styling mark appends to the inline style (color, textStyle); "" for every other mark. */
  function MarkStyle(m: Mark): string {
    if m.kind == "color" then "color:" + m.color + ";"
    else if m.kind == "textStyle" then
      (if PhpTruthy(m.fontSize) then "font-size:" + m.fontSize + ";" else "")
      + (if PhpTruthy(m.fontFamily) then "font-family:" + m.fontFamily + ";" else "")
    else ""
  }

  function Open(tag: string): string {
    "<" + tag + ">"
  }

  function Close(tag: string): string {
    "</" + tag + ">"
  }

  /** One pass of the mark loop: a wrapping mark wraps the running text, a styling mark extends the style. */
  function ApplyMark(text: string, style: string, m: Mark): (string, string) {
    match MarkTag(m.kind)
    case Some(tag) => (Open(tag) + text + Close(tag), style)
    case None => (text, style + MarkStyle(m))
  }

  /** The mark loop over `marks`, in list order. */
  function ApplyMarks(text: string, style: string, marks: seq<Mark>): (string, string)
    decreases |marks|
  {
    if marks == [] then (text, style)
    else
      var acc := ApplyMarks(text, style, marks[..|marks| - 1]);
      ApplyMark(acc.0, acc.1, marks[|marks| - 1])
  }

  function OpenTag(m: Mark): string {
    match MarkTag(m.kind)
    case Some(tag) => Open(tag)
    case None => ""
  }

  function CloseTag(m: Mark): string {
    match MarkTag(m.kind)
    case Some(tag) => Close(tag)
    case None => ""
  }

  lemma Assoc(a: string, b: string, c: string, d: string, e: string)
    ensures a + (b + c + d) + e == (a + b) + c + (d + e)
  {
  }

  lemma Assoc4(a: string, b: string, c: string, d: string)
    ensures a + b + c + d == a + (b + (c + d))
  {
  }

  lemma Assoc6(a: string, b: string, c: string, d: string, e: string, f: string)
    ensures a + b + c + d + e + f == a + (b + (c + (d + (e + f))))
  {
    Assoc4(a + b, c, d, e + f);
    Assoc4(a, b, c, d + (e + f));
  }

  lemma Assoc7(a: string, b: string, c: string, d: string, e: string, f: string, g: string)
    ensures a + b + c + d + e + f + g == a + (b + (c + (d + (e + (f + g)))))
  {
    Assoc6(a, b, c, d, e, f + g);
  }

  lemma Assoc3(a: string, b: string, c: string)
    ensures (a + b) + c == a + (b + c)
  {
  }

  /** The opening tags of the wrapping marks, the last-listed mark's first (outermost). */
  function OpenTags(marks: seq<Mark>): string
    decreases |marks|
  {
    if marks == [] then "" else OpenTag(marks[|marks| - 1]) + OpenTags(marks[..|marks| - 1])
  }

  /** The closing tags of the wrapping marks, the first-listed mark's first (innermost). */
  function CloseTags(marks: seq<Mark>): string
    decreases |marks|
  {
    if marks == [] then "" else CloseTags(marks[..|marks| - 1]) + CloseTag(marks[|marks| - 1])
  }

  /** The inline style: the styling marks' contributions, concatenated in list order. */
  function StyleOf(marks: seq<Mark>): string
    decreases |marks|
  {
    if marks == [] then "" else StyleOf(marks[..|marks| - 1]) + MarkStyle(marks[|marks| - 1])
  }

  /** One mark either wraps (and adds no style) or styles (and adds no tag). */
  lemma ApplyMarkParts(text: string, style: string, m: Mark)
    ensures ApplyMark(text, style, m) == (OpenTag(m) + text + CloseTag(m), style + MarkStyle(m))
  {
    match MarkTag(m.kind) {
      case Some(tag) =>
        assert m.kind != "color" && m.kind != "textStyle";
        assert style + MarkStyle(m) == style;
      case None =>
        assert OpenTag(m) + text + CloseTag(m) == text;
    }
  }

  /**
   * The mark loop nests the wrapping marks around the text, later marks
   * outside earlier ones, and independently builds the style from the
   * styling marks in order; every other mark changes nothing.
   */
  lemma {:induction false} MarksNest(text: string, style: string, marks: seq<Mark>)
    ensures ApplyMarks(text, style, marks) == (OpenTags(marks) + text + CloseTags(marks), style + StyleOf(marks))
    decreases |marks|
  {
    if marks != [] {
      var init, m := marks[..|marks| - 1], marks[|marks| - 1];
      MarksNest(text, style, init);
      var t, st := OpenTags(init) + text + CloseTags(init), style + StyleOf(init);
      assert ApplyMarks(text, style, init) == (t, st);
      assert ApplyMarks(text, style, marks) == ApplyMark(t, st, m);
      ApplyMarkParts(t, st, m);
      var o, c, ms := OpenTag(m), CloseTag(m), MarkStyle(m);
      assert OpenTags(marks) == o + OpenTags(init);
      assert CloseTags(marks) == CloseTags(init) + c;
      assert StyleOf(marks) == StyleOf(init) + ms;
      Assoc(o, OpenTags(init), text, CloseTags(init), c);
      Assoc3(style, StyleOf(init), ms);
    } else {
      assert "" + text + "" == text && style + "" == style;
    }
  }

  // ---------------------------------------------------------------------------
  // Nodes

  /** The `src` an image gets: a non-empty relative path goes through the asset resolver. */
  function ImageSrc(src: string, asset: AssetResolver): string {
    if PhpTruthy(src) && !StartsWith(src, "http") then asset(src) else src
  }

  /** The `img` tag of an image node, without its angle brackets. */
  function ImageTag(src: string, alt: string, asset: AssetResolver): string {
    "img src='" + ImageSrc(src, asset) + "' alt='" + alt + "' style='max-width:100%; margin:10px 0;' /"
  }

  /** `<span style="...">` around the escaped, mark-wrapped literal. */
  function TextHtml(n: Node): string {
    var acc := ApplyMarks(Escape(n.text.GetOr("")), "", n.marks);
    Open("span style=\"" + acc.1 + "\"") + acc.0 + Close("span")
  }

  function ParagraphStyle(align: string): string {
    if PhpTruthy(align) then "text-align:" + align + ";" else ""
  }

  function CheckedToken(checked: bool): string {
    if checked then "checked" else ""
  }

  const ChartLabel := "Chart block (to be rendered)"

  const ChartPlaceholder := Open("div class='chart-placeholder'") + "\U{1F4CA} " + Open("i") + ChartLabel + Close("i") + Close("div")

  /** The `case` labels of the renderer's `switch ($node['type'])`; every other type is `Unknown`. */
  datatype Kind = TextKind | Container(tag: Element) | TaskItem | Image | MathBlock | ChartBlock | Unknown

  /** The node types that render as a single element around their children. */
  datatype Element = Heading | ParagraphElement | BulletList | OrderedList | ListItem | TaskList

  function KindOf(t: string): Kind {
    if t == "text" then TextKind
    else if t == "heading" then Container(Heading)
    else if t == "paragraph" then Container(ParagraphElement)
    else if t == "bulletList" then Container(BulletList)
    else if t == "orderedList" then Container(OrderedList)
    else if t == "listItem" then Container(ListItem)
    else if t == "taskList" then Container(TaskList)
    else if t == "taskItem" then TaskItem
    else if t == "image" then Image
    else if t == "mathBlock" then MathBlock
    else if t == "chartBlock" then ChartBlock
    else Unknown
  }

  /** A container's start tag (without its angle brackets) and the name its end tag closes. */
  function ContainerTags(k: Kind, a: Attrs): (string, string)
    requires k.Container?
  {
    match k.tag
    case Heading =>
      var h := "h" + IntToString(a.level.GetOr(2));
      (h, h)
    case ParagraphElement => ("p style='" + ParagraphStyle(a.textAlign) + "'", "p")
    case BulletList => ("ul", "ul")
    case OrderedList => ("ol", "ol")
    case ListItem => ("li", "li")
    case TaskList => ("ul class='task-list'", "ul")
  }

  /** With an alignment free of `>`, neither container tag holds one. */
  lemma ContainerTagsHaveNoGt(k: Kind, a: Attrs)
    requires k.Container? && (k.tag.ParagraphElement? ==> '>' !in a.textAlign)
    ensures '>' !in ContainerTags(k, a).0 && '>' !in ContainerTags(k, a).1
  {
    match k.tag {
      case Heading =>
        var h := "h" + IntToString(a.level.GetOr(2));
        assert '>' !in h;
      case ParagraphElement =>
        assert '>' !in ParagraphStyle(a.textAlign);
      case _ =>
    }
  }

  /** The HTML of one node once its children's HTML is known (the `switch` of `renderNode`). */
  function Wrapped(n: Node, children: string, asset: AssetResolver): string {
    var a := n.attrs;
    match KindOf(n.kind)
    case TextKind => TextHtml(n)
    case Container(_) =>
      var (o, c) := ContainerTags(KindOf(n.kind), a);
      Open(o) + children + Close(c)
    case TaskItem =>
      Open("li") + Open("input type='checkbox' disabled " + CheckedToken(a.checked)) + " " + children + Close("li")
    case Image => Open(ImageTag(a.src, a.alt, asset))
    case MathBlock => Open("div class='math-block'") + "\\[" + a.latex + "\\]" + Close("div")
    case ChartBlock => ChartPlaceholder
    case Unknown => children
  }

  function NodeHtml(n: Node, asset: AssetResolver): string
    decreases n
  {
    Wrapped(n, NodesHtml(n.content, asset), asset)
  }

  /** The in-order concatenation of the nodes' renderings. */
  function NodesHtml(ns: seq<Node>, asset: AssetResolver): string
    decreases ns
  {
    if ns == [] then "" else NodesHtml(ns[..|ns| - 1], asset) + NodeHtml(ns[|ns| - 1], asset)
  }

  /** `JsonToHtml::render`: "" when the root content is missing or not an array. */
  function DocumentHtml(v: Value, decode: Decoder, asset: AssetResolver): string {
    match TopContent(v, decode)
    case None => ""
    case Some(ns) => NodesHtml(ns, asset)
  }

  // ---------------------------------------------------------------------------
  // The renderer as the PHP writes it: loops that accumulate strings.

  /** `renderNode`: renders the children first, then applies the node's own wrapper. */
  method RenderNode(node: Node, asset: AssetResolver) returns (html: string)
    ensures html == NodeHtml(node, asset)
    decreases node
  {
    var children := "";
    var i := 0;
    while i < |node.content|
      invariant 0 <= i <= |node.content|
      invariant children == NodesHtml(node.content[..i], asset)
    {
      var child := RenderNode(node.content[i], asset);
      assert node.content[..i + 1][..i] == node.content[..i];
      children := children + child;
      i := i + 1;
    }
    assert node.content[..i] == node.content;
    if KindOf(node.kind) == TextKind {
      var text := Escape(node.text.GetOr(""));
      var style := "";
      var k := 0;
      while k < |node.marks|
        invariant 0 <= k <= |node.marks|
        invariant (text, style) == ApplyMarks(Escape(node.text.GetOr("")), "", node.marks[..k])
      {
        assert node.marks[..k + 1][..k] == node.marks[..k];
        var m := node.marks[k];
        match MarkTag(m.kind) {
          case Some(tag) => text := Open(tag) + text + Close(tag);
          case None => style := style + MarkStyle(m);
        }
        k := k + 1;
      }
      assert node.marks[..k] == node.marks;
      html := Open("span style=\"" + style + "\"") + text + Close("span");
    } else {
      html := Wrapped(node, children, asset);
    }
  }

  /** `render`: decodes a non-array input, then concatenates the top-level renderings. */
  method Render(v: Value, decode: Decoder, asset: AssetResolver) returns (html: string)
    ensures TopContent(v, decode).None? ==> html == ""
    ensures TopContent(v, decode).Some? ==> html == NodesHtml(TopContent(v, decode).value, asset)
  {
    var json := Decoded(v, decode);
    if json.None? || json.value.content.None? {
      return "";
    }
    var ns := json.value.content.value;
    html := "";
    var i := 0;
    while i < |ns|
      invariant 0 <= i <= |ns|
      invariant html == NodesHtml(ns[..i], asset)
    {
      var h := RenderNode(ns[i], asset);
      assert ns[..i + 1][..i] == ns[..i];
      html := html + h;
      i := i + 1;
    }
    assert ns[..i] == ns;
  }

  // ---------------------------------------------------------------------------
  // What a reader of the exported fragment sees: its character data.

  /** Drops everything up to and including the first `>`. */
  function SkipTag(s: string): (r: string)
    ensures |r| <= |s|
    decreases |s|
  {
    if s == [] then [] else if s[0] == '>' then s[1..] else SkipTag(s[1..])
  }

  /** The character data of an HTML fragment: every `<...>` tag removed. */
  function StripTags(s: string): string
    decreases |s|
  {
    if s == [] then []
    else if s[0] == '<' then StripTags(SkipTag(s[1..]))
    else [s[0]] + StripTags(s[1..])
  }

  lemma {:induction false} SkipPast(x: string, rest: string)
    requires '>' !in x
    ensures SkipTag(x + ">" + rest) == rest
    decreases |x|
  {
    var s := x + ">" + rest;
    if x == [] {
      assert s[0] == '>' && s[1..] == rest;
    } else {
      assert s[0] == x[0] && s[1..] == x[1..] + ">" + rest;
      SkipPast(x[1..], rest);
    }
  }

  lemma StripOpen(tag: string, rest: string)
    requires '>' !in tag
    ensures StripTags(Open(tag) + rest) == StripTags(rest)
  {
    var s := Open(tag) + rest;
    assert s[0] == '<' && s[1..] == tag + ">" + rest;
    SkipPast(tag, rest);
  }

  lemma StripClose(tag: string, rest: string)
    requires '>' !in tag
    ensures StripTags(Close(tag) + rest) == StripTags(rest)
  {
    assert Close(tag) == Open("/" + tag);
    StripOpen("/" + tag, rest);
  }

  /** Text without a `<` is character data as it stands. */
  lemma {:induction false} StripPlain(t: string, rest: string)
    requires '<' !in t
    ensures StripTags(t + rest) == t + StripTags(rest)
    decreases |t|
  {
    if t == [] {
      assert t + rest == rest;
    } else {
      var s := t + rest;
      assert s[0] == t[0] && s[1..] == t[1..] + rest;
      StripPlain(t[1..], rest);
    }
  }

  lemma StripOpenTag(m: Mark, rest: string)
    ensures StripTags(OpenTag(m) + rest) == StripTags(rest)
  {
    match MarkTag(m.kind) {
      case Some(tag) =>
        assert '>' !in tag;
        StripOpen(tag, rest);
      case None =>
        assert OpenTag(m) + rest == rest;
    }
  }

  lemma StripCloseTag(m: Mark, rest: string)
    ensures StripTags(CloseTag(m) + rest) == StripTags(rest)
  {
    match MarkTag(m.kind) {
      case Some(tag) =>
        assert '>' !in tag;
        StripClose(tag, rest);
      case None =>
        assert CloseTag(m) + rest == rest;
    }
  }

  lemma {:induction false} StripOpenTags(marks: seq<Mark>, rest: string)
    ensures StripTags(OpenTags(marks) + rest) == StripTags(rest)
    decreases |marks|
  {
    if marks == [] {
      assert OpenTags(marks) + rest == rest;
    } else {
      var init, m := marks[..|marks| - 1], marks[|marks| - 1];
      assert OpenTags(marks) + rest == OpenTag(m) + (OpenTags(init) + rest);
      StripOpenTags(init, rest);
      StripOpenTag(m, OpenTags(init) + rest);
    }
  }

  lemma {:induction false} StripCloseTags(marks: seq<Mark>, rest: string)
    ensures StripTags(CloseTags(marks) + rest) == StripTags(rest)
    decreases |marks|
  {
    if marks == [] {
      assert CloseTags(marks) + rest == rest;
    } else {
      var init, m := marks[..|marks| - 1], marks[|marks| - 1];
      assert CloseTags(marks) + rest == CloseTags(init) + (CloseTag(m) + rest);
      StripCloseTag(m, rest);
      StripCloseTags(init, CloseTag(m) + rest);
    }
  }

  /** A mark whose attribute values cannot end the `style` attribute's tag early. */
  predicate SafeMark(m: Mark) {
    '>' !in m.color && '>' !in m.fontSize && '>' !in m.fontFamily
  }

  lemma MarkStyleHasNoGt(m: Mark)
    requires SafeMark(m)
    ensures '>' !in MarkStyle(m)
  {
    if m.kind == "textStyle" {
      var a := if PhpTruthy(m.fontSize) then "font-size:" + m.fontSize + ";" else "";
      var b := if PhpTruthy(m.fontFamily) then "font-family:" + m.fontFamily + ";" else "";
      assert '>' !in a && '>' !in b;
      assert MarkStyle(m) == a + b;
    }
  }

  lemma {:induction false} StyleHasNoGt(marks: seq<Mark>)
    requires forall i :: 0 <= i < |marks| ==> SafeMark(marks[i])
    ensures '>' !in StyleOf(marks)
    decreases |marks|
  {
    if marks != [] {
      var init, m := marks[..|marks| - 1], marks[|marks| - 1];
      assert forall i :: 0 <= i < |init| ==> init[i] == marks[i];
      StyleHasNoGt(init);
      assert SafeMark(m);
      MarkStyleHasNoGt(m);
      assert StyleOf(marks) == StyleOf(init) + MarkStyle(m);
    }
  }

  /**
   * A tree whose attribute values the renderer interpolates without
   * escaping keep to their attribute: no `>` inside a tag, no `<` in the
   * LaTeX source written as character data.
   */
  predicate SafeNode(n: Node, asset: AssetResolver)
    decreases n
  {
    var a := n.attrs;
    match KindOf(n.kind)
    case TextKind => forall i :: 0 <= i < |n.marks| ==> SafeMark(n.marks[i])
    case Container(ParagraphElement) => '>' !in a.textAlign && SafeNodes(n.content, asset)
    case Image => '>' !in ImageTag(a.src, a.alt, asset)
    case MathBlock => '<' !in a.latex
    case ChartBlock => true
    case _ => SafeNodes(n.content, asset)
  }

  predicate SafeNodes(ns: seq<Node>, asset: AssetResolver)
    decreases ns
  {
    forall i :: 0 <= i < |ns| ==> SafeNode(ns[i], asset)
  }

  /**
   * The character data a reader sees for a node: a text node's escaped
   * literal (its own children are not rendered), a task item's space before
   * its children, nothing for an image, the delimited LaTeX for a math block,
   * the placeholder label for a chart, and the children for everything else.
   */
  function Visible(n: Node): string
    decreases n
  {
    match KindOf(n.kind)
    case TextKind => Escape(n.text.GetOr(""))
    case TaskItem => " " + VisibleAll(n.content)
    case Image => ""
    case MathBlock => "\\[" + n.attrs.latex + "\\]"
    case ChartBlock => "\U{1F4CA} " + ChartLabel
    case _ => VisibleAll(n.content)
  }

  function VisibleAll(ns: seq<Node>): string
    decreases ns
  {
    if ns == [] then "" else VisibleAll(ns[..|ns| - 1]) + Visible(ns[|ns| - 1])
  }

  /** The element lemma: an open tag and a close tag around `inner` leave `inner`'s character data. */
  lemma StripElement(a: string, inner: string, b: string, rest: string)
    requires '>' !in a && '>' !in b
    ensures StripTags(Open(a) + inner + Close(b) + rest) == StripTags(inner + (Close(b) + rest))
    ensures StripTags(Close(b) + rest) == StripTags(rest)
  {
    assert Open(a) + inner + Close(b) + rest == Open(a) + (inner + (Close(b) + rest));
    StripOpen(a, inner + (Close(b) + rest));
    StripClose(b, rest);
  }

  /** A text node's `span`: its character data is the plain text `e` between the mark tags. */
  lemma SpanStrip(style: string, marks: seq<Mark>, e: string, rest: string)
    requires '>' !in style && '<' !in e
    ensures StripTags(Open("span style=\"" + style + "\"") + OpenTags(marks) + e + CloseTags(marks) + Close("span") + rest)
         == e + StripTags(rest)
  {
    var st := "span style=\"" + style + "\"";
    assert '>' !in st;
    var t := OpenTags(marks) + e + CloseTags(marks);
    var r1 := Close("span") + rest;
    assert Open(st) + OpenTags(marks) + e + CloseTags(marks) + Close("span") + rest == Open(st) + t + Close("span") + rest;
    StripElement(st, t, "span", rest);
    Assoc4(OpenTags(marks), e, CloseTags(marks), r1);
    StripOpenTags(marks, e + (CloseTags(marks) + r1));
    StripPlain(e, CloseTags(marks) + r1);
    StripCloseTags(marks, r1);
  }

  lemma TextStrip(n: Node, asset: AssetResolver, rest: string)
    requires KindOf(n.kind) == TextKind && SafeNode(n, asset)
    ensures StripTags(NodeHtml(n, asset) + rest) == Visible(n) + StripTags(rest)
  {
    var e := Escape(n.text.GetOr(""));
    TextNodeShape(n, asset);
    StyleHasNoGt(n.marks);
    EscapeHasNoMarkup(n.text.GetOr(""));
    assert '<' !in e;
    SpanStrip(StyleOf(n.marks), n.marks, e, rest);
    assert Visible(n) == e;
  }

  /** The rendering of a task item: the list item, the disabled checkbox, a space, the children. */
  lemma TaskItemShape(n: Node, asset: AssetResolver)
    requires KindOf(n.kind) == TaskItem
    ensures NodeHtml(n, asset)
         == Open("li") + Open("input type='checkbox' disabled " + CheckedToken(n.attrs.checked)) + " " + NodesHtml(n.content, asset) + Close("li")
  {
  }

  lemma CheckboxStrip(checked: bool, c: string, rest: string)
    ensures var inp := "input type='checkbox' disabled " + CheckedToken(checked);
      StripTags(Open("li") + Open(inp) + " " + c + Close("li") + rest) == " " + StripTags(c + (Close("li") + rest))
  {
    var inp := "input type='checkbox' disabled " + CheckedToken(checked);
    var r1 := Close("li") + rest;
    assert '>' !in inp;
    Assoc6(Open("li"), Open(inp), " ", c, Close("li"), rest);
    StripOpen("li", Open(inp) + (" " + (c + r1)));
    StripOpen(inp, " " + (c + r1));
    StripPlain(" ", c + r1);
  }

  lemma TaskItemStrip(n: Node, asset: AssetResolver, rest: string)
    requires KindOf(n.kind) == TaskItem && SafeNodes(n.content, asset)
    ensures StripTags(NodeHtml(n, asset) + rest) == Visible(n) + StripTags(rest)
    decreases n, 0
  {
    var r1 := Close("li") + rest;
    var v := VisibleAll(n.content);
    TaskItemShape(n, asset);
    CheckboxStrip(n.attrs.checked, NodesHtml(n.content, asset), rest);
    NodesStrip(n.content, asset, r1);
    StripClose("li", rest);
    assert StripTags(NodeHtml(n, asset) + rest) == " " + (v + StripTags(rest));
    Assoc3(" ", v, StripTags(rest));
    assert Visible(n) == " " + v;
  }

  /** The rendering of an image: one self-closing `img` tag. */
  lemma ImageShape(n: Node, asset: AssetResolver)
    requires KindOf(n.kind) == Image
    ensures NodeHtml(n, asset) == Open(ImageTag(n.attrs.src, n.attrs.alt, asset))
  {
  }

  lemma ImageStrip(n: Node, asset: AssetResolver, rest: string)
    requires KindOf(n.kind) == Image && SafeNode(n, asset)
    ensures StripTags(NodeHtml(n, asset) + rest) == Visible(n) + StripTags(rest)
  {
    ImageShape(n, asset);
    var x := ImageTag(n.attrs.src, n.attrs.alt, asset);
    assert '>' !in x;
    StripOpen(x, rest);
    assert Visible(n) == "";
  }

  /** The rendering of a math block: the LaTeX source between `\[` and `\]` in a `div`. */
  lemma MathShape(n: Node, asset: AssetResolver)
    requires KindOf(n.kind) == MathBlock
    ensures NodeHtml(n, asset) == Open("div class='math-block'") + ("\\[" + n.attrs.latex + "\\]") + Close("div")
  {
  }

  lemma MathStrip(n: Node, asset: AssetResolver, rest: string)
    requires KindOf(n.kind) == MathBlock && SafeNode(n, asset)
    ensures StripTags(NodeHtml(n, asset) + rest) == Visible(n) + StripTags(rest)
  {
    var m := "\\[" + n.attrs.latex + "\\]";
    assert '<' !in m;
    MathShape(n, asset);
    var o, c := Open("div class='math-block'"), Close("div");
    Assoc4(o, m, c, rest);
    StripOpen("div class='math-block'", m + (c + rest));
    StripPlain(m, c + rest);
    StripClose("div", rest);
    assert Visible(n) == m;
  }

  /** The chart placeholder's character data: the chart icon and the label. */
  lemma PlaceholderStrip(rest: string)
    ensures StripTags(ChartPlaceholder + rest) == "\U{1F4CA} " + ChartLabel + StripTags(rest)
  {
    var o, icon, oi, ci, c := Open("div class='chart-placeholder'"), "\U{1F4CA} ", Open("i"), Close("i"), Close("div");
    var r1 := ci + (c + rest);
    Assoc7(o, icon, oi, ChartLabel, ci, c, rest);
    StripOpen("div class='chart-placeholder'", icon + (oi + (ChartLabel + r1)));
    StripPlain(icon, oi + (ChartLabel + r1));
    StripOpen("i", ChartLabel + r1);
    StripPlain(ChartLabel, r1);
    StripClose("i", c + rest);
    StripClose("div", rest);
    Assoc3(icon, ChartLabel, StripTags(rest));
  }

  lemma ChartShape(n: Node, asset: AssetResolver)
    requires KindOf(n.kind) == ChartBlock
    ensures NodeHtml(n, asset) == ChartPlaceholder && Visible(n) == "\U{1F4CA} " + ChartLabel
  {
  }

  lemma ChartStrip(n: Node, asset: AssetResolver, rest: string)
    requires KindOf(n.kind) == ChartBlock
    ensures StripTags(NodeHtml(n, asset) + rest) == Visible(n) + StripTags(rest)
  {
    ChartShape(n, asset);
    PlaceholderStrip(rest);
  }

  /** A container renders as its element around its children's HTML; neither tag holds a `>` when the node is safe. */
  lemma ContainerShape(n: Node, asset: AssetResolver)
    requires KindOf(n.kind).Container? && SafeNode(n, asset)
    ensures var (o, c) := ContainerTags(KindOf(n.kind), n.attrs);
      && NodeHtml(n, asset) == Open(o) + NodesHtml(n.content, asset) + Close(c)
      && '>' !in o && '>' !in c
      && SafeNodes(n.content, asset) && Visible(n) == VisibleAll(n.content)
  {
    ContainerTagsHaveNoGt(KindOf(n.kind), n.attrs);
  }

  /** Removing the tags of a node's rendering leaves exactly its visible text. */
  lemma {:induction false} NodeStrip(n: Node, asset: AssetResolver, rest: string)
    requires SafeNode(n, asset)
    ensures StripTags(NodeHtml(n, asset) + rest) == Visible(n) + StripTags(rest)
    decreases n, 1
  {
    var c := NodesHtml(n.content, asset);
    match KindOf(n.kind) {
      case TextKind => TextStrip(n, asset, rest);
      case TaskItem => TaskItemStrip(n, asset, rest);
      case Image => ImageStrip(n, asset, rest);
      case MathBlock => MathStrip(n, asset, rest);
      case ChartBlock => ChartStrip(n, asset, rest);
      case Unknown =>
        assert NodeHtml(n, asset) == c;
        NodesStrip(n.content, asset, rest);
      case Container(_) =>
        var (o, cl) := ContainerTags(KindOf(n.kind), n.attrs);
        ContainerShape(n, asset);
        StripElement(o, c, cl, rest);
        NodesStrip(n.content, asset, Close(cl) + rest);
    }
  }

  lemma {:induction false} NodesStrip(ns: seq<Node>, asset: AssetResolver, rest: string)
    requires SafeNodes(ns, asset)
    ensures StripTags(NodesHtml(ns, asset) + rest) == VisibleAll(ns) + StripTags(rest)
    decreases ns, 2
  {
    if ns == [] {
      assert NodesHtml(ns, asset) + rest == rest;
    } else {
      var init, last := ns[..|ns| - 1], ns[|ns| - 1];
      assert SafeNodes(init, asset) by {
        forall i | 0 <= i < |init| ensures SafeNode(init[i], asset) {
          assert init[i] == ns[i];
        }
      }
      var h := NodeHtml(last, asset);
      assert NodesHtml(ns, asset) + rest == NodesHtml(init, asset) + (h + rest);
      NodesStrip(init, asset, h + rest);
      NodeStrip(last, asset, rest);
    }
  }

  /** For a tree with safe attribute values, the exported fragment's character data is the tree's visible text. */
  lemma ExportShowsVisibleText(v: Value, decode: Decoder, asset: AssetResolver)
    requires TopContent(v, decode).Some? && SafeNodes(TopContent(v, decode).value, asset)
    ensures StripTags(DocumentHtml(v, decode, asset)) == VisibleAll(TopContent(v, decode).value)
  {
    var ns := TopContent(v, decode).value;
    NodesStrip(ns, asset, "");
    assert NodesHtml(ns, asset) + "" == NodesHtml(ns, asset);
  }

  /** Prose: text leaves inside headings, paragraphs and lists, with no widget the renderer replaces. */
  predicate Prose(n: Node)
    decreases n
  {
    if n.kind == "text" then n.content == []
    else
      var k := KindOf(n.kind);
      !k.TaskItem? && !k.Image? && !k.MathBlock? && !k.ChartBlock? && ProseAll(n.content)
  }

  predicate ProseAll(ns: seq<Node>)
    decreases ns
  {
    forall i :: 0 <= i < |ns| ==> Prose(ns[i])
  }

  lemma {:induction false} ProseVisible(n: Node)
    requires Prose(n)
    ensures Visible(n) == Escape(Literals(n))
    decreases n, 1
  {
    if n.kind == "text" {
      var t := n.text.GetOr("");
      assert LiteralsAll(n.content) == "";
      assert Literals(n) == t + "" == t;
      assert Visible(n) == Escape(t);
    } else {
      ProseVisibleAll(n.content);
      assert Literals(n) == "" + LiteralsAll(n.content) == LiteralsAll(n.content);
      assert Visible(n) == VisibleAll(n.content);
    }
  }

  lemma {:induction false} ProseVisibleAll(ns: seq<Node>)
    requires ProseAll(ns)
    ensures VisibleAll(ns) == Escape(LiteralsAll(ns))
    decreases ns, 2
  {
    if ns != [] {
      var init, last := ns[..|ns| - 1], ns[|ns| - 1];
      assert ProseAll(init) by {
        forall i | 0 <= i < |init| ensures Prose(init[i]) {
          assert init[i] == ns[i];
        }
      }
      ProseVisibleAll(init);
      ProseVisible(last);
      EscapeConcat(LiteralsAll(init), Literals(last));
    }
  }

  /**
   * The export loses no prose: for a prose document with safe attribute
   * values, removing the tags and decoding the entities of the exported
   * fragment gives back the document's literals in order.
   */
  lemma ExportKeepsProse(v: Value, decode: Decoder, asset: AssetResolver)
    requires TopContent(v, decode).Some?
    requires SafeNodes(TopContent(v, decode).value, asset) && ProseAll(TopContent(v, decode).value)
    ensures Unescape(StripTags(DocumentHtml(v, decode, asset))) == LiteralsAll(TopContent(v, decode).value)
  {
    var ns := TopContent(v, decode).value;
    ExportShowsVisibleText(v, decode, asset);
    ProseVisibleAll(ns);
    UnescapeEscape(LiteralsAll(ns));
  }

  // ---------------------------------------------------------------------------
  // Consequences for single nodes.

  /**
   * A text node renders as its style attribute (the styling marks in
   * order), the wrapping marks' tags nested around the escaped literal, and
   * nothing of its children.
   */
  lemma TextNodeShape(n: Node, asset: AssetResolver)
    requires n.kind == "text"
    ensures NodeHtml(n, asset)
         == Open("span style=\"" + StyleOf(n.marks) + "\"")
            + OpenTags(n.marks) + Escape(n.text.GetOr("")) + CloseTags(n.marks)
            + Close("span")
  {
    assert NodeHtml(n, asset) == TextHtml(n);
    TextHtmlShape(n);
  }

  lemma TextHtmlShape(n: Node)
    ensures TextHtml(n)
         == Open("span style=\"" + StyleOf(n.marks) + "\"")
            + OpenTags(n.marks) + Escape(n.text.GetOr("")) + CloseTags(n.marks)
            + Close("span")
  {
    var e := Escape(n.text.GetOr(""));
    MarksNest(e, "", n.marks);
    assert "" + StyleOf(n.marks) == StyleOf(n.marks);
    var o := Open("span style=\"" + StyleOf(n.marks) + "\"");
    assert TextHtml(n) == o + (OpenTags(n.marks) + e + CloseTags(n.marks)) + Close("span");
    Assoc5(o, OpenTags(n.marks), e, CloseTags(n.marks), Close("span"));
  }

  lemma Assoc5(a: string, b: string, c: string, d: string, e: string)
    ensures a + (b + c + d) + e == a + b + c + d + e
  {
  }

  const Bold := Mark("bold", "", "", "")
  const Italic := Mark("italic", "", "", "")

  lemma Regroup(a: string, b: string, c: string, d: string, e: string, f: string, g: string)
    ensures a + (b + c) + d + (e + f) + g == a + b + c + d + e + f + g
  {
  }

  /** The tags and style of `[bold, italic]`. */
  lemma BoldItalicMarks()
    ensures OpenTags([Bold, Italic]) == Open("em") + Open("strong")
    ensures CloseTags([Bold, Italic]) == Close("strong") + Close("em")
    ensures StyleOf([Bold, Italic]) == ""
  {
    var ms := [Bold, Italic];
    assert ms[..1] == [Bold];
    assert [Bold][..0] == [];
    assert OpenTags([Bold]) == Open("strong") + "" == Open("strong");
    assert CloseTags([Bold]) == "" + Close("strong") == Close("strong");
    assert StyleOf([Bold]) == "" + "" == "";
  }

  /** `[bold, italic]`: the later mark is the outer element. */
  lemma BoldThenItalic(t: string, asset: AssetResolver)
    ensures NodeHtml(Node("text", [], Some(t), [Bold, Italic], NoAttrs), asset)
         == Open("span style=\"\"") + Open("em") + Open("strong") + Escape(t) + Close("strong") + Close("em") + Close("span")
  {
    var n := Node("text", [], Some(t), [Bold, Italic], NoAttrs);
    TextNodeShape(n, asset);
    BoldItalicMarks();
    var sp := "span style=\"\"";
    assert "span style=\"" + StyleOf(n.marks) + "\"" == sp;
    Regroup(Open(sp), Open("em"), Open("strong"), Escape(t), Close("strong"), Close("em"), Close("span"));
  }

  /** A heading without a level is an `h2`. */
  lemma HeadingDefaultsToH2(children: seq<Node>, asset: AssetResolver)
    ensures NodeHtml(Node("heading", children, None, [], NoAttrs), asset)
         == Open("h2") + NodesHtml(children, asset) + Close("h2")
  {
    var n := Node("heading", children, None, [], NoAttrs);
    assert KindOf(n.kind) == Container(Heading);
    assert IntToString(2) == "2";
    assert "h" + "2" == "h2";
    assert NodeHtml(n, asset) == Wrapped(n, NodesHtml(children, asset), asset);
  }

  /**
   * The renderer reads `attrs.latex` only: whatever formula the editor
   * stored under `attrs.formula`, a math block without `latex` exports as
   * an empty display.
   */
  lemma MathBlockIgnoresFormula(formula: string, children: seq<Node>, asset: AssetResolver)
    ensures NodeHtml(Node("mathBlock", children, None, [], NoAttrs.(formula := formula)), asset)
         == Open("div class='math-block'") + "\\[\\]" + Close("div")
  {
    var n := Node("mathBlock", children, None, [], NoAttrs.(formula := formula));
    MathShape(n, asset);
    assert n.attrs.latex == "";
    assert "\\[" + "" + "\\]" == "\\[\\]";
  }

  /** An unknown node type is transparent: only its children are rendered. */
  lemma UnknownTypeIsTransparent(n: Node, asset: AssetResolver)
    requires n.kind !in {"text", "heading", "paragraph", "bulletList", "orderedList", "listItem",
                         "taskList", "taskItem", "image", "mathBlock", "chartBlock"}
    ensures NodeHtml(n, asset) == NodesHtml(n.content, asset)
  {
  }
}
