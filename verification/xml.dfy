/** XML output of the API server, and a strict reader for the elements and text it writes. */
module Xml {
  import opened JsText

  datatype Entry = Entry(key: string, value: Value)

  /** A response body; a scalar is already the text of its string conversion. */
  datatype Value = List(items: seq<Value>) | Record(entries: seq<Entry>) | Scalar(text: string)

  // ---- writing ----

  function Replace(s: string, c: char, entity: string): string {
    if s == "" then "" else (if s[0] == c then entity else [s[0]]) + Replace(s[1..], c, entity)
  }

  function EscapeMarkup(s: string): string {
    Replace(Replace(Replace(Replace(s, '<', "&lt;"), '>', "&gt;"), '"', "&quot;"), '\'', "&apos;")
  }

  /** Five replacements over the whole text, one after the other, ampersands first. */
  function Escape(s: string): string { EscapeMarkup(Replace(s, '&', "&amp;")) }

  predicate Letter(c: char) { 'a' <= c <= 'z' || 'A' <= c <= 'Z' }

  predicate NameChar(c: char) { Letter(c) || '0' <= c <= '9' || c == '_' || c == '.' || c == '-' }

  predicate IsName(s: string) {
    s != "" && (Letter(s[0]) || s[0] == '_') && forall i :: 0 <= i < |s| ==> NameChar(s[i])
  }

  function Underscored(s: string): (r: string)
    ensures |r| == |s| && forall i :: 0 <= i < |s| ==> r[i] == if NameChar(s[i]) then s[i] else '_'
  {
    seq(|s|, i requires 0 <= i < |s| => if NameChar(s[i]) then s[i] else '_')
  }

  function SanitizeTag(name: string): (tag: string)
    ensures IsName(tag)
    ensures IsName(name) ==> tag == name
    ensures name != "" ==> tag == Underscored(name) || tag == "_" + Underscored(name)
  {
    var safe := Underscored(name);
    if safe == "" then "_" else if Letter(safe[0]) || safe[0] == '_' then safe else "_" + safe
  }

  function Indent(depth: nat): string { if depth == 0 then "" else "  " + Indent(depth - 1) }

  function Join(parts: seq<string>, separator: string): string {
    if parts == [] then "" else if |parts| == 1 then parts[0] else parts[0] + separator + Join(parts[1..], separator)
  }

  function Wrap(tag: string, children: seq<string>, depth: nat): string {
    "<" + tag + ">\n" + Join(children, "\n") + "\n" + Indent(depth) + "</" + tag + ">"
  }

  /** An element without the indentation before it. */
  function Body(v: Value, tag: string, itemTag: string, depth: nat): string
    decreases v, 0
  {
    match v
    case List(items) =>
      var lines := seq(|items|, i requires 0 <= i < |items| => ToXmlAt(items[i], itemTag, "item", depth + 1));
      Wrap(tag, lines, depth)
    case Record(entries) =>
      if entries == [] then "<" + tag + "/>"
      else
        var lines := seq(|entries|, i requires 0 <= i < |entries| =>
          ToXmlAt(entries[i].value, SanitizeTag(entries[i].key), "item", depth + 1));
        Wrap(tag, lines, depth)
    case Scalar(text) => "<" + tag + ">" + Escape(text) + "</" + tag + ">"
  }

  function ToXmlAt(v: Value, tag: string, itemTag: string, depth: nat): string
    decreases v, 1
  {
    Indent(depth) + Body(v, tag, itemTag, depth)
  }

  const PROLOG := "<?xml version=\"1.0\" encoding=\"UTF-8\"?>\n"

  function ToXml(v: Value, rootElement: string, itemElement: string): string {
    PROLOG + ToXmlAt(v, rootElement, itemElement, 0)
  }

  // ---- what the text should mean ----

  datatype Node = Text(text: string) | Element(tag: string, children: seq<Node>)

  function Spaced(children: seq<Node>, gap: string, end: string): seq<Node> {
    if children == [] then [Text(end)] else [Text(gap), children[0]] + Spaced(children[1..], gap, end)
  }

  /** Children on lines of their own, with the line breaks and indentation kept as text. */
  function Block(tag: string, children: seq<Node>, depth: nat): Node {
    if children == [] then Element(tag, [Text("\n\n" + Indent(depth))])
    else Element(tag, Spaced(children, "\n" + Indent(depth + 1), "\n" + Indent(depth)))
  }

  function Tree(v: Value, tag: string, itemTag: string, depth: nat): Node {
    match v
    case List(items) =>
      var children := seq(|items|, i requires 0 <= i < |items| => Tree(items[i], itemTag, "item", depth + 1));
      Block(tag, children, depth)
    case Record(entries) =>
      if entries == [] then Element(tag, [])
      else
        var children := seq(|entries|, i requires 0 <= i < |entries| =>
          Tree(entries[i].value, SanitizeTag(entries[i].key), "item", depth + 1));
        Block(tag, children, depth)
    case Scalar(text) => Element(tag, if text == "" then [] else [Text(text)])
  }

  // ---- reading ----

  datatype Parsed<T> = Parsed(value: T, rest: string)

  function Decode(t: string): Option<string> {
    if t == "" then Some("")
    else if t[0] != '&' then Prepend(t[0], Decode(t[1..]))
    else if "&amp;" <= t then Prepend('&', Decode(t[5..]))
    else if "&lt;" <= t then Prepend('<', Decode(t[4..]))
    else if "&gt;" <= t then Prepend('>', Decode(t[4..]))
    else if "&quot;" <= t then Prepend('"', Decode(t[6..]))
    else if "&apos;" <= t then Prepend('\'', Decode(t[6..]))
    else None
  }

  function Prepend(c: char, t: Option<string>): Option<string> {
    match t
    case None => None
    case Some(s) => Some([c] + s)
  }

  /** The number of characters before the first that is not a name character. */
  function NameLength(s: string): (n: nat)
    ensures n <= |s|
  {
    if s == "" || !NameChar(s[0]) then 0 else 1 + NameLength(s[1..])
  }

  /** The number of characters before the next markup. */
  function TextLength(s: string): (n: nat)
    ensures n <= |s|
    ensures s != "" && s[0] != '<' ==> n > 0
  {
    if s == "" || s[0] == '<' then 0 else 1 + TextLength(s[1..])
  }

  predicate AtClose(s: string) { |s| >= 2 && s[0] == '<' && s[1] == '/' }

  function ReadElement(s: string): (r: Option<Parsed<Node>>)
    ensures r.Some? ==> |r.value.rest| < |s|
    decreases |s|, 0
  {
    if s == "" || s[0] != '<' then None
    else
      var n := NameLength(s[1..]);
      var tag, after := s[1..1 + n], s[1 + n..];
      if !IsName(tag) then None
      else if |after| >= 2 && after[0] == '/' && after[1] == '>' then Some(Parsed(Element(tag, []), after[2..]))
      else if after == "" || after[0] != '>' then None
      else
        match ReadContent(after[1..])
        case None => None
        case Some(Parsed(children, rest)) =>
          var close := "</" + tag + ">";
          if close <= rest then Some(Parsed(Element(tag, children), rest[|close|..])) else None
  }

  function ReadContent(s: string): (r: Option<Parsed<seq<Node>>>)
    ensures r.Some? ==> |r.value.rest| <= |s|
    decreases |s|, 1
  {
    if s == "" || AtClose(s) then Some(Parsed([], s))
    else if s[0] == '<' then
      match ReadElement(s)
      case None => None
      case Some(Parsed(node, rest)) => PrependNode(node, ReadContent(rest))
    else
      var n := TextLength(s);
      match Decode(s[..n])
      case None => None
      case Some(text) => PrependNode(Text(text), ReadContent(s[n..]))
  }

  function PrependNode(node: Node, r: Option<Parsed<seq<Node>>>): Option<Parsed<seq<Node>>> {
    match r
    case None => None
    case Some(Parsed(nodes, rest)) => Some(Parsed([node] + nodes, rest))
  }

  function ReadDocument(s: string): Option<Node> {
    if !(PROLOG <= s) then None
    else
      match ReadElement(s[|PROLOG|..])
      case None => None
      case Some(Parsed(node, rest)) => if rest == "" then Some(node) else None
  }

  // ---- escaped text reads back ----

  lemma ReplaceCons(x: char, rest: string, c: char, entity: string)
    ensures Replace([x] + rest, c, entity) == (if x == c then entity else [x]) + Replace(rest, c, entity)
  {
    assert ([x] + rest)[1..] == rest;
  }

  lemma {:induction false} ReplaceConcat(a: string, b: string, c: char, entity: string)
    ensures Replace(a + b, c, entity) == Replace(a, c, entity) + Replace(b, c, entity)
  {
    if a == "" {
      assert a + b == b;
    } else {
      ReplaceConcat(a[1..], b, c, entity);
      ReplaceCons(a[0], a[1..] + b, c, entity);
      ReplaceCons(a[0], a[1..], c, entity);
      Regroup([a[0]], a[1..], b);
      assert a == [a[0]] + a[1..];
      Regroup(if a[0] == c then entity else [a[0]], Replace(a[1..], c, entity), Replace(b, c, entity));
    }
  }

  lemma Regroup(a: string, b: string, c: string)
    ensures a + b + c == a + (b + c)
  {
  }

  lemma {:induction false} ReplaceAbsent(s: string, c: char, entity: string)
    requires c !in s
    ensures Replace(s, c, entity) == s
  {
    if s != "" { ReplaceAbsent(s[1..], c, entity); }
  }

  lemma ReplaceOne(d: char, c: char, entity: string)
    ensures Replace([d], c, entity) == if d == c then entity else [d]
  {
    assert [d][1..] == "";
  }

  function EscapeChar(c: char): string {
    if c == '&' then "&amp;" else if c == '<' then "&lt;" else if c == '>' then "&gt;"
    else if c == '"' then "&quot;" else if c == '\'' then "&apos;" else [c]
  }

  function EscapeChars(s: string): string {
    if s == "" then "" else EscapeChar(s[0]) + EscapeChars(s[1..])
  }

  lemma {:induction false} EscapeConcat(a: string, b: string)
    ensures Escape(a + b) == Escape(a) + Escape(b)
  {
    ReplaceConcat(a, b, '&', "&amp;");
    var a1, b1 := Replace(a, '&', "&amp;"), Replace(b, '&', "&amp;");
    ReplaceConcat(a1, b1, '<', "&lt;");
    var a2, b2 := Replace(a1, '<', "&lt;"), Replace(b1, '<', "&lt;");
    ReplaceConcat(a2, b2, '>', "&gt;");
    var a3, b3 := Replace(a2, '>', "&gt;"), Replace(b2, '>', "&gt;");
    ReplaceConcat(a3, b3, '"', "&quot;");
    ReplaceConcat(Replace(a3, '"', "&quot;"), Replace(b3, '"', "&quot;"), '\'', "&apos;");
  }

  lemma {:induction false} NoMarkup(s: string)
    requires '<' !in s && '>' !in s && '"' !in s && '\'' !in s
    ensures EscapeMarkup(s) == s
  {
    ReplaceAbsent(s, '<', "&lt;");
    ReplaceAbsent(s, '>', "&gt;");
    ReplaceAbsent(s, '"', "&quot;");
    ReplaceAbsent(s, '\'', "&apos;");
  }

  lemma {:induction false} EscapeOne(c: char)
    ensures Escape([c]) == EscapeChar(c)
  {
    ReplaceOne(c, '&', "&amp;");
    if c == '&' { NoMarkup("&amp;"); }
    else if c == '<' || c == '>' { EscapeAngle(c); }
    else { EscapeOther(c); }
  }

  lemma {:induction false} EscapeAngle(c: char)
    requires c == '<' || c == '>'
    ensures EscapeMarkup([c]) == EscapeChar(c)
  {
    ReplaceOne(c, '<', "&lt;");
    if c == '<' {
      ReplaceAbsent("&lt;", '>', "&gt;");
    } else {
      ReplaceOne(c, '>', "&gt;");
    }
    ReplaceAbsent(EscapeChar(c), '"', "&quot;");
    ReplaceAbsent(EscapeChar(c), '\'', "&apos;");
  }

  lemma {:induction false} EscapeOther(c: char)
    requires c !in "&<>"
    ensures EscapeMarkup([c]) == EscapeChar(c)
  {
    ReplaceOne(c, '<', "&lt;");
    ReplaceOne(c, '>', "&gt;");
    ReplaceOne(c, '"', "&quot;");
    if c == '"' { ReplaceAbsent("&quot;", '\'', "&apos;"); } else { ReplaceOne(c, '\'', "&apos;"); }
  }

  /** The five passes never touch each other's output: they escape each character once. */
  lemma {:induction false} EscapeIsCharwise(s: string)
    ensures Escape(s) == EscapeChars(s)
  {
    if s != "" {
      EscapeIsCharwise(s[1..]);
      EscapeOne(s[0]);
      EscapeConcat([s[0]], s[1..]);
      assert s == [s[0]] + s[1..];
    }
  }

  lemma {:induction false} EscapeDecodes(s: string)
    ensures Decode(EscapeChars(s)) == Some(s)
    ensures '<' !in EscapeChars(s)
  {
    if s != "" {
      EscapeDecodes(s[1..]);
      EntityDecodes(s[0], EscapeChars(s[1..]));
      assert '<' !in EscapeChar(s[0]);
      assert s == [s[0]] + s[1..];
    }
  }

  lemma EntityDecodes(c: char, rest: string)
    ensures Decode(EscapeChar(c) + rest) == Prepend(c, Decode(rest))
  {
    var e := EscapeChar(c);
    var t := e + rest;
    assert t[|e|..] == rest && e <= t;
    assert t[0] == e[0] && (|e| > 1 ==> t[1] == e[1] && t[2] == e[2]);
    assert "&amp;" <= t ==> t[1] == 'a' && t[2] == 'm';
    assert "&lt;" <= t ==> t[1] == 'l';
    assert "&gt;" <= t ==> t[1] == 'g';
    assert "&quot;" <= t ==> t[1] == 'q';
  }

  lemma {:induction false} PlainDecodes(s: string)
    requires '&' !in s
    ensures Decode(s) == Some(s)
  {
    if s != "" {
      PlainDecodes(s[1..]);
      assert s == [s[0]] + s[1..];
    }
  }

  lemma {:induction false} TextRun(t: string, rest: string)
    requires '<' !in t && (rest == "" || rest[0] == '<')
    ensures TextLength(t + rest) == |t|
  {
    if t == "" {
      assert t + rest == rest;
    } else {
      assert (t + rest)[1..] == t[1..] + rest;
      TextRun(t[1..], rest);
    }
  }

  lemma {:induction false} NameRun(name: string, rest: string)
    requires (forall i :: 0 <= i < |name| ==> NameChar(name[i])) && (rest == "" || !NameChar(rest[0]))
    ensures NameLength(name + rest) == |name|
  {
    if name == "" {
      assert name + rest == rest;
    } else {
      assert (name + rest)[1..] == name[1..] + rest;
      NameRun(name[1..], rest);
    }
  }

  lemma CloseEndsContent(rest: string)
    requires AtClose(rest)
    ensures ReadContent(rest) == Some(Parsed([], rest))
  {
  }

  /** Text before markup is read as one node. */
  lemma {:induction false} TextReads(raw: string, text: string, more: string, nodes: seq<Node>, rest: string)
    requires raw != "" && '<' !in raw && Decode(raw) == Some(text) && more != "" && more[0] == '<'
    requires ReadContent(more) == Some(Parsed(nodes, rest))
    ensures ReadContent(raw + more) == Some(Parsed([Text(text)] + nodes, rest))
  {
    TextRun(raw, more);
    assert (raw + more)[..|raw|] == raw && (raw + more)[|raw|..] == more;
  }

  lemma {:induction false} ElementThenContent(s: string, node: Node, more: string, nodes: seq<Node>, rest: string)
    requires s != "" && s[0] == '<' && !AtClose(s) && ReadElement(s) == Some(Parsed(node, more))
    requires ReadContent(more) == Some(Parsed(nodes, rest))
    ensures ReadContent(s) == Some(Parsed([node] + nodes, rest))
  {
  }

  // ---- elements read back ----

  /** The text is one element, whatever follows. */
  ghost predicate ReadsAs(body: string, node: Node) {
    && |body| >= 2 && body[0] == '<' && body[1] != '/'
    && forall rest :: ReadElement(body + rest) == Some(Parsed(node, rest))
  }

  ghost predicate ContentReadsAs(content: string, children: seq<Node>) {
    forall rest :: AtClose(rest) ==> ReadContent(content + rest) == Some(Parsed(children, rest))
  }

  lemma {:induction false} ElementReads(tag: string, content: string, children: seq<Node>)
    requires IsName(tag) && ContentReadsAs(content, children)
    ensures ReadsAs("<" + tag + ">" + content + "</" + tag + ">", Element(tag, children))
  {
    var body := "<" + tag + ">" + content + "</" + tag + ">";
    forall rest ensures ReadElement(body + rest) == Some(Parsed(Element(tag, children), rest)) {
      ElementReadsBefore(tag, content, children, rest);
    }
  }

  lemma {:induction false} ElementReadsBefore(tag: string, content: string, children: seq<Node>, rest: string)
    requires IsName(tag) && ContentReadsAs(content, children)
    ensures ReadElement("<" + tag + ">" + content + "</" + tag + ">" + rest)
      == Some(Parsed(Element(tag, children), rest))
  {
    var close := "</" + tag + ">";
    assert AtClose(close + rest);
    assert "<" + tag + ">" + content + "</" + tag + ">" + rest == "<" + tag + (">" + (content + (close + rest)));
    OpenTagReads(tag, content + (close + rest), children, rest);
  }

  lemma {:induction false} OpenTagReads(tag: string, inner: string, children: seq<Node>, rest: string)
    requires IsName(tag) && ReadContent(inner) == Some(Parsed(children, "</" + tag + ">" + rest))
    ensures ReadElement("<" + tag + (">" + inner)) == Some(Parsed(Element(tag, children), rest))
  {
    OpenTagSplits(tag, ">" + inner);
    assert (">" + inner)[1..] == inner;
    CloseTagSplits("</" + tag + ">", rest);
  }

  /** The name after an opening bracket ends where markup goes on. */
  lemma {:induction false} OpenTagSplits(tag: string, after: string)
    requires IsName(tag) && after != "" && !NameChar(after[0])
    ensures var s := "<" + tag + after;
            NameLength(s[1..]) == |tag| && s[1..1 + |tag|] == tag && s[1 + |tag|..] == after
  {
    var s := "<" + tag + after;
    assert s[1..] == tag + after;
    NameRun(tag, after);
  }

  lemma CloseTagSplits(close: string, rest: string)
    ensures close <= close + rest && (close + rest)[|close|..] == rest
  {
  }

  lemma {:induction false} EmptyElementReads(tag: string)
    requires IsName(tag)
    ensures ReadsAs("<" + tag + "/>", Element(tag, []))
  {
    assert ("<" + tag + "/>")[1] == tag[0];
    forall rest ensures ReadElement("<" + tag + "/>" + rest) == Some(Parsed(Element(tag, []), rest)) {
      EmptyTagReads(tag, rest);
    }
  }

  lemma {:induction false} EmptyTagReads(tag: string, rest: string)
    requires IsName(tag)
    ensures ReadElement("<" + tag + "/>" + rest) == Some(Parsed(Element(tag, []), rest))
  {
    assert "<" + tag + "/>" + rest == "<" + tag + ("/>" + rest);
    OpenTagSplits(tag, "/>" + rest);
    assert ("/>" + rest)[2..] == rest;
  }

  lemma {:induction false} EscapedText(text: string) returns (raw: string)
    ensures raw == Escape(text) && Decode(raw) == Some(text) && '<' !in raw
    ensures raw == "" <==> text == ""
  {
    EscapeIsCharwise(text);
    EscapeDecodes(text);
    raw := Escape(text);
  }

  lemma {:induction false} ScalarReads(text: string)
    ensures ContentReadsAs(Escape(text), if text == "" then [] else [Text(text)])
  {
    var raw := EscapedText(text);
    forall rest | AtClose(rest)
      ensures ReadContent(raw + rest) == Some(Parsed(if text == "" then [] else [Text(text)], rest))
    {
      CloseEndsContent(rest);
      if text == "" {
        assert raw + rest == rest;
      } else {
        TextReads(raw, text, rest, [], rest);
        assert [Text(text)] + [] == [Text(text)];
      }
    }
  }

  predicate Blank(s: string) { forall i :: 0 <= i < |s| ==> s[i] == ' ' || s[i] == '\n' }

  lemma {:induction false} IndentIsBlank(depth: nat)
    ensures Blank(Indent(depth))
  {
    if depth > 0 { IndentIsBlank(depth - 1); }
  }

  lemma {:induction false} BlankReads(blank: string, more: string, nodes: seq<Node>, rest: string)
    requires blank != "" && Blank(blank) && more != "" && more[0] == '<'
      && ReadContent(more) == Some(Parsed(nodes, rest))
    ensures ReadContent(blank + more) == Some(Parsed([Text(blank)] + nodes, rest))
  {
    PlainDecodes(blank);
    TextReads(blank, blank, more, nodes, rest);
  }

  lemma {:induction false} LastBlankReads(blank: string, rest: string)
    requires blank != "" && Blank(blank) && AtClose(rest)
    ensures ReadContent(blank + rest) == Some(Parsed([Text(blank)], rest))
  {
    CloseEndsContent(rest);
    BlankReads(blank, rest, [], rest);
    assert [Text(blank)] + [] == [Text(blank)];
  }

  function Gapped(bodies: seq<string>, gap: string): string {
    if bodies == [] then "" else gap + bodies[0] + Gapped(bodies[1..], gap)
  }

  lemma {:induction false} OneGapped(
    gap: string, body: string, child: Node, more: string, nodes: seq<Node>, rest: string)
    requires gap != "" && Blank(gap) && ReadsAs(body, child) && ReadContent(more) == Some(Parsed(nodes, rest))
    ensures ReadContent(gap + (body + more)) == Some(Parsed([Text(gap), child] + nodes, rest))
  {
    var s := body + more;
    assert s[0] == body[0] && s[1] == body[1];
    ElementThenContent(s, child, more, nodes, rest);
    BlankReads(gap, s, [child] + nodes, rest);
    assert [Text(gap)] + ([child] + nodes) == [Text(gap), child] + nodes;
  }

  lemma GappedSplits(bodies: seq<string>, gap: string, tail: string)
    requires bodies != []
    ensures Gapped(bodies, gap) + tail == gap + (bodies[0] + (Gapped(bodies[1..], gap) + tail))
  {
  }

  /** Children each after a gap, then what ends the block. */
  lemma {:induction false} GappedReads(
    bodies: seq<string>, children: seq<Node>, gap: string, end: string, tail: string, rest: string)
    requires |bodies| == |children| && forall i :: 0 <= i < |bodies| ==> ReadsAs(bodies[i], children[i])
    requires gap != "" && Blank(gap) && ReadContent(tail) == Some(Parsed([Text(end)], rest))
    ensures ReadContent(Gapped(bodies, gap) + tail) == Some(Parsed(Spaced(children, gap, end), rest))
  {
    if bodies == [] {
      assert Gapped(bodies, gap) + tail == tail;
    } else {
      GappedReads(bodies[1..], children[1..], gap, end, tail, rest);
      GappedSplits(bodies, gap, tail);
      OneGapped(gap, bodies[0], children[0], Gapped(bodies[1..], gap) + tail, Spaced(children[1..], gap, end), rest);
    }
  }

  function Indented(bodies: seq<string>, depth: nat): (lines: seq<string>)
    ensures |lines| == |bodies|
  {
    seq(|bodies|, i requires 0 <= i < |bodies| => Indent(depth) + bodies[i])
  }

  lemma {:induction false} JoinIsGapped(bodies: seq<string>, depth: nat)
    requires bodies != []
    ensures "\n" + Join(Indented(bodies, depth), "\n") == Gapped(bodies, "\n" + Indent(depth))
  {
    var lines, gap := Indented(bodies, depth), "\n" + Indent(depth);
    if |bodies| == 1 {
      assert Gapped(bodies[1..], gap) == "";
      assert "\n" + lines[0] == gap + bodies[0];
    } else {
      JoinIsGapped(bodies[1..], depth);
      assert lines[1..] == Indented(bodies[1..], depth);
      assert "\n" + (lines[0] + "\n" + Join(lines[1..], "\n")) == gap + bodies[0] + ("\n" + Join(lines[1..], "\n"));
    }
  }

  /** The text between the tags of a block. */
  function Inside(bodies: seq<string>, depth: nat): string {
    "\n" + Join(Indented(bodies, depth + 1), "\n") + "\n" + Indent(depth)
  }

  lemma {:induction false} InsideIsGapped(bodies: seq<string>, depth: nat, rest: string)
    requires bodies != []
    ensures Inside(bodies, depth) + rest == Gapped(bodies, "\n" + Indent(depth + 1)) + ("\n" + Indent(depth) + rest)
  {
    JoinIsGapped(bodies, depth + 1);
  }

  lemma {:induction false} InsideReads(bodies: seq<string>, children: seq<Node>, depth: nat, tag: string, rest: string)
    requires |bodies| == |children| && forall i :: 0 <= i < |bodies| ==> ReadsAs(bodies[i], children[i])
    requires AtClose(rest)
    ensures ReadContent(Inside(bodies, depth) + rest) == Some(Parsed(Block(tag, children, depth).children, rest))
  {
    var gap, end := "\n" + Indent(depth + 1), "\n" + Indent(depth);
    IndentIsBlank(depth);
    IndentIsBlank(depth + 1);
    if bodies == [] {
      assert Inside(bodies, depth) == "\n\n" + Indent(depth);
      LastBlankReads("\n\n" + Indent(depth), rest);
    } else {
      InsideIsGapped(bodies, depth, rest);
      LastBlankReads(end, rest);
      GappedReads(bodies, children, gap, end, end + rest, rest);
    }
  }

  lemma {:induction false} WrapReads(tag: string, bodies: seq<string>, children: seq<Node>, depth: nat)
    requires IsName(tag) && |bodies| == |children| && forall i :: 0 <= i < |bodies| ==> ReadsAs(bodies[i], children[i])
    ensures ReadsAs(Wrap(tag, Indented(bodies, depth + 1), depth), Block(tag, children, depth))
  {
    var nodes := Block(tag, children, depth).children;
    forall rest | AtClose(rest) ensures ReadContent(Inside(bodies, depth) + rest) == Some(Parsed(nodes, rest)) {
      InsideReads(bodies, children, depth, tag, rest);
    }
    assert Wrap(tag, Indented(bodies, depth + 1), depth) == "<" + tag + ">" + Inside(bodies, depth) + "</" + tag + ">";
    ElementReads(tag, Inside(bodies, depth), nodes);
  }

  lemma {:induction false} ItemIsName()
    ensures IsName("item")
  {
  }

  /** The element names given by the caller that end up in the output are names. */
  predicate NamesUsed(v: Value, tag: string, itemTag: string) {
    IsName(tag) && (v.List? && v.items != [] ==> IsName(itemTag))
  }

  /** Every value is written as one element that reads back as its tree. */
  lemma {:induction false} BodyReads(v: Value, tag: string, itemTag: string, depth: nat)
    requires NamesUsed(v, tag, itemTag)
    ensures ReadsAs(Body(v, tag, itemTag, depth), Tree(v, tag, itemTag, depth))
    decreases v
  {
    ItemIsName();
    match v
    case List(items) =>
      var bodies := seq(|items|, i requires 0 <= i < |items| => Body(items[i], itemTag, "item", depth + 1));
      var children := seq(|items|, i requires 0 <= i < |items| => Tree(items[i], itemTag, "item", depth + 1));
      forall i | 0 <= i < |items| ensures ReadsAs(bodies[i], children[i]) {
        BodyReads(items[i], itemTag, "item", depth + 1);
      }
      WrapReads(tag, bodies, children, depth);
      assert Indented(bodies, depth + 1)
        == seq(|items|, i requires 0 <= i < |items| => ToXmlAt(items[i], itemTag, "item", depth + 1));
    case Record(entries) =>
      if entries == [] {
        EmptyElementReads(tag);
      } else {
        RecordReads(v, tag, itemTag, depth);
      }
    case Scalar(text) =>
      ScalarReads(text);
      ElementReads(tag, Escape(text), if text == "" then [] else [Text(text)]);
  }

  lemma {:induction false} RecordReads(v: Value, tag: string, itemTag: string, depth: nat)
    requires v.Record? && v.entries != [] && IsName(tag)
    ensures ReadsAs(Body(v, tag, itemTag, depth), Tree(v, tag, itemTag, depth))
    decreases v, 0
  {
    ItemIsName();
    var es := v.entries;
    var bodies := seq(|es|, i requires 0 <= i < |es| => Body(es[i].value, SanitizeTag(es[i].key), "item", depth + 1));
    var children := seq(|es|, i requires 0 <= i < |es| => Tree(es[i].value, SanitizeTag(es[i].key), "item", depth + 1));
    forall i | 0 <= i < |es| ensures ReadsAs(bodies[i], children[i]) {
      BodyReads(es[i].value, SanitizeTag(es[i].key), "item", depth + 1);
    }
    WrapReads(tag, bodies, children, depth);
    assert Indented(bodies, depth + 1)
        == seq(|es|, i requires 0 <= i < |es| => ToXmlAt(es[i].value, SanitizeTag(es[i].key), "item", depth + 1));
  }

  predicate AllNames(node: Node) {
    node.Element? ==> IsName(node.tag) && forall i :: 0 <= i < |node.children| ==> AllNames(node.children[i])
  }

  lemma {:induction false} ReadElementNames(s: string)
    ensures ReadElement(s).Some? ==> AllNames(ReadElement(s).value.value)
    decreases |s|, 0
  {
    if s != "" && s[0] == '<' {
      var after := s[1 + NameLength(s[1..])..];
      if after != "" && after[0] == '>' { ReadContentNames(after[1..]); }
    }
  }

  lemma {:induction false} ReadContentNames(s: string)
    ensures ReadContent(s).Some? ==>
      forall i :: 0 <= i < |ReadContent(s).value.value| ==> AllNames(ReadContent(s).value.value[i])
    decreases |s|, 1
  {
    if s != "" && !AtClose(s) {
      if s[0] == '<' {
        ReadElementNames(s);
        if ReadElement(s).Some? { ReadContentNames(ReadElement(s).value.rest); }
      } else {
        ReadContentNames(s[TextLength(s)..]);
      }
    }
  }

  lemma {:induction false} SpacedFirst(children: seq<Node>, gap: string, end: string)
    requires children != []
    ensures |Spaced(children, gap, end)| > 1 && Spaced(children, gap, end)[1] == children[0]
  {
  }

  lemma {:induction false} SpacedAt(children: seq<Node>, gap: string, end: string, i: nat)
    requires i < |children|
    ensures |Spaced(children, gap, end)| == 2 * |children| + 1
    ensures Spaced(children, gap, end)[2 * i + 1] == children[i]
  {
    if i > 0 {
      SpacedAt(children[1..], gap, end, i - 1);
    } else if |children| > 1 {
      SpacedAt(children[1..], gap, end, 0);
    }
  }

  /** The tree has an element for every member of a list or record, in order, and keeps every text. */
  lemma {:induction false} TreeHasMembers(v: Value, tag: string, itemTag: string, depth: nat, i: nat)
    ensures Tree(v, tag, itemTag, depth).Element? && Tree(v, tag, itemTag, depth).tag == tag
    ensures v.Scalar? && v.text != "" ==> Tree(v, tag, itemTag, depth).children == [Text(v.text)]
    ensures v.List? && i < |v.items| ==>
      var children := Tree(v, tag, itemTag, depth).children;
      |children| == 2 * |v.items| + 1 && children[2 * i + 1] == Tree(v.items[i], itemTag, "item", depth + 1)
    ensures v.Record? && i < |v.entries| ==>
      var children := Tree(v, tag, itemTag, depth).children;
      && |children| == 2 * |v.entries| + 1
      && children[2 * i + 1] == Tree(v.entries[i].value, SanitizeTag(v.entries[i].key), "item", depth + 1)
  {
    var gap, end := "\n" + Indent(depth + 1), "\n" + Indent(depth);
    if v.List? && i < |v.items| {
      var children := seq(|v.items|, k requires 0 <= k < |v.items| => Tree(v.items[k], itemTag, "item", depth + 1));
      SpacedAt(children, gap, end, i);
      assert Tree(v, tag, itemTag, depth) == Block(tag, children, depth);
    } else if v.Record? && i < |v.entries| {
      var es := v.entries;
      var children := seq(|es|, k requires 0 <= k < |es| =>
        Tree(es[k].value, SanitizeTag(es[k].key), "item", depth + 1));
      SpacedAt(children, gap, end, i);
      assert Tree(v, tag, itemTag, depth) == Block(tag, children, depth);
    }
  }

  /**
   Whatever the texts and keys contain, the document is well formed and reads back as the
   value's tree, if and only if the caller's element names that it uses are names.
   */
  lemma {:induction false} DocumentReadsBackExactly(v: Value, rootElement: string, itemElement: string)
    ensures ReadDocument(ToXml(v, rootElement, itemElement)) == Some(Tree(v, rootElement, itemElement, 0))
            <==> NamesUsed(v, rootElement, itemElement)
  {
    var s, tree := ToXml(v, rootElement, itemElement), Tree(v, rootElement, itemElement, 0);
    if NamesUsed(v, rootElement, itemElement) {
      DocumentReadsBack(v, rootElement, itemElement);
    }
    if ReadDocument(s) == Some(tree) {
      ReadElementNames(s[|PROLOG|..]);
      TreeNames(v, rootElement, itemElement);
    }
  }

  lemma {:induction false} TreeNames(v: Value, rootElement: string, itemElement: string)
    requires AllNames(Tree(v, rootElement, itemElement, 0))
    ensures NamesUsed(v, rootElement, itemElement)
  {
    var tree := Tree(v, rootElement, itemElement, 0);
    assert tree.tag == rootElement;
    if v.List? && v.items != [] {
      var children := seq(|v.items|, i requires 0 <= i < |v.items| => Tree(v.items[i], itemElement, "item", 1));
      SpacedFirst(children, "\n" + Indent(1), "\n" + Indent(0));
      assert tree.children[1] == children[0] && children[0].tag == itemElement;
    }
  }

  lemma {:induction false} DocumentReadsBack(v: Value, rootElement: string, itemElement: string)
    requires NamesUsed(v, rootElement, itemElement)
    ensures ReadDocument(ToXml(v, rootElement, itemElement)) == Some(Tree(v, rootElement, itemElement, 0))
  {
    var body := Body(v, rootElement, itemElement, 0);
    BodyReads(v, rootElement, itemElement, 0);
    var s := ToXml(v, rootElement, itemElement);
    assert s == PROLOG + body;
    assert s[|PROLOG|..] == body + "";
  }

  /** Two texts never write the same document, whatever the element names are. */
  lemma {:induction false} ScalarTextIsRecoverable(a: string, b: string, rootElement: string, itemElement: string)
    requires ToXml(Scalar(a), rootElement, itemElement) == ToXml(Scalar(b), rootElement, itemElement)
    ensures a == b
  {
    var open, close := PROLOG + Indent(0) + "<" + rootElement + ">", "</" + rootElement + ">";
    ScalarDocument(a, rootElement, itemElement, open, close);
    ScalarDocument(b, rootElement, itemElement, open, close);
    SameMiddle(open, Escape(a), Escape(b), close);
    EscapeIsInjective(a, b);
  }

  lemma ScalarDocument(text: string, rootElement: string, itemElement: string, open: string, close: string)
    requires open == PROLOG + Indent(0) + "<" + rootElement + ">" && close == "</" + rootElement + ">"
    ensures ToXml(Scalar(text), rootElement, itemElement) == open + Escape(text) + close
  {
    assert Body(Scalar(text), rootElement, itemElement, 0) == "<" + rootElement + ">" + Escape(text) + close;
  }

  lemma SameMiddle(open: string, x: string, y: string, close: string)
    requires open + x + close == open + y + close
    ensures x == y
  {
    var s := open + x + close;
    assert |x| == |y|;
    assert x == s[|open|..|open| + |x|] && y == s[|open|..|open| + |y|];
  }

  lemma EscapeIsInjective(a: string, b: string)
    requires Escape(a) == Escape(b)
    ensures a == b
  {
    EscapeIsCharwise(a);
    EscapeIsCharwise(b);
    EscapeDecodes(a);
    EscapeDecodes(b);
  }

  /** A root name with a space in it spoils the document. */
  lemma SpacedNameDoesNotReadBack(text: string)
    ensures ReadDocument(ToXml(Scalar(text), "a b", "item")) != Some(Tree(Scalar(text), "a b", "item", 0))
  {
    assert "a b"[1] == ' ' && !NameChar(' ');
    DocumentReadsBackExactly(Scalar(text), "a b", "item");
  }
}
