/** The plain-text helpers of the Jira client: conversion between plain text
    and Atlassian Document Format (ADF) trees, and base-URL normalisation. */
module Adf {
  import opened Wrappers
  import opened Strings

  /** The part of a parsed JSON value that the ADF walker looks at.
      `Absent` stands for every falsy value (`null`, `undefined`, `false`, `0`,
      `""`), `Scalar` for a truthy non-object (a non-empty string, a non-zero
      number, `true`). An object keeps its `type` member when that is a string,
      its `text` member when that is a string, its numeric `version` and its
      `content` member (`Absent` when missing); other members are ignored. */
  datatype Adf =
    | Absent
    | Scalar
    | List(items: seq<Adf>)
    | Node(kind: Option<string>, text: Option<string>, version: Option<int>, content: Adf)

  function TextNode(line: string): Adf {
    Node(Some("text"), Some(line), None, Absent)
  }

  const HardBreak: Adf := Node(Some("hardBreak"), None, None, Absent)

  function Paragraph(items: seq<Adf>): Adf {
    Node(Some("paragraph"), None, None, List(items))
  }

  function Doc(blocks: seq<Adf>): Adf {
    Node(Some("doc"), None, Some(1), List(blocks))
  }

  // ---------------------------------------------------------------------
  // textToAdf

  /** The nodes `textToAdf` emits for one line: a text node unless the line is
      empty. */
  function LineNodes(line: string): seq<Adf> {
    if |line| > 0 then [TextNode(line)] else []
  }

  /** The paragraph content for the lines of a text: each line's nodes, with a
      hard break between consecutive lines. */
  function Items(lines: seq<string>): seq<Adf> {
    if |lines| == 0 then []
    else if |lines| == 1 then LineNodes(lines[0])
    else LineNodes(lines[0]) + [HardBreak] + Items(lines[1..])
  }

  /** The document `textToAdf(text)` returns. */
  function DocOf(text: string): Adf {
    Doc([Paragraph(Items(Split(text, '\n')))])
  }

  /** `textToAdf`: split on line feeds and push, for each line, a text node when
      it is non-empty and a hard break when another line follows. */
  method TextToAdf(text: string) returns (doc: Adf)
    ensures doc == DocOf(text)
  {
    var lines := Split(text, '\n');
    var content: seq<Adf> := [];
    for i := 0 to |lines|
      invariant i < |lines| ==> content + Items(lines[i..]) == Items(lines)
      invariant i == |lines| ==> content == Items(lines)
    {
      var line := lines[i];
      assert Items(lines[i..]) == LineNodes(line) + (if i < |lines| - 1 then [HardBreak] + Items(lines[i + 1..]) else []) by {
        assert lines[i..][0] == line;
        assert i < |lines| - 1 ==> lines[i..][1..] == lines[i + 1..];
      }
      if |line| > 0 {
        content := content + [TextNode(line)];
      }
      if i < |lines| - 1 {
        content := content + [HardBreak];
      }
    }
    doc := Doc([Paragraph(content)]);
  }

  // ---------------------------------------------------------------------
  // adfToPlainText

  /** The text the walker pushes for a node, in document order: an object's own
      string `text` when its type is "text", a line feed when its type is
      "hardBreak", then whatever its `content` yields; the members of an array
      in order; nothing for falsy and non-object values. */
  function Walk(n: Adf): string
    decreases n, 1
  {
    match n
    case Absent => ""
    case Scalar => ""
    case List(items) => WalkAll(items)
    case Node(kind, text, _, content) =>
      (if kind == Some("text") && text.Some? then text.value else "")
      + (if kind == Some("hardBreak") then "\n" else "")
      + Walk(content)
  }

  function WalkAll(items: seq<Adf>): string
    decreases items, 0
  {
    if items == [] then "" else Walk(items[0]) + WalkAll(items[1..])
  }

  /** `adfToPlainText`: the joined output of the walk with trailing whitespace
      removed. */
  function PlainText(adf: Adf): (r: string)
    ensures r == [] || !IsJsWhitespace(r[|r| - 1])
  {
    TrimEnd(Walk(adf))
  }

  /** The walker of `adfToPlainText`, pushing into the shared output (the
      output is kept joined: pushing a piece and joining later is appending). */
  method WalkInto(node: Adf, out: string) returns (out': string)
    ensures out' == out + Walk(node)
    decreases node
  {
    out' := out;
    match node {
      case Absent =>
      case Scalar =>
      case List(items) =>
        for k := 0 to |items|
          invariant out' == out + WalkAll(items[..k])
        {
          out' := WalkInto(items[k], out');
          WalkAllSnoc(items[..k], items[k]);
          TakeNext(items, k);
        }
        assert items[..|items|] == items;
      case Node(kind, text, _, content) =>
        if kind == Some("text") && text.Some? {
          out' := out' + text.value;
        }
        if kind == Some("hardBreak") {
          out' := out' + "\n";
        }
        if content != Absent {
          out' := WalkInto(content, out');
        }
    }
  }

  /** `adfToPlainText(adf)`. */
  method AdfToPlainText(adf: Adf) returns (s: string)
    ensures s == PlainText(adf)
  {
    var out := WalkInto(adf, "");
    assert out == Walk(adf);
    s := TrimEnd(out);
  }

  lemma {:induction false} WalkAllAppend(a: seq<Adf>, b: seq<Adf>)
    ensures WalkAll(a + b) == WalkAll(a) + WalkAll(b)
  {
    if a != [] {
      assert (a + b)[0] == a[0];
      assert (a + b)[1..] == a[1..] + b;
      WalkAllAppend(a[1..], b);
    } else {
      assert a + b == b;
    }
  }

  lemma WalkAllSnoc(a: seq<Adf>, x: Adf)
    ensures WalkAll(a + [x]) == WalkAll(a) + Walk(x)
  {
    WalkAllAppend(a, [x]);
    assert WalkAll([x]) == Walk(x) + WalkAll([]);
  }

  /** The paragraph content of a text walks back to the lines joined by line
      feeds. */
  lemma {:induction false} WalkItems(lines: seq<string>)
    ensures WalkAll(Items(lines)) == Join(lines, "\n")
  {
    if |lines| == 1 {
      assert WalkAll(LineNodes(lines[0])) == lines[0] by {
        if |lines[0]| > 0 {
          assert WalkAll([TextNode(lines[0])]) == Walk(TextNode(lines[0])) + WalkAll([]);
        }
      }
    } else if |lines| > 1 {
      WalkItems(lines[1..]);
      var head := LineNodes(lines[0]);
      WalkAllAppend(head + [HardBreak], Items(lines[1..]));
      WalkAllSnoc(head, HardBreak);
      assert WalkAll(head) == lines[0] by {
        if |lines[0]| > 0 {
          assert WalkAll([TextNode(lines[0])]) == Walk(TextNode(lines[0])) + WalkAll([]);
        }
      }
    }
  }

  /** The walk of `textToAdf(t)` is exactly `t`. */
  lemma WalkDocOf(t: string)
    ensures Walk(DocOf(t)) == t
  {
    var lines := Split(t, '\n');
    var p := Paragraph(Items(lines));
    WalkItems(lines);
    JoinSplit(t, '\n');
    assert Walk(p) == WalkAll(Items(lines)) by {
      assert |"paragraph"| != |"text"| && "paragraph"[0] != "hardBreak"[0];
    }
    assert WalkAll([p]) == Walk(p) + WalkAll([]);
    assert Walk(DocOf(t)) == WalkAll([p]) by {
      assert |"doc"| != |"text"| && |"doc"| != |"hardBreak"|;
    }
  }

  /** Round trip: converting text to ADF and back gives the text up to trailing
      whitespace, and exactly the text when it has none. */
  lemma RoundTrip(t: string)
    ensures PlainText(DocOf(t)) == TrimEnd(t)
    ensures t == [] || !IsJsWhitespace(t[|t| - 1]) ==> PlainText(DocOf(t)) == t
  {
    WalkDocOf(t);
  }

  // ---------------------------------------------------------------------
  // Shape of textToAdf's output

  function HardBreakCount(items: seq<Adf>): nat {
    if items == [] then 0 else (if items[0] == HardBreak then 1 else 0) + HardBreakCount(items[1..])
  }

  /** The strings of the text nodes, in order. */
  function TextsOf(items: seq<Adf>): seq<string> {
    if items == [] then []
    else (if items[0].Node? && items[0].kind == Some("text") && items[0].text.Some? then [items[0].text.value] else [])
         + TextsOf(items[1..])
  }

  function NonEmptyLines(lines: seq<string>): seq<string> {
    if lines == [] then [] else (if |lines[0]| > 0 then [lines[0]] else []) + NonEmptyLines(lines[1..])
  }

  /** Every node of the paragraph is a text node or a hard break. */
  predicate TextsAndBreaks(items: seq<Adf>) {
    forall k :: 0 <= k < |items| ==> items[k] == HardBreak || (items[k].Node? && items[k].text.Some? && items[k] == TextNode(items[k].text.value))
  }

  lemma {:induction false} CountAppend(a: seq<Adf>, b: seq<Adf>)
    ensures HardBreakCount(a + b) == HardBreakCount(a) + HardBreakCount(b)
    ensures TextsOf(a + b) == TextsOf(a) + TextsOf(b)
  {
    if a != [] {
      assert (a + b)[0] == a[0];
      assert (a + b)[1..] == a[1..] + b;
      CountAppend(a[1..], b);
    } else {
      assert a + b == b;
    }
  }

  lemma {:induction false} ItemsShape(lines: seq<string>)
    requires |lines| > 0
    ensures HardBreakCount(Items(lines)) == |lines| - 1
    ensures TextsOf(Items(lines)) == NonEmptyLines(lines)
    ensures TextsAndBreaks(Items(lines))
  {
    var head := LineNodes(lines[0]);
    assert HardBreakCount(head) == 0 && TextsOf(head) == (if |lines[0]| > 0 then [lines[0]] else []) by {
      if |lines[0]| > 0 {
        assert head[1..] == [];
      }
    }
    if |lines| == 1 {
      assert NonEmptyLines(lines) == TextsOf(head) + NonEmptyLines(lines[1..]);
    } else {
      ItemsShape(lines[1..]);
      CountAppend(head + [HardBreak], Items(lines[1..]));
      CountAppend(head, [HardBreak]);
      assert HardBreakCount([HardBreak]) == 1 + HardBreakCount([]);
      assert TextsOf([HardBreak]) == [] + TextsOf([]);
    }
  }

  /** `textToAdf(t)` is a version-1 document holding exactly one paragraph whose
      nodes are text nodes and hard breaks: one text node per non-empty line of
      `t` in order, and as many hard breaks as `t` has line feeds. */
  lemma DocOfShape(t: string)
    ensures var d := DocOf(t);
      && d.kind == Some("doc") && d.version == Some(1)
      && d.content.List? && |d.content.items| == 1
      && d.content.items[0].kind == Some("paragraph") && d.content.items[0].content.List?
      && var items := d.content.items[0].content.items;
      && TextsAndBreaks(items)
      && TextsOf(items) == NonEmptyLines(Split(t, '\n'))
      && HardBreakCount(items) == Count(t, '\n')
  {
    ItemsShape(Split(t, '\n'));
  }

  // ---------------------------------------------------------------------
  // normalizeBaseUrl

  /** `raw.replace(/\/+$/, "")`: the input without its run of trailing
      slashes. */
  function NormalizeBaseUrl(raw: string): (r: string)
    ensures IsPrefix(r, raw)
    ensures r == [] || r[|r| - 1] != '/'
    ensures forall k :: |r| <= k < |raw| ==> raw[k] == '/'
  {
    if raw != [] && raw[|raw| - 1] == '/' then NormalizeBaseUrl(raw[..|raw| - 1]) else raw
  }

  /** Normalising twice is normalising once. */
  lemma NormalizeBaseUrlIdempotent(raw: string)
    ensures NormalizeBaseUrl(NormalizeBaseUrl(raw)) == NormalizeBaseUrl(raw)
  {
  }
}
