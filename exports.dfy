/**
 * lib/exports.js: the Markdown export and the text content of the
 * placeholder docx export.
 */
module Exports {
  import opened Js
  import opened Strings
  import opened CardStore
  import opened Citations

  const Header: string := "# TabScribe Export\n\n"
  const SourcesHeading: string := "\n\n## Sources\n"

  /** The quote block of card `i`; with citations it carries the marker `[i+1]`. */
  function Quote(c: Card, i: nat, citations: bool): string {
    "> " + c.snippet + "\n\n\U{2014} " + c.title + " " + (if citations then InlineCite(i + 1) else "") + "\n"
  }

  function Quotes(cards: seq<Card>, citations: bool): (qs: seq<string>)
    ensures |qs| == |cards|
    ensures forall i :: 0 <= i < |cards| ==> qs[i] == Quote(cards[i], i, citations)
  {
    seq(|cards|, i requires 0 <= i < |cards| => Quote(cards[i], i, citations))
  }

  /** Entry `i` of the Sources section. */
  function SourceLine(c: Card, i: nat): string {
    InlineCite(i + 1) + " " + c.title + " \U{2014} " + c.url
  }

  function SourceLines(cards: seq<Card>): (ls: seq<string>)
    ensures |ls| == |cards|
    ensures forall i :: 0 <= i < |cards| ==> ls[i] == SourceLine(cards[i], i)
  {
    seq(|cards|, i requires 0 <= i < |cards| => SourceLine(cards[i], i))
  }

  function Refs(cards: seq<Card>, citations: bool): string {
    if citations then SourcesHeading + Join(SourceLines(cards), "\n") else ""
  }

  /** `exportMarkdown(cards, citations)`, with `citations` taken by its truthiness. */
  function ExportMarkdown(cards: seq<Card>, citations: bool): (r: string)
    ensures |r| >= |Header| && r[..|Header|] == Header
  {
    Header + Join(Quotes(cards, citations), "\n") + Refs(cards, citations)
  }

  /** The URLs of the cards, in order. */
  function Urls(cards: seq<Card>): (us: seq<string>)
    ensures |us| == |cards| && forall i :: 0 <= i < |cards| ==> us[i] == cards[i].url
  {
    seq(|cards|, i requires 0 <= i < |cards| => cards[i].url)
  }

  /**
   * With citations, card `i`'s quote ends with the marker of the `i`-th
   * citation of the cards' URLs, and the `i`-th Sources entry starts with
   * that marker and names that URL; the two lists are in the same order.
   */
  lemma CitedExportMatchesCitations(cards: seq<Card>, i: nat)
    requires i < |cards|
    ensures var cs := MakeCitations(Urls(cards), None);
      var q := Quotes(cards, true)[i];
      var l := SourceLines(cards)[i];
      && q == "> " + cards[i].snippet + "\n\n\U{2014} " + cards[i].title + " " + cs[i].marker + "\n"
      && l == cs[i].marker + " " + cards[i].title + " \U{2014} " + cs[i].url
  {
  }

  /** Without citations no quote depends on its position and there is no Sources section. */
  lemma UncitedExport(cards: seq<Card>)
    ensures ExportMarkdown(cards, false) == Header + Join(Quotes(cards, false), "\n")
    ensures forall i, j :: 0 <= i < |cards| && 0 <= j < |cards| && cards[i] == cards[j] ==>
      Quotes(cards, false)[i] == Quotes(cards, false)[j]
  {
  }

  /** An empty export is the header alone, followed by the Sources heading when citations are on. */
  lemma EmptyExport(citations: bool)
    ensures ExportMarkdown([], citations) == Header + (if citations then SourcesHeading else "")
  {
    assert Quotes([], citations) == [];
    assert SourceLines([]) == [];
  }

  /** Appending a card appends one quote block after a newline, and one Sources entry when cited. */
  lemma ExportMarkdownSnoc(cards: seq<Card>, c: Card, citations: bool)
    requires |cards| > 0
    ensures Join(Quotes(cards + [c], citations), "\n") == Join(Quotes(cards, citations), "\n") + "\n" + Quote(c, |cards|, citations)
    ensures Refs(cards + [c], true) == Refs(cards, true) + "\n" + SourceLine(c, |cards|)
  {
    QuotesSnoc(cards, c, citations);
    JoinSnoc(Quotes(cards, citations), Quote(c, |cards|, citations), "\n");
    SourceLinesSnoc(cards, c);
    JoinSnoc(SourceLines(cards), SourceLine(c, |cards|), "\n");
  }

  lemma QuotesSnoc(cards: seq<Card>, c: Card, citations: bool)
    ensures Quotes(cards + [c], citations) == Quotes(cards, citations) + [Quote(c, |cards|, citations)]
  {
    var xs := Quotes(cards + [c], citations);
    var ys := Quotes(cards, citations) + [Quote(c, |cards|, citations)];
    forall i | 0 <= i < |xs| ensures xs[i] == ys[i] {
      assert (cards + [c])[i] == if i < |cards| then cards[i] else c;
    }
  }

  lemma SourceLinesSnoc(cards: seq<Card>, c: Card)
    ensures SourceLines(cards + [c]) == SourceLines(cards) + [SourceLine(c, |cards|)]
  {
    var xs := SourceLines(cards + [c]);
    var ys := SourceLines(cards) + [SourceLine(c, |cards|)];
    forall i | 0 <= i < |xs| ensures xs[i] == ys[i] {
      assert (cards + [c])[i] == if i < |cards| then cards[i] else c;
    }
  }

  /** The docx entry of one card: title, URL and snippet on their own lines, then a blank line. */
  function DocxEntry(c: Card): string {
    c.title + "\n" + c.url + "\n" + c.snippet + "\n\n"
  }

  /** The content string of `exportDocx(cards)`: the entries joined with nothing between them. */
  function DocxContent(cards: seq<Card>): string
    decreases |cards|
  {
    if |cards| == 0 then "" else DocxContent(cards[..|cards| - 1]) + DocxEntry(cards[|cards| - 1])
  }

  /** The docx content of two lists one after the other is the two contents one after the other. */
  lemma {:induction false} DocxContentAppend(a: seq<Card>, b: seq<Card>)
    ensures DocxContent(a + b) == DocxContent(a) + DocxContent(b)
    decreases |b|
  {
    if |b| > 0 {
      assert (a + b)[..|a + b| - 1] == a + b[..|b| - 1];
      DocxContentAppend(a, b[..|b| - 1]);
    } else {
      assert a + b == a;
    }
  }

  /** Every card contributes exactly its entry: the content is as long as the entries together. */
  lemma {:induction false} DocxContentLength(cards: seq<Card>)
    ensures |DocxContent(cards)| == 4 * |cards| + SumFieldLengths(cards)
    decreases |cards|
  {
    if |cards| > 0 {
      DocxContentLength(cards[..|cards| - 1]);
    }
  }

  function SumFieldLengths(cards: seq<Card>): nat
    decreases |cards|
  {
    if |cards| == 0 then 0
    else SumFieldLengths(cards[..|cards| - 1]) + |cards[|cards| - 1].title| + |cards[|cards| - 1].url| + |cards[|cards| - 1].snippet|
  }
}
