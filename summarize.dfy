/**
 * ai/summarize.js: the heuristic `summarizeText`, a first line built from
 * the leading pieces of the text and a bullet list of its first sentences.
 */
module Summarize {
  import opened Strings

  /** The two split patterns: `/\n|\.\s/` and `/[.!?]\s+/`. */
  datatype Separator = LineBreaks | SentenceEnds

  /** The length of the separator match at `i`, or 0 when the pattern does not match there. */
  function SeparatorAt(sep: Separator, s: string, i: nat): (n: nat)
    requires i <= |s|
    ensures i + n <= |s|
    ensures sep == LineBreaks && i < |s| && s[i] == '\n' ==> n > 0
    ensures n > 0 ==> i < |s| && (s[i] == '\n' || s[i] in ".!?")
  {
    if i >= |s| then 0
    else match sep
      case LineBreaks =>
        if s[i] == '\n' then 1
        else if s[i] == '.' && i + 1 < |s| && IsSpace(s[i + 1]) then 2
        else 0
      case SentenceEnds =>
        if s[i] in ".!?" && i + 1 < |s| && IsSpace(s[i + 1]) then 1 + LeadingSpaces(s[i + 1..])
        else 0
  }

  /**
   * `String.prototype.split` with a regex whose matches are never empty:
   * the piece begun at `start` grows until a separator matches at `i`.
   */
  function SplitFrom(s: string, sep: Separator, start: nat, i: nat): (r: seq<string>)
    requires start <= i <= |s|
    ensures |r| >= 1
    ensures sep == LineBreaks && (forall k :: start <= k < i ==> s[k] != '\n') ==>
              forall j :: 0 <= j < |r| ==> '\n' !in r[j]
    ensures (forall k :: i <= k < |s| ==> SeparatorAt(sep, s, k) == 0) ==> r == [s[start..]]
    decreases |s| - i
  {
    if i == |s| then [s[start..]]
    else
      var n := SeparatorAt(sep, s, i);
      if n > 0 then [s[start..i]] + SplitFrom(s, sep, i + n, i + n)
      else SplitFrom(s, sep, start, i + 1)
  }

  function RegexSplit(s: string, sep: Separator): (r: seq<string>)
    ensures |r| >= 1
  {
    SplitFrom(s, sep, 0, 0)
  }

  /** `.slice(0, n)`. */
  function Take<T>(xs: seq<T>, n: nat): (r: seq<T>)
    ensures |r| == if |xs| < n then |xs| else n
    ensures r == xs[..|r|]
  {
    if |xs| < n then xs else xs[..n]
  }

  /** `text.split(/\n|\.\s/).slice(0, 3).join('. ') + '.'`. */
  function FirstLine(text: string): string {
    Join(Take(RegexSplit(text, LineBreaks), 3), ". ") + "."
  }

  /** The sentences kept for bullets: the first five pieces, with repeats dropped before any trimming. */
  function BulletSentences(text: string): seq<string> {
    Dedup(Take(RegexSplit(text, SentenceEnds), 5))
  }

  /** `.map(s => `- ${s.trim()}`)`. */
  function BulletItems(sentences: seq<string>): (items: seq<string>)
    ensures |items| == |sentences|
    ensures forall i :: 0 <= i < |items| ==> items[i] == "- " + Trim(sentences[i])
  {
    seq(|sentences|, i requires 0 <= i < |sentences| => "- " + Trim(sentences[i]))
  }

  /** `summarizeText(text)`. */
  function SummarizeText(text: string): string {
    FirstLine(text) + "\n\n" + Join(BulletItems(BulletSentences(text)), "\n")
  }

  /** A join of pieces without newlines, with a separator without newlines, has none. */
  lemma {:induction false} JoinNoNewline(xs: seq<string>, sep: string)
    requires '\n' !in sep && forall i :: 0 <= i < |xs| ==> '\n' !in xs[i]
    ensures '\n' !in Join(xs, sep)
  {
    if |xs| > 1 {
      assert forall i :: 0 <= i < |xs[1..]| ==> xs[1..][i] == xs[i + 1];
      JoinNoNewline(xs[1..], sep);
    }
  }

  /**
   * The first line: one to three leading pieces of the split on newline or
   * `". "`, joined by `". "`, ending with a full stop, and holding no newline.
   */
  lemma FirstLineShape(text: string)
    ensures var pieces := Take(RegexSplit(text, LineBreaks), 3);
      && 1 <= |pieces| <= 3
      && pieces == RegexSplit(text, LineBreaks)[..|pieces|]
      && FirstLine(text) == Join(pieces, ". ") + "."
      && FirstLine(text)[|FirstLine(text)| - 1] == '.'
      && '\n' !in FirstLine(text)
  {
    var all := RegexSplit(text, LineBreaks);
    var pieces := Take(all, 3);
    assert forall j :: 0 <= j < |pieces| ==> '\n' !in pieces[j] by {
      forall j | 0 <= j < |pieces| ensures '\n' !in pieces[j] { assert pieces[j] == all[j]; }
    }
    JoinNoNewline(pieces, ". ");
  }

  /** The bullet list has one to five items. */
  lemma BulletCount(text: string)
    ensures 1 <= |BulletItems(BulletSentences(text))| <= 5
  {
    var first := Take(RegexSplit(text, SentenceEnds), 5);
    assert first[0] in first;
  }

  /** Every bullet item is `"- "` followed by its sentence with the surrounding whitespace trimmed. */
  lemma BulletItemShape(text: string)
    ensures var kept := BulletSentences(text);
      var items := BulletItems(kept);
      forall i :: 0 <= i < |items| ==> items[i][..2] == "- " && items[i][2..] == Trim(kept[i])
  {
    var kept := BulletSentences(text);
    var items := BulletItems(kept);
    forall i | 0 <= i < |items|
      ensures items[i][..2] == "- " && items[i][2..] == Trim(kept[i])
    {
      assert items[i] == "- " + Trim(kept[i]);
    }
  }

  /**
   * The bulleted sentences are pairwise different before trimming, they
   * are exactly the distinct sentences among the first five, and they keep
   * the order of first occurrence.
   */
  lemma BulletSentencesDistinct(text: string, i: nat, j: nat)
    requires i < j < |BulletSentences(text)|
    ensures NoDuplicates(BulletSentences(text))
    ensures forall x :: x in BulletSentences(text) <==> x in Take(RegexSplit(text, SentenceEnds), 5)
    ensures var first := Take(RegexSplit(text, SentenceEnds), 5);
      FirstIndex(first, BulletSentences(text)[i]) < FirstIndex(first, BulletSentences(text)[j])
  {
    DedupFirstOccurrenceOrder(Take(RegexSplit(text, SentenceEnds), 5), i, j);
  }

  lemma TrimEmpty()
    ensures Trim("") == ""
  {
    assert LeadingSpaces("") == 0 && TrailingSpaces("") == 0;
  }

  lemma SentencesOfEmpty()
    ensures BulletSentences("") == [""]
  {
    assert RegexSplit("", SentenceEnds) == [""];
    DedupOfDistinct([""]);
  }

  lemma BulletsOfEmpty()
    ensures Join(BulletItems(BulletSentences("")), "\n") == "- "
  {
    SentencesOfEmpty();
    TrimEmpty();
    var items := BulletItems([""]);
    assert items[0] == "- ";
  }

  /** An empty text gives a lone full stop and a single empty bullet. */
  lemma SummarizeEmpty()
    ensures SummarizeText("") == ".\n\n- "
  {
    FirstLineOfEmpty();
    BulletsOfEmpty();
  }

  lemma FirstLineOfEmpty()
    ensures FirstLine("") == "."
  {
    assert RegexSplit("", LineBreaks) == [""];
  }

  /**
   * Repeats are dropped before trimming: two different sentences among the
   * first five both get a bullet, at different positions, even when they
   * differ only in surrounding whitespace and so give the same bullet.
   */
  lemma DedupBeforeTrim(text: string, x: string, y: string)
    requires x in Take(RegexSplit(text, SentenceEnds), 5) && y in Take(RegexSplit(text, SentenceEnds), 5)
    requires x != y
    ensures var items := BulletItems(BulletSentences(text));
      exists i, j :: 0 <= i < |items| && 0 <= j < |items| && i != j
        && items[i] == "- " + Trim(x) && items[j] == "- " + Trim(y)
  {
    var kept := BulletSentences(text);
    var i :| 0 <= i < |kept| && kept[i] == x;
    var j :| 0 <= j < |kept| && kept[j] == y;
    var items := BulletItems(kept);
    assert items[i] == "- " + Trim(x) && items[j] == "- " + Trim(y);
  }
}
