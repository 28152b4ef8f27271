/** ai/writer.js: the draft report template of `writeDraft`. */
module Writer {
  import opened Js
  import opened Strings
  import opened Citations

  datatype SourceRef = SourceRef(title: string, url: string)

  const DefaultIntro: string := "This report synthesizes captured snippets."
  const DefaultBullets: seq<string> := ["Point A", "Point B"]
  const DefaultQuestions: seq<string> := ["What are the trade-offs?"]

  /** `xs && xs.length ? xs : fallback`. */
  function NonEmptyOr(xs: Option<seq<string>>, fallback: seq<string>): (r: seq<string>)
    ensures xs.Some? && |xs.value| > 0 ==> r == xs.value
    ensures xs.None? || |xs.value| == 0 ==> r == fallback
  {
    if xs.Some? && |xs.value| > 0 then xs.value else fallback
  }

  /** One `- ` line per item. */
  function ListLines(xs: seq<string>): (ls: seq<string>)
    ensures |ls| == |xs| && forall i :: 0 <= i < |xs| ==> ls[i] == "- " + xs[i]
  {
    seq(|xs|, i requires 0 <= i < |xs| => "- " + xs[i])
  }

  /** Entry `i` of the Sources section, numbered from 1. */
  function SourceEntry(s: SourceRef, i: nat): string {
    "[" + IntToString(i + 1) + "] " + s.title + " \U{2014} " + s.url
  }

  function SourceEntries(sources: seq<SourceRef>): (ls: seq<string>)
    ensures |ls| == |sources| && forall i :: 0 <= i < |sources| ==> ls[i] == SourceEntry(sources[i], i)
  {
    seq(|sources|, i requires 0 <= i < |sources| => SourceEntry(sources[i], i))
  }

  /** The four sections of the draft, defaults applied. */
  datatype Sections = Sections(intro: string, points: seq<string>, questions: seq<string>, sources: seq<string>)

  function SectionsOf(intro: Option<string>, bullets: Option<seq<string>>, questions: Option<seq<string>>,
                      sources: Option<seq<SourceRef>>): Sections
  {
    Sections(
      OrEmpty(Or(intro, Some(DefaultIntro))),
      ListLines(NonEmptyOr(bullets, DefaultBullets)),
      ListLines(NonEmptyOr(questions, DefaultQuestions)),
      SourceEntries(sources.GetOr([])))
  }

  const KeyPoints: string := "\n\n## Key Points\n"
  const OpenQuestions: string := "\n\n## Open Questions\n"
  const Sources: string := "\n\n## Sources\n"

  /** The draft text: the intro, then each section under its heading. */
  function Assemble(intro: string, points: string, questions: string, sources: string): string {
    intro + (KeyPoints + (points + (OpenQuestions + (questions + (Sources + sources)))))
  }

  function Render(s: Sections): string {
    Assemble(s.intro, Join(s.points, "\n"), Join(s.questions, "\n"), Join(s.sources, "\n"))
  }

  /** `writeDraft(intro, bullets, openQuestions, sources)`. */
  function WriteDraft(intro: Option<string>, bullets: Option<seq<string>>, questions: Option<seq<string>>,
                      sources: Option<seq<SourceRef>>): string
  {
    Render(SectionsOf(intro, bullets, questions, sources))
  }

  /**
   * The defaults: a falsy intro becomes the fixed sentence, a missing or
   * empty list of points or questions becomes the fixed list, and missing
   * sources become an empty Sources section.
   */
  lemma DraftDefaults(intro: Option<string>, bullets: Option<seq<string>>, questions: Option<seq<string>>,
                      sources: Option<seq<SourceRef>>)
    ensures var s := SectionsOf(intro, bullets, questions, sources);
      && (!Truthy(intro) ==> s.intro == DefaultIntro)
      && (Truthy(intro) ==> s.intro == intro.value)
      && (bullets.None? || bullets.value == [] ==> s.points == ["- Point A", "- Point B"])
      && (questions.None? || questions.value == [] ==> s.questions == ["- What are the trade-offs?"])
      && (sources.None? ==> s.sources == [])
  {
    DefaultPointLines();
    DefaultQuestionLines();
  }

  lemma DefaultPointLines()
    ensures ListLines(DefaultBullets) == ["- Point A", "- Point B"]
  {
    var ps := ListLines(DefaultBullets);
    assert ps[0] == "- Point A" && ps[1] == "- Point B";
  }

  lemma DefaultQuestionLines()
    ensures ListLines(DefaultQuestions) == ["- What are the trade-offs?"]
  {
    var qs := ListLines(DefaultQuestions);
    assert qs == ["- " + DefaultQuestions[0]];
    assert "- " + DefaultQuestions[0] == "- What are the trade-offs?";
  }

  /**
   * Each point and question is its own `- ` line, in input order: when no
   * item holds a newline, splitting the section at newlines gives back the
   * lines one for one.
   */
  lemma {:induction false} ListSectionLines(xs: seq<string>)
    requires |xs| > 0 && forall i :: 0 <= i < |xs| ==> '\n' !in xs[i]
    ensures Split(Join(ListLines(xs), "\n"), '\n') == ListLines(xs)
  {
    var ls := ListLines(xs);
    forall i | 0 <= i < |ls| ensures '\n' !in ls[i] {
      assert ls[i] == "- " + xs[i];
    }
    SplitJoin(ls, '\n');
  }

  /** Source `i` is numbered with the marker `inlineCite(i + 1)`. */
  lemma SourceNumbering(sources: seq<SourceRef>, i: nat)
    requires i < |sources|
    ensures SourceEntries(sources)[i] == InlineCite(i + 1) + " " + sources[i].title + " \U{2014} " + sources[i].url
  {
  }

  /** Where each part of `Assemble`'s text lies. */
  lemma SectionOrder(intro: string, points: string, questions: string, sources: string)
    ensures var r := Assemble(intro, points, questions, sources);
      var k := |intro| + |KeyPoints| + |points|;
      var q := k + |OpenQuestions| + |questions|;
      && r[..|intro|] == intro
      && r[|intro|..|intro| + |KeyPoints|] == KeyPoints
      && r[k..k + |OpenQuestions|] == OpenQuestions
      && r[q..q + |Sources|] == Sources
      && r[q + |Sources|..] == sources
  {
  }

  /**
   * The draft's sections appear in the fixed order — intro, Key Points,
   * Open Questions, Sources — each heading after a blank line and followed
   * by its lines joined by newlines.
   */
  lemma DraftSectionOrder(intro: Option<string>, bullets: Option<seq<string>>, questions: Option<seq<string>>,
                          sources: Option<seq<SourceRef>>)
    ensures var s := SectionsOf(intro, bullets, questions, sources);
      var r := WriteDraft(intro, bullets, questions, sources);
      var points, qs := Join(s.points, "\n"), Join(s.questions, "\n");
      var k := |s.intro| + |KeyPoints| + |points|;
      var q := k + |OpenQuestions| + |qs|;
      && r[..|s.intro|] == s.intro
      && r[|s.intro|..|s.intro| + |KeyPoints|] == "\n\n## Key Points\n"
      && r[|s.intro| + |KeyPoints|..k] == points
      && r[k..k + |OpenQuestions|] == "\n\n## Open Questions\n"
      && r[k + |OpenQuestions|..q] == qs
      && r[q..q + |Sources|] == "\n\n## Sources\n"
      && r[q + |Sources|..] == Join(s.sources, "\n")
  {
    var s := SectionsOf(intro, bullets, questions, sources);
    var points, qs, ss := Join(s.points, "\n"), Join(s.questions, "\n"), Join(s.sources, "\n");
    SectionOrder(s.intro, points, qs, ss);
  }
}
