/** lib/citations.js: numbered citation records and inline markers. */
module Citations {
  import opened Js
  import opened Strings

  /** A citation record; `marker` is the source's `label` field. */
  datatype Citation = Citation(index: int, marker: string, url: string, style: string)

  /** `inlineCite(index)`: the index in square brackets. */
  function InlineCite(index: int): (r: string)
    ensures |r| >= 3 && r[0] == '[' && r[|r| - 1] == ']'
  {
    "[" + IntToString(index) + "]"
  }

  /** Between the brackets of a marker stand the decimal digits of its index, and they read back as it. */
  lemma InlineCiteReadsBack(index: nat)
    ensures var r := InlineCite(index); AllDigits(r[1..|r| - 1]) && ParseNat(r[1..|r| - 1]) == index
  {
    var r := InlineCite(index);
    assert r[1..|r| - 1] == IntToString(index);
    ParseNatToString(index);
  }

  /** Different non-negative indices give different markers. */
  lemma InlineCiteInjective(m: nat, n: nat)
    requires InlineCite(m) == InlineCite(n)
    ensures m == n
  {
    InlineCiteReadsBack(m);
    InlineCiteReadsBack(n);
  }

  /** `makeCitations(urls, style)`; an omitted style is `'APA'`. */
  function MakeCitations(urls: seq<string>, style: Option<string>): (cs: seq<Citation>)
    ensures |cs| == |urls|
    ensures forall i :: 0 <= i < |cs| ==> cs[i].url == urls[i] && cs[i].index == i + 1
    ensures forall i :: 0 <= i < |cs| ==> cs[i].marker == InlineCite(i + 1)
    ensures forall i :: 0 <= i < |cs| ==> cs[i].style == style.GetOr("APA")
  {
    seq(|urls|, i requires 0 <= i < |urls| => Citation(i + 1, InlineCite(i + 1), urls[i], style.GetOr("APA")))
  }

  /**
   * The marker `inlineCite(n)` names exactly one citation: the one whose
   * index is `n`, which is the `n`-th, and whose label is that marker.
   */
  lemma InlineCiteNamesOneCitation(urls: seq<string>, style: Option<string>, n: int)
    requires 1 <= n <= |urls|
    ensures var cs := MakeCitations(urls, style);
      && cs[n - 1].index == n && cs[n - 1].marker == InlineCite(n) && cs[n - 1].url == urls[n - 1]
      && forall j :: 0 <= j < |cs| && cs[j].marker == InlineCite(n) ==> j == n - 1
  {
    var cs := MakeCitations(urls, style);
    forall j | 0 <= j < |cs| && cs[j].marker == InlineCite(n)
      ensures j == n - 1
    {
      InlineCiteInjective(j + 1, n);
    }
  }

  /** Citing more URLs only adds citations at the end; the existing ones are unchanged. */
  lemma MakeCitationsSnoc(urls: seq<string>, url: string, style: Option<string>)
    ensures MakeCitations(urls + [url], style) == MakeCitations(urls, style) + [Citation(|urls| + 1, InlineCite(|urls| + 1), url, style.GetOr("APA"))]
  {
    var xs := MakeCitations(urls + [url], style);
    var cs := MakeCitations(urls, style);
    var n := |urls|;
    assert xs[..n] == cs by {
      forall i | 0 <= i < n ensures xs[..n][i] == cs[i] {
        assert (urls + [url])[i] == urls[i];
      }
    }
    assert xs[n] == Citation(n + 1, InlineCite(n + 1), url, style.GetOr("APA"));
    assert xs == xs[..n] + [xs[n]];
  }
}
