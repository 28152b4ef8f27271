/**
 * Bibliographic helpers of lib/academic.js: the DOI scanner, the
 * normalisers of OpenAlex and Crossref records into one `Work` shape, and
 * the provider fallback chains of `fetchMetadata` and `findSimilar`.
 *
 * HTTP requests are not performed: each request's outcome is an input
 * (`Http`), and each chain also returns the requests it issued, in order.
 */
module Academic {
  import opened Js
  import opened Strings

  // ---------------------------------------------------------------------
  // extractDoiFromText: the leftmost match of /10\.\d{4,9}\/[^\s"<>]+/i

  /** The class `[^\s"<>]` of the DOI suffix. */
  predicate IsSuffixChar(c: char) {
    !IsSpace(c) && c != '"' && c != '<' && c != '>'
  }

  /** The length of the run of digits starting at `p`. */
  function DigitRun(s: string, p: nat): (k: nat)
    requires p <= |s|
    ensures p + k <= |s|
    ensures forall i :: p <= i < p + k ==> IsDigit(s[i])
    ensures p + k < |s| ==> !IsDigit(s[p + k])
    decreases |s| - p
  {
    if p < |s| && IsDigit(s[p]) then 1 + DigitRun(s, p + 1) else 0
  }

  /** The length of the run of suffix characters starting at `p`. */
  function SuffixRun(s: string, p: nat): (k: nat)
    requires p <= |s|
    ensures p + k <= |s|
    ensures forall i :: p <= i < p + k ==> IsSuffixChar(s[i])
    ensures p + k < |s| ==> !IsSuffixChar(s[p + k])
    decreases |s| - p
  {
    if p < |s| && IsSuffixChar(s[p]) then 1 + SuffixRun(s, p + 1) else 0
  }

  /**
   * The end of the match starting at `p`, if the pattern matches there.
   * Both quantifiers are greedy; since a digit is never `/`, giving back
   * digits cannot help, so `\d{4,9}` must take the whole digit run.
   */
  function MatchAt(s: string, p: nat): (e: Option<nat>)
    requires p <= |s|
    ensures e.Some? ==> p + 9 <= e.value <= |s|
  {
    if p + 3 <= |s| && s[p] == '1' && s[p + 1] == '0' && s[p + 2] == '.' then
      var d := DigitRun(s, p + 3);
      var q := p + 3 + d;
      if 4 <= d <= 9 && q < |s| && s[q] == '/' then
        var k := SuffixRun(s, q + 1);
        if k >= 1 then Some(q + 1 + k) else None
      else None
    else None
  }

  /** The leftmost match at or after `p`, as (start, end). */
  function SearchFrom(s: string, p: nat): (r: Option<(nat, nat)>)
    requires p <= |s|
    ensures r.Some? ==> p <= r.value.0 <= |s| && MatchAt(s, r.value.0) == Some(r.value.1)
    ensures r.Some? ==> forall q :: p <= q < r.value.0 ==> MatchAt(s, q).None?
    ensures r.None? ==> forall q :: p <= q <= |s| ==> MatchAt(s, q).None?
    decreases |s| - p
  {
    var m := MatchAt(s, p);
    if m.Some? then Some((p, m.value))
    else if p == |s| then None
    else SearchFrom(s, p + 1)
  }

  /** `.replace(/[\.,]$/, '')`: drop one trailing full stop or comma. */
  function StripTrailingPunctuation(m: string): string {
    if |m| > 0 && (m[|m| - 1] == '.' || m[|m| - 1] == ',') then m[..|m| - 1] else m
  }

  /** `extractDoiFromText(text)`; `None` stands for a null or undefined argument. */
  function ExtractDoiFromText(text: Option<string>): string
  {
    var s := text.GetOr("");
    var found := SearchFrom(s, 0);
    if found.None? then "" else StripTrailingPunctuation(s[found.value.0..found.value.1])
  }

  /**
   * `r` is the match of `s` found at `a`, ending at `e`, with at most one
   * trailing `.` or `,` removed, and no match starts before `a`.
   */
  predicate LeftmostMatchStripped(s: string, r: string, a: nat, e: nat) {
    && a < e <= |s| && MatchAt(s, a) == Some(e)
    && (forall q :: 0 <= q < a ==> MatchAt(s, q).None?)
    && a + |r| <= e && s[a..a + |r|] == r
    && (r == s[a..e] || (r + [s[e - 1]] == s[a..e] && (s[e - 1] == '.' || s[e - 1] == ',')))
  }

  /**
   * A DOI as the scanner returns it: `10.`, four to nine digits, `/`, then
   * the suffix, which is empty when its only character was the dropped
   * punctuation (`10.1234/.` gives `10.1234/`).
   */
  predicate DoiShaped(r: string) {
    && |r| >= 3 && r[..3] == "10."
    && 4 <= DigitRun(r, 3) <= 9
    && 3 + DigitRun(r, 3) < |r|
    && r[3 + DigitRun(r, 3)] == '/'
  }

  lemma DigitRunSlice(s: string, a: nat, e: nat, p: nat)
    requires a <= p <= e <= |s|
    requires e == |s| || !IsDigit(s[e]) || p + DigitRun(s, p) < e
    ensures DigitRun(s[a..e], p - a) == DigitRun(s, p)
    decreases e - p
  {
    if p < e && IsDigit(s[p]) {
      DigitRunSlice(s, a, e, p + 1);
    }
  }

  /** `''` exactly when nothing in the text matches, and a null or undefined text gives `''`. */
  lemma {:induction false} ExtractDoiEmptyIffNoMatch(text: Option<string>)
    ensures ExtractDoiFromText(text) == "" <==> forall q :: 0 <= q <= |text.GetOr("")| ==> MatchAt(text.GetOr(""), q).None?
    ensures text.None? ==> ExtractDoiFromText(text) == ""
  {
    var s := text.GetOr("");
    var found := SearchFrom(s, 0);
    if found.Some? {
      var (a, e) := found.value;
      assert |s[a..e]| >= 9;
    }
  }

  /** Every character of a match is a suffix character (digits, `.` and `/` are in that class too). */
  lemma MatchChars(s: string, a: nat, e: nat)
    requires a <= |s| && MatchAt(s, a) == Some(e)
    ensures forall i :: a <= i < e ==> IsSuffixChar(s[i])
  {
    var q := a + 3 + DigitRun(s, a + 3);
    forall i | a <= i < e
      ensures IsSuffixChar(s[i])
    {
      if i < a + 3 {
      } else if i < q {
        assert IsDigit(s[i]);
      }
    }
  }

  /** A match keeps the DOI shape once one trailing `.` or `,` is dropped. */
  lemma MatchShaped(s: string, a: nat, e: nat)
    requires a <= |s| && MatchAt(s, a) == Some(e)
    ensures DoiShaped(StripTrailingPunctuation(s[a..e]))
  {
    var m := s[a..e];
    var d := DigitRun(s, a + 3);
    assert m[..3] == s[a..a + 3];
    DigitRunSlice(s, a, e, a + 3);
    DigitRunSliceStrip(m, d);
    var r := StripTrailingPunctuation(m);
    assert r[..3] == m[..3];
    assert r[3 + d] == m[3 + d];
  }

  /** Dropping the punctuation removes exactly one final `.` or `,`, and nothing otherwise. */
  lemma StrippedIsPrefix(m: string)
    ensures var r := StripTrailingPunctuation(m);
      && r == m[..|r|]
      && (|m| > 0 && (m[|m| - 1] == '.' || m[|m| - 1] == ',') ==> r + [m[|m| - 1]] == m)
      && (|m| == 0 || (m[|m| - 1] != '.' && m[|m| - 1] != ',') ==> r == m)
  {
    var r := StripTrailingPunctuation(m);
    if r != m {
      assert r + [m[|m| - 1]] == m;
    }
  }

  /** Every character left after dropping the punctuation is a suffix character. */
  lemma StrippedChars(s: string, a: nat, e: nat)
    requires a <= |s| && MatchAt(s, a) == Some(e)
    ensures var r := StripTrailingPunctuation(s[a..e]); forall i :: 0 <= i < |r| ==> IsSuffixChar(r[i])
  {
    var r := StripTrailingPunctuation(s[a..e]);
    MatchChars(s, a, e);
    forall i | 0 <= i < |r|
      ensures IsSuffixChar(r[i])
    {
      assert r[i] == s[a + i];
    }
  }

  /**
   * A non-empty result comes from the leftmost match: it is that match
   * with at most one trailing `.` or `,` removed, it has the DOI shape and
   * it holds no whitespace, `"`, `<` or `>`.
   */
  lemma {:induction false} ExtractDoiShape(text: Option<string>)
    requires ExtractDoiFromText(text) != ""
    ensures exists a: nat, e: nat :: LeftmostMatchStripped(text.GetOr(""), ExtractDoiFromText(text), a, e)
    ensures DoiShaped(ExtractDoiFromText(text))
    ensures forall i :: 0 <= i < |ExtractDoiFromText(text)| ==> IsSuffixChar(ExtractDoiFromText(text)[i])
  {
    var s := text.GetOr("");
    var found := SearchFrom(s, 0);
    var a, e := found.value.0, found.value.1;
    assert ExtractDoiFromText(text) == StripTrailingPunctuation(s[a..e]);
    FoundIsLeftmost(s, a, e);
    StrippedChars(s, a, e);
    MatchShaped(s, a, e);
  }

  lemma FoundIsLeftmost(s: string, a: nat, e: nat)
    requires a < e <= |s| && MatchAt(s, a) == Some(e) && forall q :: 0 <= q < a ==> MatchAt(s, q).None?
    ensures LeftmostMatchStripped(s, StripTrailingPunctuation(s[a..e]), a, e)
  {
    var m := s[a..e];
    var r := StripTrailingPunctuation(m);
    assert m[|m| - 1] == s[e - 1];
    StrippedIsPrefix(m);
    assert s[a..a + |r|] == m[..|r|];
    assert r == m || (r + [s[e - 1]] == m && (s[e - 1] == '.' || s[e - 1] == ','));
  }

  lemma DigitRunSliceStrip(m: string, d: nat)
    requires |m| > 3 + d + 1 && 4 <= d
    requires DigitRun(m, 3) == d && m[3 + d] == '/'
    ensures DigitRun(StripTrailingPunctuation(m), 3) == d
  {
    var r := StripTrailingPunctuation(m);
    if r != m {
      DigitRunPrefix(m, |r|, 3);
    }
  }

  lemma DigitRunPrefix(m: string, n: nat, p: nat)
    requires p <= n <= |m|
    requires p + DigitRun(m, p) < n
    ensures DigitRun(m[..n], p) == DigitRun(m, p)
    decreases n - p
  {
    if p < n && IsDigit(m[p]) {
      DigitRunPrefix(m, n, p + 1);
    }
  }

  /** Only one trailing punctuation mark is dropped. */
  lemma ExtractDoiStripsOnce()
    ensures ExtractDoiFromText(Some("10.1234/a.,")) == "10.1234/a."
  {
    var s := "10.1234/a.,";
    StripsOnceMatch();
    assert SearchFrom(s, 0) == Some((0, 11));
    assert s[0..11] == s;
    assert s[..10] == "10.1234/a.";
  }

  lemma StripsOnceMatch()
    ensures MatchAt("10.1234/a.,", 0) == Some(11)
  {
    var s := "10.1234/a.,";
    StripsOnceRuns();
    assert s[0] == '1' && s[1] == '0' && s[2] == '.' && s[7] == '/';
  }

  lemma StripsOnceRuns()
    ensures DigitRun("10.1234/a.,", 3) == 4 && SuffixRun("10.1234/a.,", 8) == 3
  {
    var s := "10.1234/a.,";
    assert s[7] == '/' && s[6] == '4' && s[5] == '3' && s[4] == '2' && s[3] == '1';
    assert DigitRun(s, 7) == 0;
    assert DigitRun(s, 5) == 2;
    assert s[8] == 'a' && s[9] == '.' && s[10] == ',';
    assert SuffixRun(s, 10) == 1;
  }

  /** Three digits of registrant code are too few. */
  lemma ExtractDoiShortRegistrant()
    ensures ExtractDoiFromText(Some("10.123/x")) == ""
  {
    var s := "10.123/x";
    assert DigitRun(s, 3) == 3;
    assert forall q :: 0 <= q <= |s| ==> MatchAt(s, q).None?;
  }

  /** A closing `>` ends the suffix, and the match need not start the text. */
  lemma ExtractDoiAngleBrackets()
    ensures ExtractDoiFromText(Some("<10.12345/ab>")) == "10.12345/ab"
  {
    var s := "<10.12345/ab>";
    AngleBracketsMatch();
    assert SearchFrom(s, 1) == Some((1, 12));
    assert SearchFrom(s, 0) == Some((1, 12));
    assert s[1..12] == "10.12345/ab";
  }

  lemma AngleBracketsMatch()
    ensures MatchAt("<10.12345/ab>", 0).None? && MatchAt("<10.12345/ab>", 1) == Some(12)
  {
    var s := "<10.12345/ab>";
    AngleBracketsRuns();
    assert s[0] == '<';
    assert s[1] == '1' && s[2] == '0' && s[3] == '.' && s[9] == '/';
  }

  lemma AngleBracketsRuns()
    ensures DigitRun("<10.12345/ab>", 4) == 5 && SuffixRun("<10.12345/ab>", 10) == 2
  {
    var s := "<10.12345/ab>";
    assert s[9] == '/' && s[8] == '5' && s[7] == '4' && s[6] == '3' && s[5] == '2' && s[4] == '1';
    assert DigitRun(s, 9) == 0;
    assert DigitRun(s, 7) == 2;
    assert s[10] == 'a' && s[11] == 'b' && s[12] == '>';
    assert SuffixRun(s, 12) == 0;
  }

  // ---------------------------------------------------------------------
  // Provider records and the normalised Work

  /** `a.author` of an OpenAlex authorship. */
  datatype OpenAlexAuthor = OpenAlexAuthor(displayName: Option<string>, lastName: Option<string>, firstName: Option<string>)

  /** The fields of an OpenAlex work record that the normaliser reads; names follow the JSON paths. */
  datatype OpenAlexRecord = OpenAlexRecord(
    id: Option<string>,                       // id
    title: Option<string>,                    // title
    idsDoi: Option<string>,                   // ids.doi
    hostVenueUrl: Option<string>,             // primary_location.source.host_venue.url
    landingPageUrl: Option<string>,           // primary_location.landing_page_url
    publicationYear: Option<int>,             // publication_year
    hostVenueName: Option<string>,            // host_venue.display_name
    sourceName: Option<string>,               // primary_location.source.display_name
    authorships: Option<seq<Option<OpenAlexAuthor>>>)  // authorships[].author

  /** A JSON field that may hold a string or an array of strings. */
  datatype TextField = Absent | Scalar(text: string) | List(items: seq<string>)

  datatype CrossrefAuthor = CrossrefAuthor(given: Option<string>, family: Option<string>)

  /** The fields of a Crossref work record that the normaliser reads. */
  datatype CrossrefRecord = CrossrefRecord(
    title: TextField,                         // title
    url: Option<string>,                      // URL
    doi: Option<string>,                      // DOI
    authors: Option<seq<CrossrefAuthor>>,     // author
    dateParts: Option<seq<seq<int>>>,         // issued['date-parts']
    containerTitle: TextField)                // container_title

  datatype Author = Author(full: Option<string>, family: Option<string>, given: Option<string>)

  /** The normalised record both providers are turned into; `openalexId` is absent for Crossref. */
  datatype Work = Work(
    title: Option<string>,
    url: Option<string>,
    doi: Option<string>,
    authors: seq<Author>,
    year: Option<int>,
    venue: Option<string>,
    openalexId: Option<string>)

  /** `.replace(/^https?:\/\/doi\.org\//, '')`. */
  function StripDoiResolver(s: string): (r: string)
    ensures r == s || "https://doi.org/" + r == s || "http://doi.org/" + r == s
    ensures StartsWith(s, "https://doi.org/") ==> "https://doi.org/" + r == s
    ensures StartsWith(s, "http://doi.org/") ==> "http://doi.org/" + r == s
    ensures !StartsWith(s, "https://doi.org/") && !StartsWith(s, "http://doi.org/") ==> r == s
  {
    assert StartsWith(s, "http://doi.org/") ==> s[4] == ':';
    if StartsWith(s, "https://doi.org/") then s[|"https://doi.org/"|..]
    else if StartsWith(s, "http://doi.org/") then s[|"http://doi.org/"|..]
    else s
  }

  function OpenAlexAuthorOf(a: Option<OpenAlexAuthor>): Author {
    match a
    case None => Author(None, None, None)
    case Some(x) => Author(x.displayName, x.lastName, x.firstName)
  }

  /** `normalizeOpenAlexWork(w)`. */
  function NormalizeOpenAlexWork(w: OpenAlexRecord): Work
  {
    var ships := w.authorships.GetOr([]);
    Work(
      w.title,
      Or(w.hostVenueUrl, Or(w.landingPageUrl, w.idsDoi)),
      Some(StripDoiResolver(OrEmpty(Or(w.idsDoi, Some(""))))),
      seq(|ships|, i requires 0 <= i < |ships| => OpenAlexAuthorOf(ships[i])),
      w.publicationYear,
      Or(w.hostVenueName, w.sourceName),
      w.id)
  }

  /**
   * The OpenAlex DOI loses a leading resolver prefix and is `''` when the
   * record has none; authorships map one-to-one and in order.
   */
  lemma OpenAlexNormalisation(w: OpenAlexRecord)
    ensures var n := NormalizeOpenAlexWork(w);
      && n.doi.Some?
      && (!Truthy(w.idsDoi) ==> n.doi == Some(""))
      && (Truthy(w.idsDoi) && StartsWith(w.idsDoi.value, "https://doi.org/") ==> "https://doi.org/" + n.doi.value == w.idsDoi.value)
      && (Truthy(w.idsDoi) && StartsWith(w.idsDoi.value, "http://doi.org/") ==> "http://doi.org/" + n.doi.value == w.idsDoi.value)
      && |n.authors| == |w.authorships.GetOr([])|
      && (forall i :: 0 <= i < |n.authors| ==> n.authors[i] == OpenAlexAuthorOf(w.authorships.GetOr([])[i]))
      && n.openalexId == w.id && n.title == w.title
  {
  }

  /** The first element of an array, or the scalar itself. */
  function FirstText(f: TextField): (r: Option<string>)
    ensures f.Scalar? ==> r == Some(f.text)
    ensures f.List? && |f.items| > 0 ==> r == Some(f.items[0])
    ensures f.Absent? || (f.List? && |f.items| == 0) ==> r == None
  {
    match f
    case Absent => None
    case Scalar(t) => Some(t)
    case List(items) => if |items| > 0 then Some(items[0]) else None
  }

  /** `` `${a.given || ''} ${a.family || ''}`.trim() ``. */
  function CrossrefFullName(a: CrossrefAuthor): string {
    Trim(OrEmpty(a.given) + " " + OrEmpty(a.family))
  }

  /** `normalizeCrossrefWork(w)`. */
  function NormalizeCrossrefWork(w: CrossrefRecord): Work
  {
    var people := w.authors.GetOr([]);
    Work(
      FirstText(w.title),
      w.url,
      w.doi,
      seq(|people|, i requires 0 <= i < |people| => Author(Some(CrossrefFullName(people[i])), people[i].family, people[i].given)),
      match w.dateParts
      case Some(parts) => if |parts| > 0 && |parts[0]| > 0 then Some(parts[0][0]) else None
      case None => None,
      FirstText(w.containerTitle),
      None)
  }

  /**
   * A full name joins given and family name with one space; a missing part
   * counts as empty, and surrounding whitespace is trimmed, so a lone part
   * is the name by itself.
   */
  lemma CrossrefFullNameShape(a: CrossrefAuthor)
    ensures a.given.Some? && a.family.Some? && a.given.value != "" && a.family.value != ""
        && !IsSpace(a.given.value[0]) && !IsSpace(a.family.value[|a.family.value| - 1])
        ==> CrossrefFullName(a) == a.given.value + " " + a.family.value
    ensures a.given.None? && a.family.None? ==> CrossrefFullName(a) == ""
    ensures |CrossrefFullName(a)| > 0 ==> !IsSpace(CrossrefFullName(a)[0]) && !IsSpace(CrossrefFullName(a)[|CrossrefFullName(a)| - 1])
  {
    var s := OrEmpty(a.given) + " " + OrEmpty(a.family);
    if a.given.Some? && a.family.Some? && a.given.value != "" && a.family.value != ""
        && !IsSpace(a.given.value[0]) && !IsSpace(a.family.value[|a.family.value| - 1]) {
      TrimNoSurroundingSpace(s);
    }
    if a.given.None? && a.family.None? {
      assert s == " ";
      assert LeadingSpaces(s) == 1;
    }
  }

  /** Crossref arrays are unwrapped to their first element and authors map one-to-one, in order. */
  lemma CrossrefNormalisation(w: CrossrefRecord)
    ensures var n := NormalizeCrossrefWork(w);
      && (w.title.List? && |w.title.items| > 0 ==> n.title == Some(w.title.items[0]))
      && (w.containerTitle.List? && |w.containerTitle.items| > 0 ==> n.venue == Some(w.containerTitle.items[0]))
      && (w.title.Scalar? ==> n.title == Some(w.title.text))
      && |n.authors| == |w.authors.GetOr([])|
      && (forall i :: 0 <= i < |n.authors| ==>
            n.authors[i].given == w.authors.GetOr([])[i].given && n.authors[i].family == w.authors.GetOr([])[i].family
            && n.authors[i].full == Some(CrossrefFullName(w.authors.GetOr([])[i])))
      && n.doi == w.doi && n.openalexId == None
  {
  }

  // ---------------------------------------------------------------------
  // Requests and their outcomes

  /** What a `fetch` resolves to: a network error (it rejects), a non-2xx status, or a 2xx JSON body. */
  datatype Http<+T> = NetworkError | NotOk | Ok(body: T)

  /** The requests the chains issue; `perPage`/`rows` are the page sizes in the URLs. */
  datatype Request =
    | OpenAlexWork(doi: string)
    | OpenAlexSearch(title: string, perPage: int)
    | OpenAlexRelated(openalexKey: string, perPage: int)
    | CrossrefWork(doi: string)
    | CrossrefTitleSearch(title: string, rows: int)
    | CrossrefQuery(text: string, rows: int)

  /** `fetchOpenAlexByDoi`: throws unless the status is 2xx, otherwise normalises the body. */
  function OpenAlexByDoi(reply: Http<OpenAlexRecord>): Reply<Option<Work>> {
    match reply
    case Ok(w) => Returned(Some(NormalizeOpenAlexWork(w)))
    case _ => Threw
  }

  /** `searchOpenAlexByTitle`: the first result, or null when there is none. */
  function OpenAlexFirstByTitle(reply: Http<seq<OpenAlexRecord>>): Reply<Option<Work>> {
    match reply
    case Ok(results) => Returned(if |results| > 0 then Some(NormalizeOpenAlexWork(results[0])) else None)
    case _ => Threw
  }

  /** `fetchCrossrefByDoi`: a missing `message` is the record with every field absent. */
  function CrossrefByDoi(reply: Http<CrossrefRecord>): Reply<Option<Work>> {
    match reply
    case Ok(w) => Returned(Some(NormalizeCrossrefWork(w)))
    case _ => Threw
  }

  /** `searchCrossrefByTitle`. */
  function CrossrefFirstByTitle(reply: Http<seq<CrossrefRecord>>): Reply<Option<Work>> {
    match reply
    case Ok(items) => Returned(if |items| > 0 then Some(NormalizeCrossrefWork(items[0])) else None)
    case _ => Threw
  }

  /** `.catch(() => null)`. */
  function OrNull(r: Reply<Option<Work>>): Option<Work> {
    match r
    case Threw => None
    case Returned(w) => w
  }

  // ---------------------------------------------------------------------
  // fetchMetadata: four lookups, each only while nothing was found

  /** What the four lookups of `fetchMetadata` would answer. */
  datatype MetadataReplies = MetadataReplies(
    openAlexByDoi: Http<OpenAlexRecord>,
    openAlexByTitle: Http<seq<OpenAlexRecord>>,
    crossrefByDoi: Http<CrossrefRecord>,
    crossrefByTitle: Http<seq<CrossrefRecord>>)

  /** One lookup of a fallback chain: the request and what it yields once failures count as null. */
  datatype Lookup = Lookup(request: Request, result: Option<Work>)

  /** The lookups that apply, in order: a DOI step needs a truthy DOI, a title step a truthy title. */
  function Lookups(doi: Option<string>, title: Option<string>, net: MetadataReplies): seq<Lookup> {
    OpenAlexDoiLookup(doi, net) + OpenAlexTitleLookup(title, net) + CrossrefDoiLookup(doi, net) + CrossrefTitleLookup(title, net)
  }

  function OpenAlexDoiLookup(doi: Option<string>, net: MetadataReplies): seq<Lookup> {
    if Truthy(doi) then [Lookup(OpenAlexWork(doi.value), OrNull(OpenAlexByDoi(net.openAlexByDoi)))] else []
  }

  function OpenAlexTitleLookup(title: Option<string>, net: MetadataReplies): seq<Lookup> {
    if Truthy(title) then [Lookup(OpenAlexSearch(title.value, 1), OrNull(OpenAlexFirstByTitle(net.openAlexByTitle)))] else []
  }

  function CrossrefDoiLookup(doi: Option<string>, net: MetadataReplies): seq<Lookup> {
    if Truthy(doi) then [Lookup(CrossrefWork(doi.value), OrNull(CrossrefByDoi(net.crossrefByDoi)))] else []
  }

  function CrossrefTitleLookup(title: Option<string>, net: MetadataReplies): seq<Lookup> {
    if Truthy(title) then [Lookup(CrossrefTitleSearch(title.value, 1), OrNull(CrossrefFirstByTitle(net.crossrefByTitle)))] else []
  }

  /** The ordered fallback: the first lookup that yields a work wins. */
  function FirstFound(steps: seq<Lookup>): (r: Option<Work>)
    ensures r.None? <==> forall i :: 0 <= i < |steps| ==> steps[i].result.None?
  {
    if |steps| == 0 then None
    else if steps[0].result.Some? then steps[0].result
    else FirstFound(steps[1..])
  }

  /** The requests the ordered fallback issues: every lookup up to and including the first that finds a work. */
  function Issued(steps: seq<Lookup>): (r: seq<Request>)
    ensures |r| <= |steps|
    ensures forall i :: 0 <= i < |r| ==> r[i] == steps[i].request
  {
    if |steps| == 0 then []
    else if steps[0].result.Some? then [steps[0].request]
    else [steps[0].request] + Issued(steps[1..])
  }

  /** The fallback yields the first found work, and stops asking right after it. */
  lemma {:induction false} FirstFoundIsFirst(steps: seq<Lookup>)
    ensures FirstFound(steps).Some? ==>
      exists i :: 0 <= i < |steps| && FirstFound(steps) == steps[i].result
        && (forall j :: 0 <= j < i ==> steps[j].result.None?) && |Issued(steps)| == i + 1
    ensures FirstFound(steps).None? ==> |Issued(steps)| == |steps|
  {
    if |steps| > 0 && steps[0].result.None? {
      FirstFoundIsFirst(steps[1..]);
      if FirstFound(steps).Some? {
        var i :| 0 <= i < |steps[1..]| && FirstFound(steps[1..]) == steps[1..][i].result
          && (forall j :: 0 <= j < i ==> steps[1..][j].result.None?) && |Issued(steps[1..])| == i + 1;
        assert FirstFound(steps) == steps[i + 1].result;
        assert forall j :: 0 <= j < i + 1 ==> steps[j].result.None? by {
          forall j | 0 <= j < i + 1 ensures steps[j].result.None? {
            if j > 0 { assert steps[j] == steps[1..][j - 1]; }
          }
        }
      }
    } else if |steps| > 0 {
      assert FirstFound(steps) == steps[0].result;
    }
  }

  /** The fallback over two chains tries the second only when the first found nothing. */
  lemma {:induction false} FirstFoundAppend(a: seq<Lookup>, b: seq<Lookup>)
    ensures FirstFound(a + b) == if FirstFound(a).Some? then FirstFound(a) else FirstFound(b)
    ensures Issued(a + b) == if FirstFound(a).Some? then Issued(a) else Issued(a) + Issued(b)
  {
    if |a| > 0 {
      assert (a + b)[1..] == a[1..] + b;
      FirstFoundAppend(a[1..], b);
    } else {
      assert a + b == b;
    }
  }

  /**
   * `fetchMetadata({ doi, title })` under settings mode `mode`: null and no
   * request unless the mode is `'hybrid'`; otherwise OpenAlex by DOI,
   * OpenAlex by title, Crossref by DOI, Crossref by title, each tried only
   * while the result is still null, a failing step counting as null.
   */
  method FetchMetadata(mode: string, doi: Option<string>, title: Option<string>, net: MetadataReplies)
    returns (meta: Option<Work>, asked: seq<Request>)
    ensures mode != "hybrid" ==> meta.None? && asked == []
    ensures mode == "hybrid" ==> meta == FirstFound(Lookups(doi, title, net))
    ensures mode == "hybrid" ==> asked == Issued(Lookups(doi, title, net))
  {
    asked := [];
    meta := None;
    if mode != "hybrid" {
      return;
    }
    var oaDoi := OpenAlexDoiLookup(doi, net);
    var oaTitle := OpenAlexTitleLookup(title, net);
    var crDoi := CrossrefDoiLookup(doi, net);
    var crTitle := CrossrefTitleLookup(title, net);
    meta, asked := TryLookup(meta, asked, oaDoi, []);
    assert [] + oaDoi == oaDoi;
    meta, asked := TryLookup(meta, asked, oaTitle, oaDoi);
    meta, asked := TryLookup(meta, asked, crDoi, oaDoi + oaTitle);
    meta, asked := TryLookup(meta, asked, crTitle, oaDoi + oaTitle + crDoi);
  }

  /**
   * One guarded step `if (!meta && key) meta = await lookup().catch(() => null)`:
   * `next` is the lookup when its key is truthy and empty otherwise, and it
   * runs only while the chain so far found nothing.
   */
  method TryLookup(meta: Option<Work>, asked: seq<Request>, next: seq<Lookup>, ghost done: seq<Lookup>)
    returns (meta': Option<Work>, asked': seq<Request>)
    requires |next| <= 1 && meta == FirstFound(done) && asked == Issued(done)
    ensures meta' == FirstFound(done + next) && asked' == Issued(done + next)
  {
    FirstFoundAppend(done, next);
    if meta.None? && |next| == 1 {
      asked' := asked + [next[0].request];
      meta' := next[0].result;
      assert next[1..] == [];
    } else {
      meta', asked' := meta, asked;
      if |next| == 0 { assert done + next == done; }
    }
  }

  /** Without a DOI or a title there is nothing to look up. */
  lemma NoKeysNoLookups(doi: Option<string>, title: Option<string>, net: MetadataReplies)
    requires !Truthy(doi) && !Truthy(title)
    ensures FirstFound(Lookups(doi, title, net)) == None && Issued(Lookups(doi, title, net)) == []
  {
    assert Lookups(doi, title, net) == [];
  }

  /** A 2xx answer from OpenAlex by DOI always ends the chain, whatever the record holds. */
  lemma OpenAlexDoiHitStopsChain(doi: string, title: Option<string>, net: MetadataReplies)
    requires doi != "" && net.openAlexByDoi.Ok?
    ensures FirstFound(Lookups(Some(doi), title, net)) == Some(NormalizeOpenAlexWork(net.openAlexByDoi.body))
    ensures Issued(Lookups(Some(doi), title, net)) == [OpenAlexWork(doi)]
  {
  }

  // ---------------------------------------------------------------------
  // findSimilar: one try block of guarded early returns

  /** What each request of `findSimilar` would answer. */
  datatype SimilarReplies = SimilarReplies(
    openAlexByDoi: Http<OpenAlexRecord>,
    openAlexRelated: Http<seq<OpenAlexRecord>>,
    openAlexSearch: Http<seq<OpenAlexRecord>>,
    crossrefByDoi: Http<CrossrefRecord>,
    crossrefQuery: Http<seq<CrossrefRecord>>,
    crossrefByTitle: Http<seq<CrossrefRecord>>)

  /** How a stage of the try block ends: an early return, falling through to the next stage, or a throw. */
  datatype Flow = Return(works: seq<Work>) | FallThrough | Throw

  datatype Stage = Stage(flow: Flow, asked: seq<Request>)

  datatype SimilarResult = SimilarResult(works: seq<Work>, asked: seq<Request>)

  /** A list request: a 2xx body returns it normalised, a bad status falls through, a network error throws. */
  function ListFlow<T>(reply: Http<seq<T>>, normalise: T -> Work): Flow {
    match reply
    case Ok(items) => Return(seq(|items|, i requires 0 <= i < |items| => normalise(items[i])))
    case NotOk => FallThrough
    case NetworkError => Throw
  }

  /** Run `second` only when `first` fell through. */
  function AndThen(first: Stage, second: Stage): Stage {
    if first.flow.FallThrough? then Stage(second.flow, first.asked + second.asked) else first
  }

  const Skip := Stage(FallThrough, [])

  /** Lines 85-95: OpenAlex by DOI, then the works related to its OpenAlex key. */
  function OpenAlexDoiStage(doi: Option<string>, limit: int, net: SimilarReplies): Stage {
    if !Truthy(doi) then Skip
    else
      var first := [OpenAlexWork(doi.value)];
      match OpenAlexByDoi(net.openAlexByDoi)
      case Threw => Stage(Throw, first)
      case Returned(base) =>
        if base.Some? && Truthy(base.value.openalexId) then
          var key := LastSegment(base.value.openalexId.value, '/');
          Stage(ListFlow(net.openAlexRelated, NormalizeOpenAlexWork), first + [OpenAlexRelated(key, limit)])
        else Stage(FallThrough, first)
  }

  /** Lines 97-103: OpenAlex search by title. */
  function OpenAlexTitleStage(title: Option<string>, limit: int, net: SimilarReplies): Stage {
    if !Truthy(title) then Skip
    else Stage(ListFlow(net.openAlexSearch, NormalizeOpenAlexWork), [OpenAlexSearch(title.value, limit)])
  }

  /** Lines 106-115: Crossref by DOI, then a free-text query on its title. */
  function CrossrefDoiStage(doi: Option<string>, limit: int, net: SimilarReplies): Stage {
    if !Truthy(doi) then Skip
    else
      var first := [CrossrefWork(doi.value)];
      match CrossrefByDoi(net.crossrefByDoi)
      case Threw => Stage(Throw, first)
      case Returned(base) =>
        if base.Some? && Truthy(base.value.title) then
          Stage(ListFlow(net.crossrefQuery, NormalizeCrossrefWork), first + [CrossrefQuery(base.value.title.value, limit)])
        else Stage(FallThrough, first)
  }

  /** Lines 116-122: Crossref search by title. */
  function CrossrefTitleStage(title: Option<string>, limit: int, net: SimilarReplies): Stage {
    if !Truthy(title) then Skip
    else Stage(ListFlow(net.crossrefByTitle, NormalizeCrossrefWork), [CrossrefTitleSearch(title.value, limit)])
  }

  /**
   * `findSimilar({ doi, title }, { provider, limit })`: `[]` unless the mode
   * is `'hybrid'`, and `[]` whenever any step throws.
   */
  function FindSimilar(mode: string, doi: Option<string>, title: Option<string>,
                       provider: Option<string>, limit: Option<int>, net: SimilarReplies): SimilarResult
  {
    if mode != "hybrid" then SimilarResult([], [])
    else
      var n := limit.GetOr(5);
      var openAlex := if provider.GetOr("openalex") == "openalex"
        then AndThen(OpenAlexDoiStage(doi, n, net), OpenAlexTitleStage(title, n, net))
        else Skip;
      var all := AndThen(AndThen(openAlex, CrossrefDoiStage(doi, n, net)), CrossrefTitleStage(title, n, net));
      SimilarResult(if all.flow.Return? then all.flow.works else [], all.asked)
  }

  /** Off hybrid mode nothing is asked and nothing found. */
  lemma FindSimilarOffline(mode: string, doi: Option<string>, title: Option<string>,
                           provider: Option<string>, limit: Option<int>, net: SimilarReplies)
    requires mode != "hybrid"
    ensures FindSimilar(mode, doi, title, provider, limit, net) == SimilarResult([], [])
  {
  }

  /** A failing OpenAlex DOI lookup throws out of the try block: no later fallback runs. */
  lemma FindSimilarOpenAlexDoiFailure(doi: string, title: Option<string>, limit: Option<int>, net: SimilarReplies)
    requires doi != "" && !net.openAlexByDoi.Ok?
    ensures FindSimilar("hybrid", Some(doi), title, None, limit, net) == SimilarResult([], [OpenAlexWork(doi)])
  {
  }

  /** The related-works request uses the last path segment of the OpenAlex id. */
  lemma FindSimilarRelatedKey(doi: string, title: Option<string>, net: SimilarReplies, w: OpenAlexRecord)
    requires doi != "" && net.openAlexByDoi == Ok(w) && Truthy(w.id) && net.openAlexRelated.Ok?
    ensures var r := FindSimilar("hybrid", Some(doi), title, None, None, net);
      && r.asked == [OpenAlexWork(doi), OpenAlexRelated(LastSegment(w.id.value, '/'), 5)]
      && |r.works| == |net.openAlexRelated.body|
      && (forall i :: 0 <= i < |r.works| ==> r.works[i] == NormalizeOpenAlexWork(net.openAlexRelated.body[i]))
      && '/' !in r.asked[1].openalexKey
  {
  }

  /** Whatever `findSimilar` returns is empty or one provider list mapped through its normaliser, in order. */
  predicate IsNormalisedList(works: seq<Work>, net: SimilarReplies) {
    || works == []
    || (net.openAlexRelated.Ok? && works == ListFlow(net.openAlexRelated, NormalizeOpenAlexWork).works)
    || (net.openAlexSearch.Ok? && works == ListFlow(net.openAlexSearch, NormalizeOpenAlexWork).works)
    || (net.crossrefQuery.Ok? && works == ListFlow(net.crossrefQuery, NormalizeCrossrefWork).works)
    || (net.crossrefByTitle.Ok? && works == ListFlow(net.crossrefByTitle, NormalizeCrossrefWork).works)
  }

  lemma FindSimilarResultsAreProviderLists(mode: string, doi: Option<string>, title: Option<string>,
                                           provider: Option<string>, limit: Option<int>, net: SimilarReplies)
    ensures IsNormalisedList(FindSimilar(mode, doi, title, provider, limit, net).works, net)
  {
  }

  // ---------------------------------------------------------------------
  // findSimilar as an ordered list of stages

  /**
   * The stages of the try block in source order: OpenAlex by DOI, OpenAlex
   * by title, Crossref by DOI, Crossref by title; a provider other than
   * `'openalex'` skips the first two.
   */
  function SimilarStages(doi: Option<string>, title: Option<string>, provider: Option<string>,
                         n: int, net: SimilarReplies): seq<Stage>
  {
    var openAlex := provider.GetOr("openalex") == "openalex";
    [ if openAlex then OpenAlexDoiStage(doi, n, net) else Skip,
      if openAlex then OpenAlexTitleStage(title, n, net) else Skip,
      CrossrefDoiStage(doi, n, net),
      CrossrefTitleStage(title, n, net) ]
  }

  /** Every request of the stages, in order. */
  function Asked(stages: seq<Stage>): seq<Request> {
    if |stages| == 0 then [] else stages[0].asked + Asked(stages[1..])
  }

  /** Run the stages one after another while they fall through. */
  function Decide(stages: seq<Stage>): Stage {
    if |stages| == 0 then Skip else AndThen(stages[0], Decide(stages[1..]))
  }

  /** The first stage that does not fall through decides the flow, and only the stages up to it issue requests. */
  lemma {:induction false} DecideFirstDecisive(stages: seq<Stage>, k: nat)
    requires k < |stages| && !stages[k].flow.FallThrough?
    requires forall j :: 0 <= j < k ==> stages[j].flow.FallThrough?
    ensures Decide(stages) == Stage(stages[k].flow, Asked(stages[..k + 1]))
    decreases k
  {
    var head := stages[..k + 1];
    if k == 0 {
      assert head == [stages[0]];
      assert Asked(head) == stages[0].asked + Asked(head[1..]);
      assert head[1..] == [];
    } else {
      var tail := stages[1..];
      DecideFirstDecisive(tail, k - 1);
      assert head[0] == stages[0];
      assert head[1..] == tail[..k];
    }
  }

  /** When every stage falls through, the flow falls through with every request issued. */
  lemma {:induction false} DecideAllFallThrough(stages: seq<Stage>)
    requires forall j :: 0 <= j < |stages| ==> stages[j].flow.FallThrough?
    ensures Decide(stages) == Stage(FallThrough, Asked(stages))
  {
    if |stages| > 0 {
      DecideAllFallThrough(stages[1..]);
    }
  }

  lemma AndThenAssociative(x: Stage, y: Stage, z: Stage)
    ensures AndThen(AndThen(x, y), z) == AndThen(x, AndThen(y, z))
  {
    if x.flow.FallThrough? && y.flow.FallThrough? {
      assert x.asked + y.asked + z.asked == x.asked + (y.asked + z.asked);
    }
  }

  /** The nested guards of `findSimilar` are the stages run in order. */
  lemma FindSimilarDecides(doi: Option<string>, title: Option<string>,
                           provider: Option<string>, limit: Option<int>, net: SimilarReplies)
    ensures var all := Decide(SimilarStages(doi, title, provider, limit.GetOr(5), net));
      FindSimilar("hybrid", doi, title, provider, limit, net)
        == SimilarResult(if all.flow.Return? then all.flow.works else [], all.asked)
  {
    var st := SimilarStages(doi, title, provider, limit.GetOr(5), net);
    var a, b, c, d := st[0], st[1], st[2], st[3];
    assert Decide([d]) == d by {
      assert [d][1..] == [];
    }
    assert Decide([c, d]) == AndThen(c, d) by {
      assert [c, d][1..] == [d];
    }
    assert Decide([b, c, d]) == AndThen(b, AndThen(c, d)) by {
      assert [b, c, d][1..] == [c, d];
    }
    assert Decide(st) == AndThen(a, AndThen(b, AndThen(c, d))) by {
      assert st == [a, b, c, d];
      assert st[1..] == [b, c, d];
    }
    AndThenAssociative(a, b, c);
    AndThenAssociative(AndThen(a, b), c, d);
    AndThenAssociative(a, b, AndThen(c, d));
    assert AndThen(Skip, Skip) == Skip;
  }

  /**
   * `findSimilar` in hybrid mode: the first stage that does not fall through
   * ends the try block. Its list is the result when it returns one, and a
   * throw gives `[]`; the later stages issue no request.
   */
  lemma FindSimilarFirstDecisive(doi: Option<string>, title: Option<string>,
                                 provider: Option<string>, limit: Option<int>, net: SimilarReplies, k: nat)
    requires k < 4
    requires !SimilarStages(doi, title, provider, limit.GetOr(5), net)[k].flow.FallThrough?
    requires forall j :: 0 <= j < k ==> SimilarStages(doi, title, provider, limit.GetOr(5), net)[j].flow.FallThrough?
    ensures var st := SimilarStages(doi, title, provider, limit.GetOr(5), net);
      var r := FindSimilar("hybrid", doi, title, provider, limit, net);
      && r.asked == Asked(st[..k + 1])
      && r.works == (if st[k].flow.Return? then st[k].flow.works else [])
  {
    FindSimilarDecides(doi, title, provider, limit, net);
    DecideFirstDecisive(SimilarStages(doi, title, provider, limit.GetOr(5), net), k);
  }

  /** When every stage falls through, `findSimilar` returns `[]` after issuing every stage's requests. */
  lemma FindSimilarAllFallThrough(doi: Option<string>, title: Option<string>,
                                  provider: Option<string>, limit: Option<int>, net: SimilarReplies)
    requires forall j :: 0 <= j < 4 ==> SimilarStages(doi, title, provider, limit.GetOr(5), net)[j].flow.FallThrough?
    ensures FindSimilar("hybrid", doi, title, provider, limit, net)
      == SimilarResult([], Asked(SimilarStages(doi, title, provider, limit.GetOr(5), net)))
  {
    FindSimilarDecides(doi, title, provider, limit, net);
    DecideAllFallThrough(SimilarStages(doi, title, provider, limit.GetOr(5), net));
  }

  /** A provider other than `'openalex'` never asks OpenAlex. */
  lemma FindSimilarOtherProviderSkipsOpenAlex(mode: string, doi: Option<string>, title: Option<string>,
                                              provider: string, limit: Option<int>, net: SimilarReplies)
    requires provider != "openalex"
    ensures forall q :: q in FindSimilar(mode, doi, title, Some(provider), limit, net).asked ==>
      q.CrossrefWork? || q.CrossrefQuery? || q.CrossrefTitleSearch?
  {
  }

  /** With the Crossref provider, a failing Crossref DOI lookup throws out of the try block before the title search. */
  lemma FindSimilarCrossrefDoiThrow(doi: string, title: Option<string>, limit: Option<int>, net: SimilarReplies)
    requires doi != "" && !net.crossrefByDoi.Ok?
    ensures FindSimilar("hybrid", Some(doi), title, Some("crossref"), limit, net) == SimilarResult([], [CrossrefWork(doi)])
  {
  }

  /** A network error in the OpenAlex title search gives `[]`, and the Crossref fallbacks are not tried. */
  lemma FindSimilarOpenAlexSearchThrow(doi: Option<string>, title: string, limit: Option<int>, net: SimilarReplies)
    requires !Truthy(doi) && title != "" && net.openAlexSearch.NetworkError?
    ensures FindSimilar("hybrid", doi, Some(title), None, limit, net)
      == SimilarResult([], [OpenAlexSearch(title, limit.GetOr(5))])
  {
  }

  /** ListFlow keeps the count and the order of the provider's items. */
  lemma ListFlowPreservesOrder<T>(items: seq<T>, normalise: T -> Work)
    ensures var f := ListFlow(Ok(items), normalise);
      f.Return? && |f.works| == |items| && forall i :: 0 <= i < |items| ==> f.works[i] == normalise(items[i])
  {
  }
}
