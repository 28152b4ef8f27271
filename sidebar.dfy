/**
 * sidebar.js: the HTML escaping, the newest-first render order, the
 * action-button click handler with its badge merge, and the copy-all text.
 * The DOM, the clipboard and Chrome messaging are outside the model.
 */
module Sidebar {
  import opened Js
  import opened Strings
  import opened CardStore
  import opened AiFallback
  import opened Summarize
  import opened Rewriter
  import opened Proofreader
  import opened Translator

  // ---------------------------------------------------------------------
  // escapeHtml

  /** `t.replace(/p/g, r)` for a literal pattern: leftmost matches, left to right, never overlapping. */
  function ReplaceAll(t: string, p: string, r: string): string
    requires |p| > 0
    decreases |t|
  {
    if |t| == 0 then ""
    else if StartsWith(t, p) then r + ReplaceAll(t[|p|..], p, r)
    else [t[0]] + ReplaceAll(t[1..], p, r)
  }

  /** `escapeHtml(s)`: `&` first, then `<`, then `>`. */
  function EscapeHtml(s: string): string {
    ReplaceAll(ReplaceAll(ReplaceAll(s, "&", "&amp;"), "<", "&lt;"), ">", "&gt;")
  }

  /** Undoing the escape in the order `&lt;`, `&gt;`, then `&amp;`. */
  function UnescapeHtml(s: string): string {
    ReplaceAll(ReplaceAll(ReplaceAll(s, "&lt;", "<"), "&gt;", ">"), "&amp;", "&")
  }

  /** The entity of each of the three special characters. */
  function Entity(c: char): string {
    if c == '&' then "&amp;" else if c == '<' then "&lt;" else if c == '>' then "&gt;" else [c]
  }

  /** The text with exactly the characters in `cs` written as entities. */
  function EncodeSet(s: string, cs: set<char>): string {
    if |s| == 0 then "" else (if s[0] in cs then Entity(s[0]) else [s[0]]) + EncodeSet(s[1..], cs)
  }

  /** When no match of `p` starts inside `w`, replacing in `w + t` keeps `w` and goes on in `t`. */
  lemma {:induction false} ReplaceSkips(w: string, t: string, p: string, r: string)
    requires |p| > 0
    requires forall i :: 0 <= i < |w| ==> !StartsWith((w + t)[i..], p)
    ensures ReplaceAll(w + t, p, r) == w + ReplaceAll(t, p, r)
    decreases |w|
  {
    if |w| > 0 {
      assert !StartsWith((w + t)[0..], p);
      assert (w + t)[0..] == w + t;
      assert (w + t)[1..] == w[1..] + t;
      forall i | 0 <= i < |w[1..]| ensures !StartsWith((w[1..] + t)[i..], p) {
        assert (w[1..] + t)[i..] == (w + t)[i + 1..];
      }
      ReplaceSkips(w[1..], t, p, r);
    }
  }

  /** A match of `p` at the front is replaced and the scan goes on after it. */
  lemma ReplaceMatch(t: string, p: string, r: string)
    requires |p| > 0
    ensures ReplaceAll(p + t, p, r) == r + ReplaceAll(t, p, r)
  {
    assert StartsWith(p + t, p);
    assert (p + t)[|p|..] == t;
  }

  /** Encoding nothing is the identity. */
  lemma {:induction false} EncodeNothing(s: string, cs: set<char>)
    requires forall i :: 0 <= i < |s| ==> s[i] !in cs
    ensures EncodeSet(s, cs) == s
  {
    if |s| > 0 {
      EncodeNothing(s[1..], cs);
    }
  }

  /**
   * One escape pass: replacing `c` by its entity in a text whose characters
   * in `cs` are already entities encodes `c` as well. The entities hold no
   * `<` or `>`, and `&` comes first, so no pass touches an earlier entity.
   */
  lemma {:induction false} EncodeStep(s: string, cs: set<char>, c: char)
    requires c == '&' || c == '<' || c == '>'
    requires cs <= {'&', '<', '>'} && c !in cs && (c == '&' ==> cs == {})
    ensures ReplaceAll(EncodeSet(s, cs), [c], Entity(c)) == EncodeSet(s, cs + {c})
  {
    if |s| > 0 {
      EncodeStep(s[1..], cs, c);
      var rest := EncodeSet(s[1..], cs);
      if s[0] == c {
        ReplaceMatch(rest, [c], Entity(c));
      } else {
        var w := if s[0] in cs then Entity(s[0]) else [s[0]];
        assert EncodeSet(s, cs) == w + rest;
        assert EncodeSet(s, cs + {c}) == w + EncodeSet(s[1..], cs + {c});
        SkipOtherEntity(w, rest, c);
      }
    }
  }

  /** A piece without `c` is passed over by the pass that replaces `c`. */
  lemma SkipOtherEntity(w: string, rest: string, c: char)
    requires c !in w
    ensures ReplaceAll(w + rest, [c], Entity(c)) == w + ReplaceAll(rest, [c], Entity(c))
  {
    forall i | 0 <= i < |w| ensures !StartsWith((w + rest)[i..], [c]) {
      assert (w + rest)[i..][0] == w[i];
    }
    ReplaceSkips(w, rest, [c], Entity(c));
  }

  /**
   * One unescape pass: replacing the entity of `d` by `d` in a text whose
   * characters in `cs` (among them `&`) are entities decodes `d` and only `d`.
   */
  lemma {:induction false} DecodeStep(s: string, cs: set<char>, d: char)
    requires cs <= {'&', '<', '>'} && '&' in cs && d in cs
    ensures ReplaceAll(EncodeSet(s, cs), Entity(d), [d]) == EncodeSet(s, cs - {d})
  {
    if |s| > 0 {
      DecodeStep(s[1..], cs, d);
      var rest := EncodeSet(s[1..], cs);
      if s[0] == d {
        ReplaceMatch(rest, Entity(d), [d]);
      } else {
        var w := if s[0] in cs then Entity(s[0]) else [s[0]];
        var e := Entity(d);
        forall i | 0 <= i < |w| ensures !StartsWith((w + rest)[i..], e) {
          var u := (w + rest)[i..];
          assert u[0] == w[i];
          if i == 0 && s[0] in cs {
            assert u[1] == w[1] && w[1] != e[1];
          } else {
            assert w[i] != '&';
          }
        }
        ReplaceSkips(w, rest, e, [d]);
      }
    }
  }

  /** The three passes of `escapeHtml` encode each special character as its entity. */
  lemma EscapeIsEncoding(s: string)
    ensures EscapeHtml(s) == EncodeSet(s, {'&', '<', '>'})
  {
    EncodeNothing(s, {});
    EncodeStep(s, {}, '&');
    assert {} + {'&'} == {'&'};
    EncodeStep(s, {'&'}, '<');
    assert {'&'} + {'<'} == {'&', '<'};
    EncodeStep(s, {'&', '<'}, '>');
    assert {'&', '<'} + {'>'} == {'&', '<', '>'};
  }

  lemma {:induction false} EncodingAvoids(s: string, cs: set<char>, c: char)
    requires cs <= {'&', '<', '>'} && c in cs && c != '&'
    ensures c !in EncodeSet(s, cs)
  {
    if |s| > 0 {
      EncodingAvoids(s[1..], cs, c);
    }
  }

  /** The escaped text holds no `<` and no `>`. */
  lemma EscapedHasNoAngleBrackets(s: string)
    ensures '<' !in EscapeHtml(s) && '>' !in EscapeHtml(s)
  {
    EscapeIsEncoding(s);
    EncodingAvoids(s, {'&', '<', '>'}, '<');
    EncodingAvoids(s, {'&', '<', '>'}, '>');
  }

  /** Un-escaping `&lt;`, `&gt;` and then `&amp;` gives back the original text. */
  lemma UnescapeEscape(s: string)
    ensures UnescapeHtml(EscapeHtml(s)) == s
  {
    EscapeIsEncoding(s);
    DecodeStep(s, {'&', '<', '>'}, '<');
    assert {'&', '<', '>'} - {'<'} == {'&', '>'};
    DecodeStep(s, {'&', '>'}, '>');
    assert {'&', '>'} - {'>'} == {'&'};
    DecodeStep(s, {'&'}, '&');
    assert {'&'} - {'&'} == {};
    EncodeNothing(s, {});
  }

  /** A text without `&`, `<` and `>` is left as it is. */
  lemma EscapePlainText(s: string)
    requires forall i :: 0 <= i < |s| ==> s[i] != '&' && s[i] != '<' && s[i] != '>'
    ensures EscapeHtml(s) == s
  {
    EscapeIsEncoding(s);
    EncodeNothing(s, {'&', '<', '>'});
  }

  /** Escaping is not idempotent: the `&` of an entity is escaped again. */
  lemma EscapeTwice()
    ensures EscapeHtml("<") == "&lt;"
    ensures EscapeHtml(EscapeHtml("<")) == "&amp;lt;"
  {
    EscapeIsEncoding("<");
    EscapeIsEncoding("&lt;");
    assert EncodeSet("<", {'&', '<', '>'}) == "&lt;";
    var t := "&lt;";
    assert t[0] == '&' && t[1..] == "lt;";
    EncodeNothing("lt;", {'&', '<', '>'});
  }

  // ---------------------------------------------------------------------
  // The badge merge of the click handler

  /** `Array.from(new Set([...(card.badges || []), act]))`. */
  function MergeBadges(badges: seq<string>, act: string): seq<string> {
    Dedup(badges + [act])
  }

  /**
   * The new badges are the old ones without repeats, in order of first
   * occurrence, followed by `act` when it was not among them.
   */
  lemma MergeBadgesShape(badges: seq<string>, act: string)
    ensures MergeBadges(badges, act) == Dedup(badges) + (if act in badges then [] else [act])
    ensures act in MergeBadges(badges, act) && NoDuplicates(MergeBadges(badges, act))
  {
    DedupSnoc(badges, act);
  }

  /** Clicking the same action again leaves the badges as they are. */
  lemma MergeBadgesIdempotent(badges: seq<string>, act: string)
    ensures MergeBadges(MergeBadges(badges, act), act) == MergeBadges(badges, act)
  {
    var m := MergeBadges(badges, act);
    MergeBadgesShape(badges, act);
    DedupSnoc(m, act);
    DedupOfDistinct(m);
  }

  // ---------------------------------------------------------------------
  // The click handler

  /** What the AI helpers would answer for this click: the on-device results, the mode and the hosted replies. */
  datatype Helpers = Helpers(
    proofNative: Native, transNative: Native, mode: string,
    proofHybrid: Reply<string>, transHybrid: Reply<string>)

  /** The snippet after action `act`. */
  function NextSnippet(act: string, snippet: string, h: Helpers): (r: string)
    ensures act == "summ" ==> r == SummarizeText(snippet)
    ensures act == "proof" ==> r == ProofreadText(snippet, h.proofNative, h.mode, h.proofHybrid)
    ensures act == "trans" ==> r == TranslateText(snippet, Some("fr"), h.transNative, h.mode, h.transHybrid)
    ensures act == "rewr" || act !in {"summ", "rewr", "proof", "trans"} ==> r == snippet
  {
    if act == "summ" then SummarizeText(snippet)
    else if act == "rewr" then RewriteText(snippet, Some("Concise"))
    else if act == "proof" then ProofreadText(snippet, h.proofNative, h.mode, h.proofHybrid)
    else if act == "trans" then TranslateText(snippet, Some("fr"), h.transNative, h.mode, h.transHybrid)
    else snippet
  }

  /** The update `{ snippet: nextSnippet, badges: nextBadges }`. */
  function ClickPatch(card: Card, act: string, h: Helpers): (p: CardPatch)
    ensures p.id.None?
  {
    NoChanges.(snippet := Some(NextSnippet(act, card.snippet, h)), badges := Some(MergeBadges(card.badges, act)))
  }

  /**
   * A click changes only the clicked card's snippet and badges: same id,
   * same creation time, title, URL, icon, tags and evidence.
   */
  lemma ClickChangesSnippetAndBadges(card: Card, act: string, h: Helpers)
    ensures Merge(card, ClickPatch(card, act, h)) ==
      card.(snippet := NextSnippet(act, card.snippet, h), badges := MergeBadges(card.badges, act))
  {
  }

  /** An unknown action keeps the snippet but still records its badge; so does Rewrite, whose tone is the identity. */
  lemma UnknownActionOnlyBadges(card: Card, act: string, h: Helpers)
    requires act == "rewr" || act !in {"summ", "rewr", "proof", "trans"}
    ensures Merge(card, ClickPatch(card, act, h)) == card.(badges := MergeBadges(card.badges, act))
    ensures act in Merge(card, ClickPatch(card, act, h)).badges
  {
    MergeBadgesShape(card.badges, act);
  }

  /**
   * The click listener once it has the button's action and its container's
   * `data-id`: nothing is read or written without an id, nothing is written
   * when no listed card has that id, and otherwise that card is updated.
   */
  method OnActionClick(db: CardDb, id: Option<string>, act: string, h: Helpers)
    requires db.Valid()
    modifies db
    ensures db.Valid()
    ensures db.subscribers == old(db.subscribers)
    ensures !Truthy(id) ==> db.isOpen == old(db.isOpen) && db.openRequests == old(db.openRequests)
    ensures !Truthy(id) || id.value !in old(db.records) ==>
              db.records == old(db.records) && db.deliveries == old(db.deliveries)
    ensures Truthy(id) && id.value in old(db.records) ==>
              db.records == Update(old(db.records), id.value, ClickPatch(old(db.records)[id.value], act, h))
              && db.deliveries == old(db.deliveries) + Round(db.subscribers, db.failing)
  {
    if !Truthy(id) { return; }
    var key := id.value;
    var cards := db.GetAllCards();
    FindInListing(cards, db.records, key);
    var card := Find(cards, key);
    if card.None? { return; }
    db.UpdateCard(key, ClickPatch(card.value, act, h));
  }

  // ---------------------------------------------------------------------
  // render: newest first

  /**
   * `Array.prototype.sort` is stable, so `cards.sort((a, b) => b.createdAt - a.createdAt)`
   * has one result; it is written here as an insertion sort.
   */
  function Insert(c: Card, sorted: seq<Card>): (r: seq<Card>)
    ensures |r| == |sorted| + 1
  {
    if |sorted| == 0 then [c]
    else if c.createdAt >= sorted[0].createdAt then [c] + sorted
    else [sorted[0]] + Insert(c, sorted[1..])
  }

  /** Inserting adds the card and loses none. */
  lemma {:induction false} InsertPermutes(c: Card, sorted: seq<Card>)
    ensures multiset(Insert(c, sorted)) == multiset(sorted) + multiset{c}
  {
    if |sorted| > 0 && c.createdAt < sorted[0].createdAt {
      InsertPermutes(c, sorted[1..]);
      assert sorted == [sorted[0]] + sorted[1..];
    }
  }

  function NewestFirst(cards: seq<Card>): (r: seq<Card>)
    ensures |r| == |cards|
  {
    if |cards| == 0 then [] else Insert(cards[0], NewestFirst(cards[1..]))
  }

  predicate Descending(cards: seq<Card>) {
    forall i, j :: 0 <= i < j < |cards| ==> cards[i].createdAt >= cards[j].createdAt
  }

  /** The cards created at time `t`, in order. */
  function CreatedAt(cards: seq<Card>, t: int): seq<Card> {
    if |cards| == 0 then []
    else (if cards[0].createdAt == t then [cards[0]] else []) + CreatedAt(cards[1..], t)
  }

  /** No card of `cards` was created after `b`. */
  predicate NoneAfter(cards: seq<Card>, b: int) {
    forall k :: 0 <= k < |cards| ==> cards[k].createdAt <= b
  }

  lemma {:induction false} InsertNoneAfter(c: Card, sorted: seq<Card>, b: int)
    requires NoneAfter(sorted, b) && c.createdAt <= b
    ensures NoneAfter(Insert(c, sorted), b)
  {
    if |sorted| > 0 && c.createdAt < sorted[0].createdAt {
      InsertNoneAfter(c, sorted[1..], b);
      var tail := Insert(c, sorted[1..]);
      assert Insert(c, sorted) == [sorted[0]] + tail;
    }
  }

  /** A card no older than every card of a descending list can head it. */
  lemma ConsDescending(h: Card, cards: seq<Card>)
    requires Descending(cards) && NoneAfter(cards, h.createdAt)
    ensures Descending([h] + cards)
  {
    var r := [h] + cards;
    forall i, j | 0 <= i < j < |r| ensures r[i].createdAt >= r[j].createdAt {
      assert r[j] == cards[j - 1];
      if i > 0 {
        assert r[i] == cards[i - 1];
      }
    }
  }

  lemma {:induction false} InsertDescending(c: Card, sorted: seq<Card>)
    requires Descending(sorted)
    ensures Descending(Insert(c, sorted))
  {
    if |sorted| > 0 {
      assert NoneAfter(sorted[1..], sorted[0].createdAt) by {
        forall k | 0 <= k < |sorted[1..]| ensures sorted[1..][k].createdAt <= sorted[0].createdAt {
          assert sorted[1..][k] == sorted[k + 1];
        }
      }
      if c.createdAt >= sorted[0].createdAt {
        assert NoneAfter(sorted, c.createdAt) by {
          forall k | 0 <= k < |sorted| ensures sorted[k].createdAt <= c.createdAt {
            if k > 0 { assert sorted[1..][k - 1] == sorted[k]; }
          }
        }
        ConsDescending(c, sorted);
      } else {
        InsertDescending(c, sorted[1..]);
        InsertNoneAfter(c, sorted[1..], sorted[0].createdAt);
        ConsDescending(sorted[0], Insert(c, sorted[1..]));
      }
    }
  }

  /** Inserting keeps the relative order of cards created at the same time, the new one first. */
  lemma {:induction false} InsertStable(c: Card, sorted: seq<Card>, t: int)
    ensures CreatedAt(Insert(c, sorted), t) == (if c.createdAt == t then [c] else []) + CreatedAt(sorted, t)
  {
    if |sorted| > 0 {
      var h := sorted[0];
      if c.createdAt >= h.createdAt {
        CreatedAtCons(c, sorted, t);
      } else {
        var tail := Insert(c, sorted[1..]);
        InsertStable(c, sorted[1..], t);
        CreatedAtCons(h, tail, t);
        CreatedAtCons(h, sorted[1..], t);
        assert sorted == [h] + sorted[1..];
        if c.createdAt == t {
          assert CreatedAt(Insert(c, sorted), t) == CreatedAt(tail, t);
        } else {
          assert CreatedAt(tail, t) == CreatedAt(sorted[1..], t);
        }
      }
    }
  }

  lemma CreatedAtCons(h: Card, cards: seq<Card>, t: int)
    ensures CreatedAt([h] + cards, t) == (if h.createdAt == t then [h] else []) + CreatedAt(cards, t)
  {
    assert ([h] + cards)[1..] == cards;
  }

  /**
   * The render order: newest first, the same cards, and cards created at
   * the same time in the order the store listed them.
   */
  lemma NewestFirstSpec(cards: seq<Card>, t: int)
    ensures Descending(NewestFirst(cards))
    ensures multiset(NewestFirst(cards)) == multiset(cards)
    ensures CreatedAt(NewestFirst(cards), t) == CreatedAt(cards, t)
  {
    NewestFirstDescending(cards);
    NewestFirstPermutes(cards);
    NewestFirstStable(cards, t);
  }

  lemma {:induction false} NewestFirstDescending(cards: seq<Card>)
    ensures Descending(NewestFirst(cards))
  {
    if |cards| > 0 {
      NewestFirstDescending(cards[1..]);
      InsertDescending(cards[0], NewestFirst(cards[1..]));
    }
  }

  lemma {:induction false} NewestFirstPermutes(cards: seq<Card>)
    ensures multiset(NewestFirst(cards)) == multiset(cards)
  {
    if |cards| > 0 {
      NewestFirstPermutes(cards[1..]);
      InsertPermutes(cards[0], NewestFirst(cards[1..]));
      assert cards == [cards[0]] + cards[1..];
      assert multiset(cards) == multiset(cards[1..]) + multiset{cards[0]};
    }
  }

  lemma {:induction false} NewestFirstStable(cards: seq<Card>, t: int)
    ensures CreatedAt(NewestFirst(cards), t) == CreatedAt(cards, t)
  {
    if |cards| > 0 {
      NewestFirstStable(cards[1..], t);
      InsertStable(cards[0], NewestFirst(cards[1..]), t);
    }
  }

  /** `render()`: the cards the store lists, shown newest first. */
  method Render(db: CardDb) returns (listed: seq<Card>, shown: seq<Card>)
    requires db.Valid()
    modifies db
    ensures db.Valid() && db.records == old(db.records) && db.deliveries == old(db.deliveries)
    ensures db.subscribers == old(db.subscribers)
    ensures ListsInKeyOrder(listed, db.records) && |listed| == |db.records|
    ensures shown == NewestFirst(listed)
  {
    listed := db.GetAllCards();
    shown := NewestFirst(listed);
  }

  // ---------------------------------------------------------------------
  // Copy all

  /** The dash as the file spells it: the UTF-8 bytes of U+2014 read as Windows-1252. */
  const MisencodedDash: string := "\U{E2}\U{20AC}\U{201D}"
  const EmDash: string := "\U{2014}"

  /** One card's block: quoted snippet, then dash, title and URL in parentheses. */
  function CopyBlock(c: Card, dash: string): string {
    "> " + c.snippet + "\n" + dash + " " + c.title + " (" + c.url + ")"
  }

  function CopyBlocks(cards: seq<Card>, dash: string): (bs: seq<string>)
    ensures |bs| == |cards| && forall i :: 0 <= i < |cards| ==> bs[i] == CopyBlock(cards[i], dash)
  {
    seq(|cards|, i requires 0 <= i < |cards| => CopyBlock(cards[i], dash))
  }

  /** The copy-all text as written, with the mis-encoded dash. */
  function CopyAllAsWritten(cards: seq<Card>): string {
    Join(CopyBlocks(cards, MisencodedDash), "\n\n")
  }

  /** The copy-all text with the em dash the export also uses. */
  function CopyAll(cards: seq<Card>): string {
    Join(CopyBlocks(cards, EmDash), "\n\n")
  }

  /** The attribution line of a copied block starts right after the snippet's line. */
  lemma AttributionAfterSnippet(c: Card, dash: string)
    ensures var b := CopyBlock(c, dash);
      var k := 2 + |c.snippet| + 1;
      |b| >= k + |dash| && b[..k] == "> " + c.snippet + "\n" && b[k..k + |dash|] == dash
  {
  }

  /** As written, the attribution starts with `â`, not with an em dash. */
  lemma CopyAllMisencodesDash(c: Card)
    ensures var k := 2 + |c.snippet| + 1;
      CopyAllAsWritten([c])[k] == '\U{E2}' && CopyAllAsWritten([c])[k] != '\U{2014}'
      && CopyAllAsWritten([c]) != CopyAll([c])
  {
    AttributionAfterSnippet(c, MisencodedDash);
    AttributionAfterSnippet(c, EmDash);
    var k := 2 + |c.snippet| + 1;
    assert CopyAllAsWritten([c]) == CopyBlock(c, MisencodedDash);
    assert CopyAll([c]) == CopyBlock(c, EmDash);
    assert CopyAll([c])[k] == '\U{2014}';
  }

  /**
   * Copy-all: one block per card in store order, joined by a blank line,
   * each attributed with the em dash.
   */
  lemma CopyAllBlocks(cards: seq<Card>, c: Card)
    ensures CopyAll([]) == ""
    ensures CopyAll([c]) == CopyBlock(c, EmDash)
    ensures |cards| > 0 ==> CopyAll(cards + [c]) == CopyAll(cards) + "\n\n" + CopyBlock(c, EmDash)
    ensures CopyBlock(c, EmDash)[2 + |c.snippet| + 1] == '\U{2014}'
  {
    AttributionAfterSnippet(c, EmDash);
    if |cards| > 0 {
      assert CopyBlocks(cards + [c], EmDash) == CopyBlocks(cards, EmDash) + [CopyBlock(c, EmDash)];
      JoinSnoc(CopyBlocks(cards, EmDash), CopyBlock(c, EmDash), "\n\n");
    }
  }

  /**
   * The copy method: read the listing and build its text. It builds the
   * intended text, with the em dash; `CopyAllAsWritten` is the text the
   * button's template as spelled would give.
   */
  method CopyAllCards(db: CardDb) returns (text: string)
    requires db.Valid()
    modifies db
    ensures db.Valid() && db.records == old(db.records) && db.deliveries == old(db.deliveries)
    ensures db.subscribers == old(db.subscribers)
    ensures exists listed :: ListsInKeyOrder(listed, db.records) && text == CopyAll(listed)
  {
    var listed := db.GetAllCards();
    text := CopyAll(listed);
  }
}
