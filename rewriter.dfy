/** ai/rewriter.js: the tone dispatch of `rewriteText`. */
module Rewriter {
  import opened Js
  import opened Strings

  /** `\b` on both sides of `s[p..p + n]`: the characters around it are not word characters. */
  predicate BoundedAt(s: string, p: nat, n: nat)
    requires p + n <= |s|
  {
    (p == 0 || !IsWordChar(s[p - 1])) && (p + n == |s| || !IsWordChar(s[p + n]))
  }

  /** A whole word `you` at `p`, in any ASCII case. */
  predicate YouAt(s: string, p: nat) {
    p + 3 <= |s| && LowerChar(s[p]) == 'y' && LowerChar(s[p + 1]) == 'o' && LowerChar(s[p + 2]) == 'u' && BoundedAt(s, p, 3)
  }

  /** A whole word `we` at `p`, in any ASCII case. */
  predicate WeAt(s: string, p: nat) {
    p + 2 <= |s| && LowerChar(s[p]) == 'w' && LowerChar(s[p + 1]) == 'e' && BoundedAt(s, p, 2)
  }

  /** A match of `\b(you|we)\b` starts at `p`. */
  predicate PronounAt(s: string, p: nat) {
    YouAt(s, p) || WeAt(s, p)
  }

  /**
   * `.replace(/\b(you|we)\b/gi, 'one')` on `s[p..]`, scanning left to right;
   * the boundaries look at the original text, as the regex does.
   */
  function ReplacePronounsFrom(s: string, p: nat): string
    requires p <= |s|
    decreases |s| - p
  {
    if p == |s| then ""
    else if YouAt(s, p) then "one" + ReplacePronounsFrom(s, p + 3)
    else if WeAt(s, p) then "one" + ReplacePronounsFrom(s, p + 2)
    else [s[p]] + ReplacePronounsFrom(s, p + 1)
  }

  function Academic(s: string): string {
    ReplacePronounsFrom(s, 0)
  }

  /** The tones of `rewriteText`; any other tone name leaves the text alone. */
  function RewriteText(text: string, tone: Option<string>): (r: string)
    ensures tone.GetOr("Concise") == "Academic" ==> r == Academic(text)
    ensures tone.GetOr("Concise") == "Friendly" ==> r == "\U{1F642} " + text
    ensures tone.GetOr("Concise") == "Executive" ==> r == ToUpper(text)
    ensures tone.GetOr("Concise") !in {"Academic", "Friendly", "Executive"} ==> r == text
  {
    var t := tone.GetOr("Concise");
    if t == "Academic" then Academic(text)
    else if t == "Friendly" then "\U{1F642} " + text
    else if t == "Executive" then ToUpper(text)
    else text
  }

  /** The default tone returns the text unchanged. */
  lemma DefaultToneIsIdentity(text: string)
    ensures RewriteText(text, None) == text && RewriteText(text, Some("Concise")) == text
  {
  }

  /** The executive tone has no lower-case ASCII letter left, keeps the length, and applying it twice changes nothing more. */
  lemma ExecutiveTone(text: string)
    ensures |RewriteText(text, Some("Executive"))| == |text|
    ensures forall i :: 0 <= i < |text| ==> !('a' <= RewriteText(text, Some("Executive"))[i] <= 'z')
    ensures RewriteText(RewriteText(text, Some("Executive")), Some("Executive")) == RewriteText(text, Some("Executive"))
  {
    ToUpperSpec(text);
    ToUpperIdempotent(text);
  }

  /** The friendly tone prefixes the smiley and a space, and keeps the text after it. */
  lemma FriendlyTone(text: string)
    ensures var r := RewriteText(text, Some("Friendly"));
      |r| == |text| + 2 && r[0] == '\U{1F642}' && r[1] == ' ' && r[2..] == text
  {
  }

  /** Text without a whole-word `you` or `we` is a fixed point of the academic tone. */
  lemma AcademicWithoutPronouns(text: string)
    requires forall q :: 0 <= q < |text| ==> !PronounAt(text, q)
    ensures RewriteText(text, Some("Academic")) == text
  {
    NoPronounsFrom(text, 0);
  }

  lemma {:induction false} NoPronounsFrom(s: string, p: nat)
    requires p <= |s| && forall q :: p <= q < |s| ==> !PronounAt(s, q)
    ensures ReplacePronounsFrom(s, p) == s[p..]
    decreases |s| - p
  {
    if p < |s| {
      assert !PronounAt(s, p);
      NoPronounsFrom(s, p + 1);
    }
  }

  /** Both pronouns are replaced, in any case, and a longer word such as `your` is not. */
  lemma AcademicExamples()
    ensures Academic("We") == "one"
    ensures Academic("you") == "one"
    ensures Academic("your") == "your"
  {
    assert YouAt("you", 0);
    assert WeAt("We", 0);
    assert ReplacePronounsFrom("We", 2) == "";
    assert ReplacePronounsFrom("you", 3) == "";
    assert !YouAt("your", 0) && !WeAt("your", 0);
    assert forall q :: 1 <= q < 4 ==> !PronounAt("your", q);
  }

  /**
   * A single word (word characters only) becomes `one` exactly when it is
   * `you` or `we` in some ASCII case, and is kept as it is otherwise.
   */
  lemma AcademicWord(w: string)
    requires forall i :: 0 <= i < |w| ==> IsWordChar(w[i])
    ensures Academic(w) == if ToLower(w) in {"you", "we"} then "one" else w
  {
    ToLowerSpec(w);
    YouAtWord(w);
    WeAtWord(w);
    if YouAt(w, 0) {
      assert ReplacePronounsFrom(w, 3) == "";
    } else if WeAt(w, 0) {
      assert ReplacePronounsFrom(w, 2) == "";
    } else {
      NoPronounInsideWord(w);
      NoPronounsFrom(w, 0);
      assert w[0..] == w;
    }
  }

  /** Inside a word no pronoun starts: the character before it is a word character. */
  lemma NoPronounInsideWord(w: string)
    requires forall i :: 0 <= i < |w| ==> IsWordChar(w[i])
    requires !YouAt(w, 0) && !WeAt(w, 0)
    ensures forall q :: 0 <= q < |w| ==> !PronounAt(w, q)
  {
    forall q | 0 < q < |w| ensures !PronounAt(w, q) {
      assert IsWordChar(w[q - 1]);
    }
  }

  /** A word is matched as `you` at its start exactly when it lower-cases to `you`. */
  lemma YouAtWord(w: string)
    requires forall i :: 0 <= i < |w| ==> IsWordChar(w[i])
    requires forall i :: 0 <= i < |w| ==> ToLower(w)[i] == LowerChar(w[i])
    ensures YouAt(w, 0) <==> ToLower(w) == "you"
  {
    var l := ToLower(w);
    assert 3 < |w| ==> IsWordChar(w[3]);
    if YouAt(w, 0) {
      assert l[0] == 'y' && l[1] == 'o' && l[2] == 'u';
    }
    if l == "you" {
      assert LowerChar(w[0]) == 'y' && LowerChar(w[1]) == 'o' && LowerChar(w[2]) == 'u';
    }
  }

  /** A word is matched as `we` at its start exactly when it lower-cases to `we`. */
  lemma WeAtWord(w: string)
    requires forall i :: 0 <= i < |w| ==> IsWordChar(w[i])
    requires forall i :: 0 <= i < |w| ==> ToLower(w)[i] == LowerChar(w[i])
    ensures WeAt(w, 0) <==> ToLower(w) == "we"
  {
    var l := ToLower(w);
    assert 2 < |w| ==> IsWordChar(w[2]);
    if WeAt(w, 0) {
      assert l[0] == 'w' && l[1] == 'e';
    }
    if l == "we" {
      assert LowerChar(w[0]) == 'w' && LowerChar(w[1]) == 'e';
    }
  }

  /**
   * Splitting at a non-word character: the replacement of a text is the
   * replacement of the part before it, that character, and the replacement
   * of the part after it.
   */
  lemma {:induction false} AcademicSplitsAtSeparators(a: string, c: char, b: string)
    requires !IsWordChar(c)
    ensures Academic(a + [c] + b) == Academic(a) + [c] + Academic(b)
  {
    ReplaceShift(a, c, b, 0);
    ReplaceTail(a + [c] + b, |a| + 1, b);
  }

  /** Scanning inside `a` behaves the same with `[c] + b` after it. */
  lemma {:induction false} ReplaceShift(a: string, c: char, b: string, p: nat)
    requires !IsWordChar(c) && p <= |a|
    ensures ReplacePronounsFrom(a + [c] + b, p) == ReplacePronounsFrom(a, p) + [c] + ReplacePronounsFrom(a + [c] + b, |a| + 1)
    decreases |a| - p
  {
    if p == |a| {
      ShiftBase(a, c, b);
    } else {
      var n := Width(a, p);
      ReplaceShift(a, c, b, p + n);
      ShiftStep(a, c, b, p, n);
    }
  }

  /** How far one step of the scan moves from `p`: past a pronoun, or past one character. */
  function Width(s: string, p: nat): (n: nat)
    requires p < |s|
    ensures 1 <= n && p + n <= |s|
  {
    if YouAt(s, p) then 3 else if WeAt(s, p) then 2 else 1
  }

  lemma ShiftBase(a: string, c: char, b: string)
    requires !IsWordChar(c)
    ensures ReplacePronounsFrom(a + [c] + b, |a|) == ReplacePronounsFrom(a, |a|) + [c] + ReplacePronounsFrom(a + [c] + b, |a| + 1)
  {
    NoPronounAtSeparator(a + [c] + b, |a|);
  }

  /** One step of the scan, of width `n`, is the same inside `a` and inside `a + [c] + b`. */
  lemma ShiftStep(a: string, c: char, b: string, p: nat, n: nat)
    requires !IsWordChar(c) && p < |a|
    requires n == Width(a, p)
    requires ReplacePronounsFrom(a + [c] + b, p + n) == ReplacePronounsFrom(a, p + n) + [c] + ReplacePronounsFrom(a + [c] + b, |a| + 1)
    ensures ReplacePronounsFrom(a + [c] + b, p) == ReplacePronounsFrom(a, p) + [c] + ReplacePronounsFrom(a + [c] + b, |a| + 1)
  {
    var s := a + [c] + b;
    WordAtShift(a, c, b, p);
    assert s[p] == a[p];
    var head := if YouAt(a, p) || WeAt(a, p) then "one" else [a[p]];
    var x := ReplacePronounsFrom(a, p + n);
    var tail := ReplacePronounsFrom(s, |a| + 1);
    assert ReplacePronounsFrom(s, p) == head + ReplacePronounsFrom(s, p + n);
    assert ReplacePronounsFrom(a, p) == head + x;
    assert head + (x + [c] + tail) == head + x + [c] + tail;
  }

  /** No pronoun starts at a non-word character. */
  lemma NoPronounAtSeparator(s: string, p: nat)
    requires p < |s| && !IsWordChar(s[p])
    ensures !YouAt(s, p) && !WeAt(s, p)
  {
    assert LowerChar(s[p]) == s[p];
  }

  /** Matching inside `a` does not see what follows `c`, and a match cannot run across `c`. */
  lemma WordAtShift(a: string, c: char, b: string, p: nat)
    requires !IsWordChar(c) && p < |a|
    ensures YouAt(a + [c] + b, p) <==> YouAt(a, p)
    ensures WeAt(a + [c] + b, p) <==> WeAt(a, p)
  {
    var s := a + [c] + b;
    assert s[p] == a[p];
    if p > 0 { assert s[p - 1] == a[p - 1]; }
    if p + 1 < |a| { assert s[p + 1] == a[p + 1]; }
    if p + 2 < |a| { assert s[p + 2] == a[p + 2]; }
    if p + 3 < |a| { assert s[p + 3] == a[p + 3]; }
    assert s[|a|] == c && LowerChar(c) == c;
  }

  /** Scanning the part after a separator ignores what came before it. */
  lemma {:induction false} ReplaceTail(s: string, p: nat, b: string)
    requires 1 <= p <= |s| && s[p..] == b && !IsWordChar(s[p - 1])
    ensures ReplacePronounsFrom(s, p) == ReplacePronounsFrom(b, 0)
  {
    ReplaceTailAt(s, p, b, 0);
  }

  lemma {:induction false} ReplaceTailAt(s: string, p: nat, b: string, q: nat)
    requires 1 <= p <= |s| && s[p..] == b && !IsWordChar(s[p - 1]) && q <= |b|
    ensures ReplacePronounsFrom(s, p + q) == ReplacePronounsFrom(b, q)
    decreases |b| - q
  {
    if q < |b| {
      var n := Width(b, q);
      ReplaceTailAt(s, p, b, q + n);
      TailStep(s, p, b, q, n);
    }
  }

  /** One step of the scan, of width `n`, is the same in `b` and in the text it ends. */
  lemma TailStep(s: string, p: nat, b: string, q: nat, n: nat)
    requires 1 <= p <= |s| && s[p..] == b && !IsWordChar(s[p - 1]) && q < |b|
    requires n == Width(b, q) && ReplacePronounsFrom(s, p + q + n) == ReplacePronounsFrom(b, q + n)
    ensures ReplacePronounsFrom(s, p + q) == ReplacePronounsFrom(b, q)
  {
    WordAtTail(s, p, b, q);
    assert s[p + q] == b[q];
    var head := if YouAt(b, q) || WeAt(b, q) then "one" else [b[q]];
    assert ReplacePronounsFrom(s, p + q) == head + ReplacePronounsFrom(s, p + q + n);
    assert ReplacePronounsFrom(b, q) == head + ReplacePronounsFrom(b, q + n);
  }

  lemma WordAtTail(s: string, p: nat, b: string, q: nat)
    requires 1 <= p <= |s| && s[p..] == b && !IsWordChar(s[p - 1]) && q < |b|
    ensures YouAt(s, p + q) <==> YouAt(b, q)
    ensures WeAt(s, p + q) <==> WeAt(b, q)
  {
    assert forall i :: 0 <= i < |b| ==> s[p + i] == b[i];
    if q > 0 { assert s[p + q - 1] == b[q - 1]; }
  }
}
