/**
 * ai/proofreader.js: `proofreadText` and its local fallback
 * `text.replace(/\s+/g, ' ').replace(/\s,/, ',')`.
 */
module Proofreader {
  import opened Js
  import opened Strings
  import opened AiFallback

  /** No two neighbouring characters are both whitespace. */
  predicate NoAdjacentSpace(s: string) {
    forall i :: 0 <= i < |s| - 1 ==> !(IsSpace(s[i]) && IsSpace(s[i + 1]))
  }

  /** Every whitespace character is a plain space. */
  predicate SpacesArePlain(s: string) {
    forall i :: 0 <= i < |s| ==> IsSpace(s[i]) ==> s[i] == ' '
  }

  /** `.replace(/\s+/g, ' ')`: every maximal whitespace run becomes one space. */
  function CollapseSpaces(s: string): (r: string)
    ensures NoAdjacentSpace(r) && SpacesArePlain(r)
    ensures |r| <= |s|
    ensures |s| > 0 <==> |r| > 0
    ensures |s| > 0 ==> (IsSpace(r[0]) <==> IsSpace(s[0]))
    decreases |s|
  {
    if |s| == 0 then ""
    else if IsSpace(s[0]) then
      var n := LeadingSpaces(s);
      var rest := CollapseSpaces(s[n..]);
      assert n < |s| ==> !IsSpace(s[n..][0]);
      " " + rest
    else [s[0]] + CollapseSpaces(s[1..])
  }

  /** Collapsing leaves text that already has single plain spaces unchanged, so it is idempotent. */
  lemma {:induction false} CollapseSpacesIdentity(s: string)
    requires NoAdjacentSpace(s) && SpacesArePlain(s)
    ensures CollapseSpaces(s) == s
    decreases |s|
  {
    if |s| > 0 {
      assert NoAdjacentSpace(s[1..]) && SpacesArePlain(s[1..]) by {
        forall i | 0 <= i < |s[1..]| ensures IsSpace(s[1..][i]) ==> s[1..][i] == ' ' {
          assert s[1..][i] == s[i + 1];
        }
        forall i | 0 <= i < |s[1..]| - 1 ensures !(IsSpace(s[1..][i]) && IsSpace(s[1..][i + 1])) {
          assert s[1..][i] == s[i + 1] && s[1..][i + 1] == s[i + 2];
        }
      }
      if IsSpace(s[0]) {
        assert LeadingSpaces(s) == 1 by {
          if |s| > 1 { assert !IsSpace(s[1]); }
        }
      }
      CollapseSpacesIdentity(s[1..]);
    }
  }

  /** The characters of `s` other than whitespace, in order. */
  function NonSpace(s: string): string {
    if |s| == 0 then ""
    else if IsSpace(s[0]) then NonSpace(s[1..])
    else [s[0]] + NonSpace(s[1..])
  }

  /** A leading whitespace prefix contributes nothing to `NonSpace`. */
  lemma {:induction false} NonSpaceSkipsSpaces(s: string, k: nat)
    requires k <= |s| && AllSpace(s[..k])
    ensures NonSpace(s) == NonSpace(s[k..])
    decreases k
  {
    if k > 0 {
      assert IsSpace(s[..k][0]);
      var p := s[1..][..k - 1];
      assert AllSpace(p) by {
        forall j | 0 <= j < |p| ensures IsSpace(p[j]) {
          assert p[j] == s[..k][j + 1];
        }
      }
      NonSpaceSkipsSpaces(s[1..], k - 1);
      assert s[1..][k - 1..] == s[k..];
    }
  }

  /** Collapsing keeps every character other than whitespace, in order, and drops none. */
  lemma {:induction false} CollapseSpacesKeepsText(s: string)
    ensures NonSpace(CollapseSpaces(s)) == NonSpace(s)
    decreases |s|
  {
    if |s| > 0 {
      if IsSpace(s[0]) {
        var n := LeadingSpaces(s);
        var rest := CollapseSpaces(s[n..]);
        assert CollapseSpaces(s) == " " + rest;
        assert (" " + rest)[1..] == rest;
        CollapseSpacesKeepsText(s[n..]);
        NonSpaceSkipsSpaces(s, n);
      } else {
        assert CollapseSpaces(s) == [s[0]] + CollapseSpaces(s[1..]);
        assert ([s[0]] + CollapseSpaces(s[1..]))[1..] == CollapseSpaces(s[1..]);
        CollapseSpacesKeepsText(s[1..]);
      }
    }
  }

  /** A maximal whitespace run, however long, becomes exactly one `' '`. */
  lemma CollapseSpacesRun(w: string, t: string)
    requires |w| > 0 && AllSpace(w)
    requires |t| == 0 || !IsSpace(t[0])
    ensures CollapseSpaces(w + t) == " " + CollapseSpaces(t)
  {
    var s := w + t;
    assert s[0] == w[0];
    LeadingSpacesOfRun(w, t);
    assert s[|w|..] == t;
  }

  /** The leading run of `w + t` is exactly `w`. */
  lemma {:induction false} LeadingSpacesOfRun(w: string, t: string)
    requires AllSpace(w)
    requires |t| == 0 || !IsSpace(t[0])
    ensures LeadingSpaces(w + t) == |w|
    decreases |w|
  {
    if |w| == 0 {
      assert w + t == t;
    } else {
      assert (w + t)[0] == w[0];
      assert (w + t)[1..] == w[1..] + t;
      assert AllSpace(w[1..]) by {
        forall j | 0 <= j < |w[1..]| ensures IsSpace(w[1..][j]) {
          assert w[1..][j] == w[j + 1];
        }
      }
      LeadingSpacesOfRun(w[1..], t);
    }
  }

  /** A character other than whitespace is copied as it is. */
  lemma CollapseSpacesKeepsChar(c: char, t: string)
    requires !IsSpace(c)
    ensures CollapseSpaces([c] + t) == [c] + CollapseSpaces(t)
  {
    assert ([c] + t)[1..] == t;
  }

  lemma CollapseSpacesIdempotent(s: string)
    ensures CollapseSpaces(CollapseSpaces(s)) == CollapseSpaces(s)
  {
    CollapseSpacesIdentity(CollapseSpaces(s));
  }

  /** Where `/\s,/` matches first, if anywhere. */
  function FirstSpaceComma(s: string, from: nat): (i: Option<nat>)
    requires from <= |s|
    ensures i.Some? ==> from <= i.value && i.value + 1 < |s| && IsSpace(s[i.value]) && s[i.value + 1] == ','
    ensures i.Some? ==> forall j :: from <= j < i.value ==> !(IsSpace(s[j]) && s[j + 1] == ',')
    ensures i.None? ==> forall j :: from <= j < |s| - 1 ==> !(IsSpace(s[j]) && s[j + 1] == ',')
    decreases |s| - from
  {
    if from + 1 >= |s| then None
    else if IsSpace(s[from]) && s[from + 1] == ',' then Some(from)
    else FirstSpaceComma(s, from + 1)
  }

  /** `.replace(/\s,/, ',')`, without the `g` flag: only the first occurrence. */
  function FixFirstSpaceComma(s: string): (r: string)
  {
    match FirstSpaceComma(s, 0)
    case None => s
    case Some(i) => s[..i] + s[i + 1..]
  }

  /** The local fallback of `proofreadText`. */
  function LocalProofread(text: string): string {
    FixFirstSpaceComma(CollapseSpaces(text))
  }

  /** The local fallback never leaves two whitespace characters side by side, and every space is plain. */
  lemma LocalProofreadSpacing(text: string)
    ensures NoAdjacentSpace(LocalProofread(text)) && SpacesArePlain(LocalProofread(text))
  {
    var c := CollapseSpaces(text);
    var r := LocalProofread(text);
    match FirstSpaceComma(c, 0)
    case None =>
    case Some(i) =>
      assert r == c[..i] + c[i + 1..];
      forall j | 0 <= j < |r| - 1 ensures !(IsSpace(r[j]) && IsSpace(r[j + 1])) {
        if j + 1 < i {
          assert r[j] == c[j] && r[j + 1] == c[j + 1];
        } else if j + 1 == i {
          assert r[j + 1] == c[i + 1] == ',';
        } else {
          assert r[j] == c[j + 1] && r[j + 1] == c[j + 2];
        }
      }
      forall j | 0 <= j < |r| ensures IsSpace(r[j]) ==> r[j] == ' ' {
        if j < i { assert r[j] == c[j]; } else { assert r[j] == c[j + 1]; }
      }
  }

  /**
   * Only the first space before a comma goes; the text after that comma is
   * kept as it was, including any later space before a comma.
   */
  lemma FixOnlyFirst(s: string)
    ensures FirstSpaceComma(s, 0).None? ==> FixFirstSpaceComma(s) == s
    ensures FirstSpaceComma(s, 0).Some? ==>
      var i := FirstSpaceComma(s, 0).value;
      && FixFirstSpaceComma(s) == s[..i] + s[i + 1..]
      && FixFirstSpaceComma(s)[i..] == s[i + 1..]
      && |FixFirstSpaceComma(s)| == |s| - 1
  {
  }

  /**
   * `proofreadText(text)` given what the on-device proofreader and the
   * hosted model do and the settings mode.
   */
  function ProofreadText(text: string, native: Native, mode: string, hybrid: Reply<string>): (r: string)
    ensures NativeWins(native) ==> r == native.result.value
    ensures !NativeWins(native) && mode == "hybrid" && hybrid.Returned? ==> r == hybrid.value
    ensures !NativeWins(native) && (mode != "hybrid" || hybrid.Threw?) ==> r == LocalProofread(text)
  {
    Chain(native, mode, hybrid, LocalProofread(text)).text
  }
}
