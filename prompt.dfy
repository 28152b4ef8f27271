/**
 * ai/prompt.js: the output-language choice, the once-only session memo of
 * `getSession`, the helpers that answer `''` without a session, and the
 * accumulator of `promptStream`. The on-device model itself is outside the
 * model: its availability, its answers and its stream of chunks are inputs.
 */
module Prompt {
  import opened Js
  import opened Strings

  /**
   * `getDefaultOutputLanguage()`: `nav` is the read of `navigator.language`,
   * `Threw` when that read or the lower-casing throws.
   */
  function DefaultOutputLanguage(nav: Reply<Option<string>>): (r: string)
    ensures r == "en" || r == "es" || r == "ja"
    ensures nav.Threw? ==> r == "en"
    ensures nav.Returned? ==>
      var tag := ToLower(OrEmpty(Or(nav.value, Some("en"))));
      && (r == "es" <==> StartsWith(tag, "es"))
      && (r == "ja" <==> !StartsWith(tag, "es") && StartsWith(tag, "ja"))
  {
    match nav
    case Threw => "en"
    case Returned(l) =>
      var tag := ToLower(OrEmpty(Or(l, Some("en"))));
      if StartsWith(tag, "es") then "es"
      else if StartsWith(tag, "ja") then "ja"
      else "en"
  }

  /** A missing or empty language tag counts as English. */
  lemma FalsyTagIsEnglish(l: Option<string>)
    requires !Truthy(l)
    ensures DefaultOutputLanguage(Returned(l)) == "en"
  {
    assert ToLower("en") == "en";
  }

  /** The choice ignores ASCII case: a tag and its lower-cased form give the same language. */
  lemma LanguageIgnoresCase(t: string)
    ensures DefaultOutputLanguage(Returned(Some(t))) == DefaultOutputLanguage(Returned(Some(ToLower(t))))
  {
    ToLowerIdempotent(t);
  }

  /**
   * Only the first two characters matter: a tag extended by a region or
   * anything else (`es` and `es-MX`) gives the same language.
   */
  lemma LanguageByPrefix(t: string, x: string)
    requires |t| >= 2
    ensures DefaultOutputLanguage(Returned(Some(t + x))) == DefaultOutputLanguage(Returned(Some(t)))
  {
    var u := t + x;
    ToLowerPrefix(u, 2);
    ToLowerPrefix(t, 2);
    assert u[..2] == t[..2];
    assert ToLower(u)[..2] == ToLower(t)[..2];
  }

  /** Each recognised tag, in whatever case, selects its language. */
  lemma LanguageExamples()
    ensures DefaultOutputLanguage(Returned(Some("ES"))) == "es"
    ensures DefaultOutputLanguage(Returned(Some("ja"))) == "ja"
    ensures DefaultOutputLanguage(Returned(Some("fr"))) == "en"
  {
    assert ToLower("ES") == "es";
    assert ToLower("ja") == "ja";
    assert ToLower("fr") == "fr";
  }

  // ---------------------------------------------------------------------
  // getSession and the helpers

  /** The `opts` of `getSession(opts)`; a key that is present overrides the default. */
  datatype SessionOpts = SessionOpts(outputLanguage: Option<string>, expectedInputs: Option<seq<string>>)

  const NoOpts := SessionOpts(None, None)

  /** The options `LanguageModel.create` received. */
  datatype SessionConfig = SessionConfig(outputLanguage: string, expectedInputs: Option<seq<string>>)

  /** `{ outputLanguage: lang, ...opts }`. */
  function Configure(lang: string, opts: SessionOpts): SessionConfig {
    SessionConfig(opts.outputLanguage.GetOr(lang), opts.expectedInputs)
  }

  /** The spread lets `opts` override the language and keeps its other keys. */
  lemma ConfigureSpread(lang: string, opts: SessionOpts)
    ensures opts.outputLanguage.None? ==> Configure(lang, opts).outputLanguage == lang
    ensures opts.outputLanguage.Some? ==> Configure(lang, opts).outputLanguage == opts.outputLanguage.value
    ensures Configure(lang, opts).expectedInputs == opts.expectedInputs
  {
  }

  /** What a call sees of the world: `LanguageModel.availability()` and `navigator.language`. */
  datatype Env = Env(available: string, nav: Reply<Option<string>>)

  predicate Usable(hasApi: bool, env: Env) {
    hasApi && env.available != "unavailable"
  }

  /** The result of `promptStructured`: `JSON.parse(res)` when it parses, else `res`. */
  datatype Structured = Text(text: string) | Parsed(json: string)

  /** One `onChunk(chunk, out)` call. */
  datatype ChunkCall = ChunkCall(chunk: string, soFar: string)

  /** `out` after the chunks: their concatenation. */
  function Concat(chunks: seq<string>): string {
    Join(chunks, "")
  }

  lemma ConcatSnoc(chunks: seq<string>, c: string)
    ensures Concat(chunks + [c]) == Concat(chunks) + c
  {
    if |chunks| == 0 {
      assert chunks + [c] == [c];
    } else {
      JoinSnoc(chunks, c, "");
    }
  }

  /**
   * The loop of `promptStream`: `out` grows by each chunk in turn and, when
   * there is a callback, it is called once per chunk with that chunk and
   * the text so far.
   */
  method Accumulate(chunks: seq<string>, hasCallback: bool) returns (out: string, calls: seq<ChunkCall>)
    ensures out == Concat(chunks)
    ensures hasCallback ==> |calls| == |chunks|
    ensures hasCallback ==> forall i :: 0 <= i < |chunks| ==> calls[i] == ChunkCall(chunks[i], Concat(chunks[..i + 1]))
    ensures !hasCallback ==> calls == []
  {
    out := "";
    calls := [];
    var i := 0;
    while i < |chunks|
      invariant 0 <= i <= |chunks|
      invariant out == Concat(chunks[..i])
      invariant hasCallback ==> |calls| == i
      invariant hasCallback ==> forall k :: 0 <= k < i ==> calls[k] == ChunkCall(chunks[k], Concat(chunks[..k + 1]))
      invariant !hasCallback ==> calls == []
    {
      ConcatSnoc(chunks[..i], chunks[i]);
      assert chunks[..i + 1] == chunks[..i] + [chunks[i]];
      out := out + chunks[i];
      if hasCallback {
        calls := calls + [ChunkCall(chunks[i], out)];
      }
      i := i + 1;
    }
    assert chunks[..i] == chunks;
  }

  /**
   * What each callback sees is a prefix of the final text, and each one
   * extends the one before by exactly its own chunk.
   */
  lemma {:induction false} StreamPrefixes(chunks: seq<string>, i: nat)
    requires i < |chunks|
    ensures StartsWith(Concat(chunks), Concat(chunks[..i + 1]))
    ensures Concat(chunks[..i + 1]) == Concat(chunks[..i]) + chunks[i]
    decreases |chunks|
  {
    assert chunks[..i + 1] == chunks[..i] + [chunks[i]];
    ConcatSnoc(chunks[..i], chunks[i]);
    var n := |chunks| - 1;
    assert chunks == chunks[..n] + [chunks[n]];
    ConcatSnoc(chunks[..n], chunks[n]);
    if i < n {
      StreamPrefixes(chunks[..n], i);
      assert chunks[..n][..i + 1] == chunks[..i + 1];
    } else {
      assert chunks[..i + 1] == chunks;
    }
  }

  /** The module state of ai/prompt.js. */
  class PromptModule {
    /** `'LanguageModel' in self`. */
    const hasApi: bool
    /** The memoised `session`. */
    var session: Option<SessionConfig>
    /** How many times `LanguageModel.create` has been called. */
    var created: nat

    ghost predicate Valid()
      reads this
    {
      created == if session.Some? then 1 else 0
    }

    constructor (hasApi: bool)
      ensures Valid() && this.hasApi == hasApi && session.None? && created == 0
    {
      this.hasApi := hasApi;
      session := None;
      created := 0;
    }

    /**
     * `getSession(opts)`: null without the API or when it reports
     * `'unavailable'` (asked on every call, even once a session exists);
     * otherwise the memoised session, created on the first such call with
     * that call's options and never again.
     */
    method GetSession(env: Env, opts: SessionOpts) returns (s: Option<SessionConfig>)
      requires Valid()
      modifies this
      ensures Valid() && created <= 1
      ensures s == if Usable(hasApi, env) then session else None
      ensures Usable(hasApi, env) ==> s.Some?
      ensures !Usable(hasApi, env) || old(session).Some? ==> session == old(session)
      ensures Usable(hasApi, env) && old(session).None? ==>
                session == Some(Configure(DefaultOutputLanguage(env.nav), opts))
    {
      if !hasApi { return None; }
      if env.available == "unavailable" { return None; }
      if session.None? {
        session := Some(Configure(DefaultOutputLanguage(env.nav), opts));
        created := created + 1;
      }
      s := session;
    }

    /** `promptText(text)`: `answer` is what the session's `prompt` resolves to. */
    method PromptText(env: Env, answer: string) returns (r: string)
      requires Valid()
      modifies this
      ensures Valid()
      ensures !Usable(hasApi, env) || old(session).Some? ==> session == old(session)
      ensures Usable(hasApi, env) && old(session).None? ==>
                session == Some(Configure(DefaultOutputLanguage(env.nav), NoOpts))
      ensures r == if Usable(hasApi, env) then answer else ""
    {
      var s := GetSession(env, NoOpts);
      if s.None? { return ""; }
      r := answer;
    }

    /** `promptStructured(text, schema)`: `parsed` is `JSON.parse(answer)` when that does not throw. */
    method PromptStructured(env: Env, answer: string, parsed: Option<string>) returns (r: Structured)
      requires Valid()
      modifies this
      ensures Valid()
      ensures !Usable(hasApi, env) || old(session).Some? ==> session == old(session)
      ensures Usable(hasApi, env) && old(session).None? ==>
                session == Some(Configure(DefaultOutputLanguage(env.nav), NoOpts))
      ensures !Usable(hasApi, env) ==> r == Text("")
      ensures Usable(hasApi, env) ==> r == if parsed.Some? then Parsed(parsed.value) else Text(answer)
    {
      var s := GetSession(env, NoOpts);
      if s.None? { return Text(""); }
      r := if parsed.Some? then Parsed(parsed.value) else Text(answer);
    }

    /** `promptMultimodal(parts, expected)`: asks for a session expecting `expected`, by default image and audio. */
    method PromptMultimodal(env: Env, expected: Option<seq<string>>, answer: string) returns (r: string)
      requires Valid()
      modifies this
      ensures Valid()
      ensures r == if Usable(hasApi, env) then answer else ""
      ensures !Usable(hasApi, env) || old(session).Some? ==> session == old(session)
      ensures Usable(hasApi, env) && old(session).None? ==>
                session == Some(Configure(DefaultOutputLanguage(env.nav), SessionOpts(None, Some(expected.GetOr(["image", "audio"])))))
    {
      var s := GetSession(env, SessionOpts(None, Some(expected.GetOr(["image", "audio"]))));
      if s.None? { return ""; }
      r := answer;
    }

    /** `promptStream(text, onChunk)`: `chunks` is what the session streams. */
    method PromptStream(env: Env, chunks: seq<string>, hasCallback: bool) returns (out: string, calls: seq<ChunkCall>)
      requires Valid()
      modifies this
      ensures Valid()
      ensures !Usable(hasApi, env) || old(session).Some? ==> session == old(session)
      ensures Usable(hasApi, env) && old(session).None? ==>
                session == Some(Configure(DefaultOutputLanguage(env.nav), NoOpts))
      ensures !Usable(hasApi, env) ==> out == "" && calls == []
      ensures Usable(hasApi, env) ==> out == Concat(chunks)
      ensures Usable(hasApi, env) && hasCallback ==>
                |calls| == |chunks| && forall i :: 0 <= i < |chunks| ==> calls[i] == ChunkCall(chunks[i], Concat(chunks[..i + 1]))
    {
      var s := GetSession(env, NoOpts);
      if s.None? { return "", []; }
      out, calls := Accumulate(chunks, hasCallback);
    }
  }

  /**
   * A text prompt followed by a multimodal one: the session is created once,
   * by the first call, so the `expectedInputs` of the second never reach it.
   */
  method TextThenMultimodal(env: Env, expected: Option<seq<string>>) returns (m: PromptModule)
    requires env.available != "unavailable"
    ensures m.Valid() && m.created == 1
    ensures m.session == Some(SessionConfig(DefaultOutputLanguage(env.nav), None))
  {
    m := new PromptModule(true);
    var a := m.PromptText(env, "a");
    var b := m.PromptMultimodal(env, expected, "b");
  }
}
