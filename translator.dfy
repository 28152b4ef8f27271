/** ai/translator.js: `translateText` and its tagged local fallback. */
module Translator {
  import opened Js
  import opened AiFallback

  /** The target language; an omitted argument means French. */
  function Target(target: Option<string>): (t: string)
    ensures target.None? ==> t == "fr"
    ensures target.Some? ==> t == target.value
  {
    target.GetOr("fr")
  }

  /** The local fallback: the text tagged with the target language. */
  function LocalTranslate(text: string, target: string): (r: string)
    ensures |r| == |target| + 3 + |text|
    ensures r[..|target| + 3] == "[" + target + "] "
    ensures r[|target| + 3..] == text
  {
    "[" + target + "] " + text
  }

  /** `translateText(text, target)`. */
  function TranslateText(text: string, target: Option<string>, native: Native, mode: string, hybrid: Reply<string>): (r: string)
    ensures NativeWins(native) ==> r == native.result.value
    ensures !NativeWins(native) && mode == "hybrid" && hybrid.Returned? ==> r == hybrid.value
    ensures !NativeWins(native) && (mode != "hybrid" || hybrid.Threw?) ==> r == LocalTranslate(text, Target(target))
  {
    Chain(native, mode, hybrid, LocalTranslate(text, Target(target))).text
  }

  /** Offline with no on-device translator, the result is `[fr] ` and the text. */
  lemma DefaultTargetOffline(text: string, hybrid: Reply<string>)
    ensures TranslateText(text, None, Missing, "offline", hybrid) == "[fr] " + text
  {
  }
}
