/**
 * The provider order shared by ai/proofreader.js and ai/translator.js:
 * the on-device API first, the hosted model (`geminiCall`) second and only
 * in hybrid mode, and a local string transform last.
 *
 * The on-device answer is used only when it is truthy, while the hosted
 * answer is used even when it is empty; a throw in either falls through.
 */
module AiFallback {
  import opened Js

  /** What the on-device API did: it is not present, it threw, or it finished with a result. */
  datatype Native = Missing | NativeThrew | Finished(result: Option<string>)

  /** Which step produced the text. */
  datatype Source = FromNative | FromHybrid | FromLocal

  /** The text returned, where it came from, and whether the hosted model was called. */
  datatype Outcome = Outcome(text: string, source: Source, hybridCalled: bool)

  /** The on-device result, when it is the one returned. */
  predicate NativeWins(native: Native) {
    native.Finished? && Truthy(native.result)
  }

  /**
   * The chain: `native` answers first; the hosted model is consulted only
   * when that falls through and the mode is `'hybrid'`.
   */
  function Chain(native: Native, mode: string, hybrid: Reply<string>, local: string): (r: Outcome)
    ensures r.source == FromNative <==> NativeWins(native)
    ensures r.source == FromNative ==> r.text == native.result.value
    ensures r.hybridCalled <==> !NativeWins(native) && mode == "hybrid"
    ensures r.source == FromHybrid <==> r.hybridCalled && hybrid.Returned?
    ensures r.source == FromHybrid ==> r.text == hybrid.value
    ensures r.source == FromLocal <==> !NativeWins(native) && (mode != "hybrid" || hybrid.Threw?)
    ensures r.source == FromLocal ==> r.text == local
  {
    if NativeWins(native) then Outcome(native.result.value, FromNative, false)
    else if mode == "hybrid" then
      match hybrid
      case Returned(t) => Outcome(t, FromHybrid, true)
      case Threw => Outcome(local, FromLocal, true)
    else Outcome(local, FromLocal, false)
  }

  /** An empty or missing on-device result, a throw, and no API at all behave the same. */
  lemma FalsyNativeFallsThrough(mode: string, hybrid: Reply<string>, local: string, result: Option<string>)
    requires !Truthy(result)
    ensures Chain(Finished(result), mode, hybrid, local) == Chain(Missing, mode, hybrid, local)
    ensures Chain(NativeThrew, mode, hybrid, local) == Chain(Missing, mode, hybrid, local)
  {
  }

  /** An empty hosted answer is still returned: in hybrid mode the local transform is not reached. */
  lemma EmptyHybridAnswerIsReturned(native: Native, local: string)
    requires !NativeWins(native)
    ensures Chain(native, "hybrid", Returned(""), local).text == ""
    ensures Chain(native, "hybrid", Returned(""), local).source == FromHybrid
  {
  }

  /** Outside hybrid mode the hosted model's answer cannot affect the result. */
  lemma OfflineIgnoresHybrid(native: Native, mode: string, h1: Reply<string>, h2: Reply<string>, local: string)
    requires mode != "hybrid"
    ensures Chain(native, mode, h1, local) == Chain(native, mode, h2, local)
    ensures !Chain(native, mode, h1, local).hybridCalled
  {
  }
}
