/** The pure decisions inside three vendor adapters, with every network call
    left out: Yandex's choice of sample rate and language check, IBM's
    request preconditions and model choice, and Kaldi's `[noise]` scrub. */
module Vendors {
  import opened Outcomes
  import opened Language

  /** One call of an adapter's `execute`: the instance's `lang` afterwards,
      and what the call returned or raised. The adapters store the resolved
      language (`self.lang = language or self.lang`) before checking it, so
      a language they reject stays in force for later calls. */
  datatype Call<T> = Call(lang: string, outcome: Outcome<T>)

  // ---------------------------------------------------------------- Yandex

  /** The sample rates Yandex SpeechKit accepts, in ascending order. */
  const YandexSampleRates: seq<int> := [8000, 16000, 48000]

  /** The locales the Yandex adapter accepts. */
  const YandexLanguages: seq<string> := ["en-US", "ru-RU", "tr-TR"]

  /** The rate the Yandex adapter asks the audio to be converted to: the
      source rate when Yandex supports it, else the smallest supported rate
      above it, else (above every supported rate) the largest one. */
  method SelectSampleRate(sourceRate: int) returns (rate: int)
    ensures rate in YandexSampleRates
    ensures sourceRate in YandexSampleRates ==> rate == sourceRate
    ensures sourceRate !in YandexSampleRates && sourceRate < 48000 ==>
      sourceRate < rate && forall s :: s in YandexSampleRates && sourceRate < s ==> rate <= s
    ensures sourceRate > 48000 ==> rate == 48000
  {
    rate := sourceRate;
    if rate !in YandexSampleRates {
      var i := 0;
      while i < |YandexSampleRates|
        invariant 0 <= i <= |YandexSampleRates|
        invariant rate == sourceRate
        invariant forall j :: 0 <= j < i ==> YandexSampleRates[j] <= sourceRate
      {
        if sourceRate < YandexSampleRates[i] {
          rate := YandexSampleRates[i];
          break;
        }
        i := i + 1;
      }
      if rate !in YandexSampleRates {
        rate := YandexSampleRates[|YandexSampleRates| - 1];
      }
    }
  }

  /** The language check that opens `YandexSTT.execute`: the per-call
      language, else the instance's, is stored and must be one Yandex
      serves. */
  function YandexLanguage(language: Option<string>, current: string): (r: Call<string>)
    ensures r.lang == ResolveLanguage(language, current)
    ensures r.outcome.Returned? <==> r.lang in YandexLanguages
    ensures r.outcome.Returned? ==> r.outcome.value == r.lang
    ensures r.outcome.Raised? ==> r.outcome.exc.ValueError?
  {
    var lang := ResolveLanguage(language, current);
    if lang in YandexLanguages then Call(lang, Returned(lang))
    else Call(lang, Raised(ValueError("Unsupported language '" + lang + "' for Yandex STT")))
  }

  /** Once Yandex has rejected a language, every later call that names no
      language of its own is rejected the same way. */
  lemma YandexRejectionPersists(language: Option<string>, current: string)
    requires YandexLanguage(language, current).outcome.Raised?
    ensures YandexLanguage(None, YandexLanguage(language, current).lang) == YandexLanguage(language, current)
  {
  }

  // ------------------------------------------------------------------- IBM

  /** The locales the IBM adapter accepts. */
  const IbmLanguages: seq<string> := [
    "ar-AR", "pt-BR", "zh-CN", "nl-NL", "en-GB", "en-US", "fr-FR",
    "de-DE", "it-IT", "ja-JP", "ko-KR", "es-AR", "es-ES", "es-CL",
    "es-CO", "es-MX", "es-PE"
  ]

  /** Below this rate IBM's narrowband model is used. */
  const BroadbandMinRate: int := 16000

  /** What `IBMSTT.execute` posts: the endpoint and the recognition model. */
  datatype IbmRequest = IbmRequest(url: string, model: string)

  /** Whether the narrowband model is chosen: low-rate audio, except for
      Arabic, which only has a broadband model. */
  predicate UsesNarrowband(lang: string, sampleRate: int) {
    sampleRate < BroadbandMinRate && lang != "ar-AR"
  }

  /** The checks and model choice of `IBMSTT.execute`, in the source's
      order: an API key, then an endpoint, then the resolved language is
      stored and must be supported. A token of `None` stands for one that
      was never configured. */
  function IbmRequestFor(token: Option<string>, urlBase: string, language: Option<string>,
                         current: string, sampleRate: int): (r: Call<IbmRequest>)
    ensures (token.None? || token == Some("")) ==> r.outcome.Raised? && r.outcome.exc.ValueError?
    ensures r.outcome.Raised? ==> r.outcome.exc.ValueError?
    ensures r.lang == (if token.None? || token == Some("") || urlBase == "" then current
                       else ResolveLanguage(language, current))
    ensures r.outcome.Returned? ==> token.Some? && token.value != "" && urlBase != ""
    ensures r.outcome.Returned? ==> r.lang in IbmLanguages
    ensures r.outcome.Returned? ==> r.outcome.value.url == urlBase + "/v1/recognize"
    ensures r.outcome.Returned? ==>
      (r.outcome.value.model == r.lang + "_NarrowbandModel" <==> UsesNarrowband(r.lang, sampleRate)) &&
      (r.outcome.value.model == r.lang + "_BroadbandModel" <==> !UsesNarrowband(r.lang, sampleRate))
    ensures (token.Some? && token.value != "" && urlBase != "" &&
             ResolveLanguage(language, current) in IbmLanguages) ==> r.outcome.Returned?
  {
    if token.None? || token.value == "" then
      Call(current, Raised(ValueError("API key (token) for IBM Cloud is not defined.")))
    else if urlBase == "" then
      Call(current, Raised(ValueError("URL for IBM Cloud is not defined.")))
    else
      var lang := ResolveLanguage(language, current);
      if lang !in IbmLanguages then
        Call(lang, Raised(ValueError("Unsupported language \"" + lang + "\" for IBM STT.")))
      else
        var audioModel := if UsesNarrowband(lang, sampleRate) then "NarrowbandModel" else "BroadbandModel";
        ModelNames(lang, UsesNarrowband(lang, sampleRate));
        Call(lang, Returned(IbmRequest(urlBase + "/v1/recognize", lang + "_" + audioModel)))
  }

  /** A failed IBM call leaves the instance in a state where every later
      call with the same credentials and no language of its own fails too,
      whatever the audio's rate: a missing key or endpoint fails again, and
      a rejected language has been stored. */
  lemma IbmRejectionPersists(token: Option<string>, urlBase: string, language: Option<string>,
                             current: string, sampleRate: int, laterRate: int)
    requires IbmRequestFor(token, urlBase, language, current, sampleRate).outcome.Raised?
    ensures IbmRequestFor(token, urlBase, None, IbmRequestFor(token, urlBase, language, current, sampleRate).lang,
                          laterRate).outcome.Raised?
  {
  }

  /** The two model names of a language are told apart by their suffix. */
  lemma ModelNames(lang: string, narrow: bool)
    ensures var m := lang + "_" + (if narrow then "NarrowbandModel" else "BroadbandModel");
      (m == lang + "_NarrowbandModel" <==> narrow) && (m == lang + "_BroadbandModel" <==> !narrow)
  {
    assert (lang + "_NarrowbandModel")[|lang| + 1..] == "NarrowbandModel";
    assert (lang + "_BroadbandModel")[|lang| + 1..] == "BroadbandModel";
    assert lang + "_" + "NarrowbandModel" == lang + "_NarrowbandModel";
    assert lang + "_" + "BroadbandModel" == lang + "_BroadbandModel";
  }

  /** The token as `TokenSTT` stores it: `str(credential.get("token"))`,
      which renders a missing token as the four-letter string `None`. */
  function TokenAsWritten(credential: map<string, string>): string {
    if "token" in credential then credential["token"] else "None"
  }

  /** The token with a missing one kept distinguishable. */
  function Token(credential: map<string, string>): Option<string> {
    if "token" in credential then Some(credential["token"]) else None
  }

  /** `IBMSTT.execute` as written: its "not defined" check sees the string
      `None` for a missing token and lets the call proceed. */
  function IbmRequestAsWritten(credential: map<string, string>, urlBase: string,
                               language: Option<string>, current: string, sampleRate: int): Call<IbmRequest> {
    IbmRequestFor(Some(TokenAsWritten(credential)), urlBase, language, current, sampleRate)
  }

  /** A credential without a token gets past the key check as written. */
  lemma MissingTokenSlipsThrough()
    ensures IbmRequestAsWritten(map[], "https://stt.example", None, "en-US", 16000).outcome.Returned?
  {
    assert "en-US" in IbmLanguages;
  }

  /** `IBMSTT.execute` with the token check it evidently intends: a missing
      or empty token is refused before anything else happens. */
  function IbmRequestChecked(credential: map<string, string>, urlBase: string,
                       language: Option<string>, current: string, sampleRate: int): (r: Call<IbmRequest>)
    ensures ("token" !in credential || credential["token"] == "") ==>
      r.outcome.Raised? && r.outcome.exc.ValueError? && r.lang == current
    ensures r.outcome.Returned? ==> "token" in credential && credential["token"] != ""
  {
    IbmRequestFor(Token(credential), urlBase, language, current, sampleRate)
  }

  /** The corrected check differs from the one as written only for a
      credential without a token. */
  lemma CheckedAgreesWhenTokenPresent(credential: map<string, string>, urlBase: string,
                                      language: Option<string>, current: string, sampleRate: int)
    ensures "token" in credential ==>
      IbmRequestChecked(credential, urlBase, language, current, sampleRate)
        == IbmRequestAsWritten(credential, urlBase, language, current, sampleRate)
    ensures "token" !in credential ==>
      IbmRequestChecked(credential, urlBase, language, current, sampleRate).outcome.Raised? &&
      IbmRequestAsWritten(credential, urlBase, language, current, sampleRate)
        == IbmRequestFor(Some("None"), urlBase, language, current, sampleRate)
  {
  }

  // ----------------------------------------------------------------- Kaldi

  /** Python's `\s` on `str` patterns: the characters `str.isspace` accepts. */
  predicate IsSpace(c: char) {
    var n := c as int;
    (9 <= n <= 13) || (28 <= n <= 32) || n == 0x85 || n == 0xA0 || n == 0x1680 ||
    (0x2000 <= n <= 0x200A) || n == 0x2028 || n == 0x2029 || n == 0x202F ||
    n == 0x205F || n == 0x3000
  }

  /** The token Kaldi emits for non-speech. */
  const NoiseTag: string := "[noise]"

  /** Length of the longest run of whitespace that starts `s`. */
  function LeadingSpaces(s: string): (n: nat)
    ensures n <= |s|
    ensures forall i :: 0 <= i < n ==> IsSpace(s[i])
    ensures n < |s| ==> !IsSpace(s[n])
  {
    if s == [] || !IsSpace(s[0]) then 0 else 1 + LeadingSpaces(s[1..])
  }

  /** Length of the match of `\s*\[noise\]\s*` at the start of `s`, or 0
      when there is none. The leading `\s*` is greedy and `[` is not
      whitespace, so giving back whitespace never helps a match. */
  function NoiseMatch(s: string): (n: nat)
    ensures n <= |s|
    ensures n > 0 ==> n >= |NoiseTag|
  {
    var w := LeadingSpaces(s);
    if w + |NoiseTag| <= |s| && s[w..w + |NoiseTag|] == NoiseTag then
      w + |NoiseTag| + LeadingSpaces(s[w + |NoiseTag|..])
    else 0
  }

  /** `re.sub(r'\s*\[noise\]\s*', '', s)`: scan left to right, drop every
      match together with the whitespace around it, keep everything else. */
  function StripNoise(s: string): (r: string)
    ensures |r| <= |s|
    decreases |s|
  {
    if s == [] then []
    else
      var n := NoiseMatch(s);
      if n > 0 then StripNoise(s[n..]) else [s[0]] + StripNoise(s[1..])
  }

  /** No match can start at a character that is neither whitespace nor `[`. */
  lemma NoMatchAtPlainChar(s: string)
    requires s != [] && !IsSpace(s[0]) && s[0] != '['
    ensures NoiseMatch(s) == 0
  {
    assert LeadingSpaces(s) == 0;
    assert |NoiseTag| <= |s| ==> s[0..|NoiseTag|][0] == s[0];
  }

  /** Text without any bracket comes back unchanged. */
  lemma {:induction false} StripNoiseWithoutBracket(s: string)
    requires '[' !in s
    ensures StripNoise(s) == s
    decreases |s|
  {
    if s != [] {
      var w := LeadingSpaces(s);
      assert w + |NoiseTag| <= |s| ==> s[w..w + |NoiseTag|][0] == s[w];
      assert NoiseMatch(s) == 0;
      assert '[' !in s[1..];
      StripNoiseWithoutBracket(s[1..]);
    }
  }

  /** A word with no whitespace and no bracket is kept as it is, whatever
      follows it. */
  lemma {:induction false} StripNoiseKeepsPlainPrefix(word: string, rest: string)
    requires forall i :: 0 <= i < |word| ==> !IsSpace(word[i]) && word[i] != '['
    ensures StripNoise(word + rest) == word + StripNoise(rest)
    decreases |word|
  {
    if word == [] {
      assert word + rest == rest;
    } else {
      PlainCharKept(word, rest);
      var tail := word[1..];
      assert forall i :: 0 <= i < |tail| ==> tail[i] == word[i + 1];
      StripNoiseKeepsPlainPrefix(tail, rest);
      ConsAssoc(word, StripNoise(rest));
    }
  }

  lemma ConsAssoc(word: string, x: string)
    requires word != []
    ensures [word[0]] + (word[1..] + x) == word + x
  {
  }

  /** One step of the above: the first character of the word is kept. */
  lemma PlainCharKept(word: string, rest: string)
    requires word != [] && !IsSpace(word[0]) && word[0] != '['
    ensures StripNoise(word + rest) == [word[0]] + StripNoise(word[1..] + rest)
  {
    var s := word + rest;
    assert s == [word[0]] + (word[1..] + rest);
    NoMatchAtPlainChar(s);
    StripNoiseKeepsChar(word[0], word[1..] + rest);
  }

  /** A tag with whitespace around it vanishes whole, whitespace included. */
  lemma StripNoiseDropsTag(before: string, after: string)
    requires forall i :: 0 <= i < |before| ==> IsSpace(before[i])
    requires forall i :: 0 <= i < |after| ==> IsSpace(after[i])
    ensures StripNoise(before + NoiseTag + after) == []
  {
    var s := before + NoiseTag + after;
    assert s[|before|] == '[';
    assert LeadingSpaces(s) == |before|;
    assert s[|before|..|before| + |NoiseTag|] == NoiseTag;
    assert s[|before| + |NoiseTag|..] == after;
    assert NoiseMatch(s) == |s|;
    assert s[|s|..] == [];
  }

  /** A tag directly followed by bracket-free text that does not start with
      whitespace leaves just that text. */
  lemma StripNoiseTagThenText(b: string)
    requires '[' !in b
    requires b == [] || !IsSpace(b[0])
    ensures StripNoise(NoiseTag + b) == b
  {
    var t := NoiseTag + b;
    assert LeadingSpaces(t) == 0;
    assert t[0..7] == NoiseTag && t[7..] == b;
    assert LeadingSpaces(b) == 0;
    assert NoiseMatch(t) == 7;
    StripNoiseWithoutBracket(b);
  }

  /** No match starts at a `[` that another `[` follows within a tag's length. */
  lemma NoMatchAtBrokenTag(a: string, t: string)
    requires |a| <= 5
    requires forall i :: 0 <= i < |a| ==> !IsSpace(a[i]) && a[i] != '['
    requires |t| >= 1 && t[0] == '['
    ensures NoiseMatch("[" + (a + t)) == 0
  {
    var s := "[" + (a + t);
    assert !IsSpace(s[0]);
    assert LeadingSpaces(s) == 0;
    assert s[1 + |a|] == '[';
    if |NoiseTag| <= |s| {
      assert s[0..|NoiseTag|][1 + |a|] == '[';
      assert NoiseTag[1 + |a|] != '[';
    }
  }

  /** Where no match starts, the scrub keeps the first character. */
  lemma StripNoiseKeepsChar(c: char, rest: string)
    requires NoiseMatch([c] + rest) == 0
    ensures StripNoise([c] + rest) == [c] + StripNoise(rest)
  {
    assert ([c] + rest)[1..] == rest;
  }

  /** A tag cut in two by another tag: the inner tag goes, and the outer
      halves join up. */
  lemma StripNoiseSplitTag(a: string, b: string)
    requires |a| <= 5
    requires forall i :: 0 <= i < |a| ==> !IsSpace(a[i]) && a[i] != '['
    requires '[' !in b
    requires b == [] || !IsSpace(b[0])
    ensures StripNoise("[" + (a + (NoiseTag + b))) == "[" + (a + b)
  {
    var t := NoiseTag + b;
    var rest := a + t;
    StripNoiseKeepsPlainPrefix(a, t);
    StripNoiseTagThenText(b);
    assert StripNoise(rest) == a + b;
    var s := "[" + rest;
    NoMatchAtBrokenTag(a, t);
    StripNoiseKeepsChar('[', rest);
  }

  /** The scrub is not idempotent: in `[no[noise]ise]` the inner tag goes
      and the outer halves join up into a fresh `[noise]`. */
  lemma StripNoiseNotIdempotent()
    ensures StripNoise("[" + ("no" + (NoiseTag + "ise]"))) == "[" + ("no" + "ise]")
    ensures "[" + ("no" + "ise]") == NoiseTag
  {
    StripNoiseSplitTag("no", "ise]");
  }
}
