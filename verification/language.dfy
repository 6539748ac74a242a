/** Locale handling of the STT base class: the configured `lang` value is
    normalised once at construction (`STT.init_language`), and adapters let a
    per-call language override it (`language or self.lang`). */
module Language {
  import opened Outcomes
  import opened Config
  import opened Text

  /** The locale used when the configuration has no `lang` key. */
  const DefaultLang: string := "en-US"

  /** Re-cases a locale tag made of exactly two `-`-separated parts to
      lower-case primary subtag and upper-case region subtag; every other
      string (no dash, several dashes) is returned as it is. */
  function NormalizeLocale(lang: string): (r: string)
    ensures |r| == |lang|
    ensures Count(lang, '-') != 1 ==> r == lang
    ensures Count(lang, '-') == 1 ==>
      exists k :: 0 <= k < |lang| && lang[k] == '-' &&
        r == Lower(lang[..k]) + "-" + Upper(lang[k + 1..])
  {
    var parts := Split(lang, '-');
    if |parts| == 2 then
      assert parts[1..] == [parts[1]];
      assert Join(parts[1..], '-') == parts[1];
      assert lang == parts[0] + "-" + parts[1];
      assert lang[..|parts[0]|] == parts[0] && lang[|parts[0]| + 1..] == parts[1];
      Lower(parts[0]) + "-" + Upper(parts[1])
    else
      lang
  }

  /** Normalising an already normalised tag changes nothing. */
  lemma {:induction false} NormalizeLocaleIdempotent(lang: string)
    ensures NormalizeLocale(NormalizeLocale(lang)) == NormalizeLocale(lang)
  {
    var parts := Split(lang, '-');
    if |parts| == 2 {
      var a, b := Lower(parts[0]), Upper(parts[1]);
      CaseKeepsAbsent(parts[0], '-');
      CaseKeepsAbsent(parts[1], '-');
      assert [a, b][1..] == [b];
      assert a + "-" + b == Join([a, b], '-');
      SplitJoin([a, b], '-');
      LowerIdempotent(parts[0]);
      UpperIdempotent(parts[1]);
    }
  }

  /** Splitting `a-b` where neither side holds a dash gives the two sides. */
  lemma SplitPair(a: string, b: string)
    requires '-' !in a && '-' !in b
    ensures Split(a + "-" + b, '-') == [a, b]
  {
    SplitAfterPart(a, '-', b);
    SplitNoSeparator(b, '-');
  }

  /** The default tag is already in normal form. */
  lemma DefaultLangNormal()
    ensures NormalizeLocale(DefaultLang) == DefaultLang
  {
    assert DefaultLang == "en" + "-" + "US";
    SplitPair("en", "US");
    assert Lower("en") == "en";
    assert Upper("US") == "US";
  }

  /** The casing rule on concrete tags: both spellings of a two-part tag land
      on the same normal form. */
  lemma NormalizeTwoPartExamples()
    ensures NormalizeLocale("en-us") == "en-US"
    ensures NormalizeLocale("EN-us") == "en-US"
  {
    NormalizeLowerRegion();
    NormalizeUpperLanguage();
  }

  lemma NormalizeLowerRegion()
    ensures NormalizeLocale("en-us") == "en-US"
  {
    assert "en-us" == "en" + "-" + "us";
    SplitPair("en", "us");
    assert Lower("en") == "en";
    assert Upper("us") == "US";
  }

  lemma NormalizeUpperLanguage()
    ensures NormalizeLocale("EN-us") == "en-US"
  {
    assert "EN-us" == "EN" + "-" + "us";
    SplitPair("EN", "us");
    assert Lower("EN") == "en";
    assert Upper("us") == "US";
  }

  /** Tags with no dash or with several dashes are left alone. */
  lemma NormalizeOtherShapesExamples()
    ensures NormalizeLocale("zh") == "zh"
    ensures NormalizeLocale("zh-hans-cn") == "zh-hans-cn"
  {
    SplitNoSeparator("zh", '-');
    NormalizeThreePartExample();
  }

  lemma NormalizeThreePartExample()
    ensures NormalizeLocale("zh-hans-cn") == "zh-hans-cn"
  {
    assert "zh-hans-cn" == "zh" + "-" + ("hans" + "-" + "cn");
    SplitAfterPart("zh", '-', "hans" + "-" + "cn");
    SplitPair("hans", "cn");
  }

  /** The language an instance ends up with (`STT.__init__` followed by
      `init_language`): the configured `lang`, defaulting to `en-US`,
      normalised; a `lang` that is not a string has no `split` and raises. */
  function InitLanguage(config: map<string, Value>): (r: Outcome<string>)
    ensures "lang" !in config ==> r == Returned(DefaultLang)
    ensures "lang" in config && config["lang"].Str? ==>
      r == Returned(NormalizeLocale(config["lang"].s))
    ensures "lang" in config && !config["lang"].Str? ==>
      r.Raised? && r.exc.AttributeError?
  {
    match Get(config, "lang", Str(DefaultLang))
    case Str(lang) =>
      DefaultLangNormal();
      Returned(NormalizeLocale(lang))
    case _ => Raised(AttributeError("object has no attribute 'split'"))
  }

  /** Python's `language or self.lang`: a given, non-empty per-call language
      wins; `None` or the empty string keeps the current one. */
  function ResolveLanguage(language: Option<string>, current: string): (r: string)
    ensures language.Some? && language.value != "" ==> r == language.value
    ensures language.None? || language == Some("") ==> r == current
  {
    if language.Some? && language.value != "" then language.value else current
  }
}
