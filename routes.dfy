/** The language check that routes.go puts in front of every handler. */
module Routes {
  import opened Strings
  import Server

  /** Either the request goes on with the normalised language, or it ends with a status. */
  datatype Decision = Forward(lang: string) | Reject(status: int)

  /** `languageChecker`: lower-case the `lang` path segment and accept the five codes. */
  function LanguageChecker(lang: string): (d: Decision)
    ensures d.Forward? <==> ToLower(lang) in Server.LANGUAGES
    ensures d.Forward? ==> d.lang == ToLower(lang)
    ensures d.Reject? ==> d.status == 400
  {
    var lower := ToLower(lang);
    match lower
    case "en" => Forward(lower)
    case "fr" => Forward(lower)
    case "de" => Forward(lower)
    case "es" => Forward(lower)
    case "pt" => Forward(lower)
    case _ => Reject(400)
  }

  /** Only the lower-cased form matters: "EN" and "en" are treated alike. */
  lemma CheckerIgnoresCase(a: string, b: string)
    requires ToLower(a) == ToLower(b)
    ensures LanguageChecker(a) == LanguageChecker(b)
  {
  }

  /** Checking the forwarded value again accepts it unchanged. */
  lemma CheckerIdempotent(lang: string)
    requires LanguageChecker(lang).Forward?
    ensures LanguageChecker(LanguageChecker(lang).lang) == LanguageChecker(lang)
  {
    ToLowerIdempotent(lang);
  }

  lemma CheckerExamples()
    ensures LanguageChecker("EN") == Forward("en")
    ensures LanguageChecker("Pt") == Forward("pt")
    ensures LanguageChecker("it") == Reject(400)
  {
    assert ToLower("EN") == "en";
    assert ToLower("Pt") == "pt";
  }
}
