/** The language-to-locale table of the i18n setup (src/i18n/i18n.ts). */
module I18n {

  /** `getLanguageLocaleCode`: the app's language codes mapped to locale codes,
      English for anything the table does not know. */
  function LocaleCode(language: string): (code: string)
    ensures code in {"vi", "en", "ja"}
  {
    if language == "vn" then "vi"
    else if language == "en" then "en"
    else if language == "jp" then "ja"
    else "en"
  }

  /** The table's three entries, and the fallback for every other code. */
  lemma LocaleCodeTable(language: string)
    ensures LocaleCode("vn") == "vi" && LocaleCode("en") == "en" && LocaleCode("jp") == "ja"
    ensures language !in {"vn", "en", "jp"} ==> LocaleCode(language) == "en"
  {
  }
}
