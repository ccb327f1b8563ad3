/** `get_response`: picks the English or the Ukrainian text of a reply
    from the user's stored language code. */
module Localization {

  /** The code that selects the English text; every other code selects
      the Ukrainian one. */
  const English: string := "en"

  /** `user_languages.get(user_id, "en")`, then English exactly when that
      code is `"en"`. The map is only read. */
  function GetResponse(languages: map<int, string>, userId: int, enText: string, ukText: string): (r: string)
    ensures r == enText || r == ukText
    ensures userId !in languages ==> r == enText
    ensures userId in languages && languages[userId] != English ==> r == ukText
  {
    var lang := if userId in languages then languages[userId] else English;
    if lang == English then enText else ukText
  }

  /** When the two texts differ, the English one is chosen exactly for users
      with no entry or with the entry `"en"`. */
  lemma EnglishExactly(languages: map<int, string>, userId: int, enText: string, ukText: string)
    requires enText != ukText
    ensures GetResponse(languages, userId, enText, ukText) == enText
            <==> userId !in languages || languages[userId] == English
  {
  }

  /** Storing a code for one user (`user_languages[id] = lang` of the
      language buttons) selects the text that a lookup in that same map
      returns for that user, and leaves every other user's lookup as it
      was. */
  lemma StoreLanguage(languages: map<int, string>, userId: int, lang: string, other: int, enText: string, ukText: string)
    ensures GetResponse(languages[userId := lang], userId, enText, ukText) == if lang == English then enText else ukText
    ensures other != userId ==>
              GetResponse(languages[userId := lang], other, enText, ukText) == GetResponse(languages, other, enText, ukText)
  {
  }

  /** `user_languages` of the localization module: created empty, and
      nothing in the repository writes it. */
  const HandlerLanguages: map<int, string> := map[]

  /** `get_response` of the localization module always gives the English
      text, since its map stays empty; only a write into the map, which no
      code performs, would select the Ukrainian text. */
  lemma StoredChoiceIgnored(stored: map<int, string>, userId: int, lang: string, enText: string, ukText: string)
    requires lang != English
    ensures GetResponse(HandlerLanguages, userId, enText, ukText) == enText
    ensures GetResponse(stored[userId := lang], userId, enText, ukText) == ukText
  {
  }
}
