/**
 * The last step of `translateText`: picking the translated string out of
 * the decoded response of the translation endpoint.
 */
module Translation {
  import opened Outcomes

  /** One element of the endpoint's JSON array; only `translation_text` is read. */
  datatype TranslationItem = TranslationItem(translationText: string)

  /**
   * `fetched` is what the request, the transport and the JSON decoding
   * produced: a failure from any of them, or the decoded array. The result
   * is the first element's text, or `NoTranslation` for an empty array.
   */
  function TranslateText(fetched: Result<seq<TranslationItem>, Error>): (r: Result<string, Error>)
    ensures r.Success? <==> fetched.Success? && |fetched.value| > 0
    ensures r.Success? ==> r.value == fetched.value[0].translationText
    ensures fetched.Failure? ==> r == Failure(fetched.error)
    ensures fetched == Success([]) ==> r == Failure(NoTranslation)
  {
    match fetched
    case Failure(e) => Failure(e)
    case Success(items) =>
      if |items| > 0 then Success(items[0].translationText)
      else Failure(NoTranslation)
  }
}
