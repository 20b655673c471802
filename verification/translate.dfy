/**
 * The scrape client of utils/translate.ts: the decisions `googleScrape` and
 * `textToSpeechScrape` take around their network calls.
 *
 * The network is a parameter: `upstream` answers a request with the outcome
 * of the fetch. For a translation that outcome carries the text of the page's
 * `.result-container` element, for speech the response body's bytes. HTML
 * parsing, URL encoding and the User-Agent header are not part of this model.
 */
module Translate {
  import opened Wrappers
  import Language

  newtype byte = x: int | 0 <= x < 256

  /** A character that JavaScript's `String.prototype.trim` removes. */
  predicate IsJsWhitespace(c: char)
  {
    // WhiteSpace and LineTerminator of ECMAScript, with the Unicode space separators
    || c == '\t' || c == '\n' || c == '\U{B}' || c == '\U{C}' || c == '\r' || c == ' '
    || c == '\U{A0}' || c == '\U{1680}' || ('\U{2000}' <= c <= '\U{200A}')
    || c == '\U{2028}' || c == '\U{2029}' || c == '\U{202F}' || c == '\U{205F}'
    || c == '\U{3000}' || c == '\U{FEFF}'
  }

  /** `s` without its leading whitespace. */
  function TrimStart(s: string): (r: string)
    ensures |r| <= |s| && r == s[|s| - |r|..]
    ensures forall i :: 0 <= i < |s| - |r| ==> IsJsWhitespace(s[i])
    ensures r != [] ==> !IsJsWhitespace(r[0])
  {
    if s != [] && IsJsWhitespace(s[0]) then TrimStart(s[1..]) else s
  }

  /** `s` without its trailing whitespace. */
  function TrimEnd(s: string): (r: string)
    ensures |r| <= |s| && r == s[..|r|]
    ensures forall i :: |r| <= i < |s| ==> IsJsWhitespace(s[i])
    ensures r != [] ==> !IsJsWhitespace(r[|r| - 1])
  {
    if s != [] && IsJsWhitespace(s[|s| - 1]) then TrimEnd(s[..|s| - 1]) else s
  }

  /** Every character of `t` is whitespace. */
  predicate AllWhitespace(t: string)
  {
    forall i :: 0 <= i < |t| ==> IsJsWhitespace(t[i])
  }

  /**
   * `s` without leading and trailing whitespace: a slice of `s` with only
   * whitespace before and after it, that neither starts nor ends with
   * whitespace, and that is empty exactly when `s` is all whitespace.
   */
  function Trim(s: string): (r: string)
    ensures exists lo :: (0 <= lo <= |s| && AllWhitespace(s[..lo]) && r <= s[lo..]
                          && AllWhitespace(s[lo..][|r|..]))
    ensures r != [] ==> !IsJsWhitespace(r[0]) && !IsJsWhitespace(r[|r| - 1])
    ensures r == [] <==> AllWhitespace(s)
  {
    var head := TrimStart(s);
    var r := TrimEnd(head);
    var lo := |s| - |head|;
    assert head == s[lo..];
    assert AllWhitespace(s[..lo]);
    assert AllWhitespace(head[|r|..]);
    assert 0 <= lo <= |s| && AllWhitespace(s[..lo]) && r <= s[lo..] && AllWhitespace(s[lo..][|r|..]);
    r
  }

  /** Trimming twice is trimming once. */
  lemma TrimIdempotent(s: string)
    ensures Trim(Trim(s)) == Trim(s)
  {
  }

  /** The status range for which a fetch Response reports `ok`. */
  predicate Ok(status: int)
  {
    200 <= status <= 299
  }

  const RetrievingError := "An error occurred while retrieving the translation"
  const ParsingError := "An error occurred while parsing the translation"

  /** The request `googleScrape` sends: mapped codes and the query. */
  datatype TranslationRequest = TranslationRequest(sl: string, tl: string, q: string)

  /**
   * What the translation fetch gives back: a rejected promise, or a response
   * with its status and the text content of its result container.
   */
  datatype FetchOutcome = Rejected | Response(status: int, containerText: string)

  /** The record `googleScrape` resolves to; absent fields are left out. */
  datatype ScrapeResult = ScrapeResult(
    translationRes: Option<string>,
    statusCode: Option<int>,
    errorMsg: Option<string>)

  /** Exactly one of the three fields is present. */
  predicate ExactlyOneField(r: ScrapeResult)
  {
    || (r.translationRes.Some? && r.statusCode.None? && r.errorMsg.None?)
    || (r.translationRes.None? && r.statusCode.Some? && r.errorMsg.None?)
    || (r.translationRes.None? && r.statusCode.None? && r.errorMsg.Some?)
  }

  /** The request for a translation: both codes go through the mapping tables. */
  function TranslationRequestFor(d: Language.LanguageData, source: string, target: string, query: string)
    : (req: TranslationRequest)
    ensures source in d.mappings.source ==> req.sl == d.mappings.source[source]
    ensures source !in d.mappings.source ==> req.sl == source
    ensures target in d.mappings.target ==> req.tl == d.mappings.target[target]
    ensures target !in d.mappings.target ==> req.tl == target
    ensures req.q == query
  {
    var parsed := Language.ReplaceBoth(d, Language.Mapping, Language.Langs(source, target));
    TranslationRequest(parsed.source, parsed.target, query)
  }

  /**
   * Sorts a fetch outcome into exactly one field: a rejected fetch gives the
   * retrieving error, a non-ok response its status code, an ok response the
   * trimmed container text, or the parsing error when nothing but whitespace is left.
   */
  function ClassifyTranslation(outcome: FetchOutcome): (r: ScrapeResult)
    ensures ExactlyOneField(r)
    ensures outcome.Rejected? ==> r.errorMsg == Some(RetrievingError)
    ensures outcome.Response? && !Ok(outcome.status) ==> r.statusCode == Some(outcome.status)
    ensures r.statusCode.Some? ==> outcome.Response? && !Ok(outcome.status)
    ensures r.translationRes.Some? <==>
      outcome.Response? && Ok(outcome.status)
      && exists i :: 0 <= i < |outcome.containerText| && !IsJsWhitespace(outcome.containerText[i])
    ensures r.translationRes.Some? ==> r.translationRes.value == Trim(outcome.containerText)
    ensures outcome.Response? && Ok(outcome.status) && r.translationRes.None? ==>
      r.errorMsg == Some(ParsingError)
  {
    match outcome
    case Rejected => ScrapeResult(None, None, Some(RetrievingError))
    case Response(status, containerText) =>
      if !Ok(status) then ScrapeResult(None, Some(status), None)
      else
        var translationRes := Trim(containerText);
        if translationRes != "" then ScrapeResult(Some(translationRes), None, None)
        else ScrapeResult(None, None, Some(ParsingError))
  }

  /** A successful translation is non-empty and has no surrounding whitespace. */
  lemma TranslationIsTrimmed(outcome: FetchOutcome)
    ensures var r := ClassifyTranslation(outcome).translationRes;
      r.Some? ==> (r.value != [] && !IsJsWhitespace(r.value[0]) && !IsJsWhitespace(r.value[|r.value| - 1])
                   && Trim(r.value) == r.value)
  {
    if outcome.Response? {
      TrimIdempotent(outcome.containerText);
    }
  }

  /**
   * `googleScrape`: send the mapped request, then classify what comes back.
   * Whatever the upstream does, exactly one field is set.
   */
  function GoogleScrape(
    d: Language.LanguageData, source: string, target: string, query: string,
    upstream: TranslationRequest -> FetchOutcome)
    : (r: ScrapeResult)
    ensures ExactlyOneField(r)
    ensures var req := TranslationRequestFor(d, source, target, query);
      && (upstream(req).Rejected? <==> r.errorMsg == Some(RetrievingError))
      && (upstream(req).Response? && !Ok(upstream(req).status) <==> r.statusCode.Some?)
      && (r.statusCode.Some? ==> r.statusCode == Some(upstream(req).status))
      && (r.translationRes.Some? <==>
            upstream(req).Response? && Ok(upstream(req).status) && Trim(upstream(req).containerText) != "")
      && (r.translationRes.Some? ==> r.translationRes == Some(Trim(upstream(req).containerText)))
      && (upstream(req).Response? && Ok(upstream(req).status) && Trim(upstream(req).containerText) == "" ==>
            r.errorMsg == Some(ParsingError))
  {
    ClassifyTranslation(upstream(TranslationRequestFor(d, source, target, query)))
  }

  /** The speech endpoint's limit on the text length, in characters. */
  const SpeechTextLimit := 100

  /** The request `textToSpeechScrape` sends. */
  datatype SpeechRequest = SpeechRequest(tl: string, q: string, textlen: nat)

  /** What the speech fetch gives back: a rejected promise, or a status and body. */
  datatype SpeechOutcome = SpeechRejected | SpeechResponse(status: int, body: seq<byte>)

  /**
   * The speech request for a text: none for an absent or empty text, otherwise
   * the mapped target code and the text's first 100 characters with their count.
   */
  function SpeechRequestFor(d: Language.LanguageData, lang: string, text: Option<string>)
    : (r: Option<SpeechRequest>)
    ensures r.None? <==> text.None? || text.value == ""
    ensures r.Some? ==> r.value.q <= text.value
    ensures r.Some? ==> |r.value.q| == if |text.value| < SpeechTextLimit then |text.value| else SpeechTextLimit
    ensures r.Some? ==> r.value.textlen == |r.value.q|
    ensures r.Some? && lang in d.mappings.target ==> r.value.tl == d.mappings.target[lang]
    ensures r.Some? && lang !in d.mappings.target ==> r.value.tl == lang
  {
    match text
    case None => None
    case Some(t) =>
      if t == "" then None
      else
        var parsedLang := Language.ReplaceBoth(d, Language.Mapping, Language.Langs("", lang)).target;
        var slicedText := if |t| <= SpeechTextLimit then t else t[..SpeechTextLimit];
        Some(SpeechRequest(parsedLang, slicedText, |slicedText|))
  }

  /**
   * `textToSpeechScrape`: the response body's bytes when a request was sent and
   * answered with an ok status, `None` (the source's null) otherwise.
   */
  function TextToSpeechScrape(
    d: Language.LanguageData, lang: string, text: Option<string>,
    upstream: SpeechRequest -> SpeechOutcome)
    : (r: Option<seq<byte>>)
    ensures (text.None? || text.value == "") ==> r.None?
    ensures var req := SpeechRequestFor(d, lang, text);
      && (r.Some? <==> req.Some? && upstream(req.value).SpeechResponse? && Ok(upstream(req.value).status))
      && (r.Some? ==> r.value == upstream(req.value).body)
  {
    match SpeechRequestFor(d, lang, text)
    case None => None
    case Some(req) =>
      match upstream(req)
      case SpeechRejected => None
      case SpeechResponse(status, body) => if Ok(status) then Some(body) else None
  }
}
