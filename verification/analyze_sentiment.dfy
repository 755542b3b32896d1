/** The sentiment endpoint: it asks a chat-completion service for a one-word
    label of a text and answers "positive", "neutral" or "negative",
    falling back to "neutral" whenever the service is unavailable or says
    anything else. The service's reply is an input. */
module AnalyzeSentiment {
  import opened Basics
  import opened Text

  const Labels := ["positive", "neutral", "negative"]

  /** What came back from the service: a failed request, a reply without
      the expected message content, or the content. */
  datatype Upstream = NotOk | Malformed | Content(content: string)

  datatype Reply =
    | TextRequired
    | Sentiment(word: string)

  /** The HTTP status of a reply. */
  function Status(r: Reply): int {
    if r.TextRequired? then 400 else 200
  }

  /** The service's word, lowercased and trimmed. */
  function Normalise(content: string): string {
    Trim(ToLower(content))
  }

  /** `POST`: `body` is `None` when the request is not JSON, otherwise the
      `text` field (`None` when missing). A missing or empty text is
      refused; a missing key, a failed or malformed reply and an unknown
      word all give "neutral". */
  function Post(body: Option<Option<string>>, keyConfigured: bool, upstream: Upstream): (r: Reply)
    ensures r.TextRequired? <==> body.Some? && (body.value.None? || body.value.value == "")
    ensures r.Sentiment? ==> r.word in Labels
    ensures r.Sentiment? && r.word != "neutral" ==>
      keyConfigured && upstream.Content? && Normalise(upstream.content) == r.word
    ensures body.None? ==> r == Sentiment("neutral")
    ensures r.Sentiment? && (!keyConfigured || !upstream.Content?) ==> r == Sentiment("neutral")
  {
    match body
    case None => Sentiment("neutral")
    case Some(text) =>
      if text.None? || text.value == "" then TextRequired
      else if !keyConfigured then Sentiment("neutral")
      else match upstream
        case Content(c) => (if Normalise(c) in Labels then Sentiment(Normalise(c)) else Sentiment("neutral"))
        case _ => Sentiment("neutral")
  }

  /** Every reply is either the 400 refusal or a 200 with one of the three
      labels. */
  lemma StatusMatchesReply(body: Option<Option<string>>, keyConfigured: bool, upstream: Upstream)
    ensures var r := Post(body, keyConfigured, upstream);
      (Status(r) == 400 <==> r.TextRequired?) && (Status(r) == 200 <==> r.Sentiment? && r.word in Labels)
  {
  }

  /** A recognised word is passed on, whatever its letter case and the white
      space around it. */
  lemma RecognisedWordPassedOn(text: string, content: string)
    requires text != ""
    requires Normalise(content) in Labels
    ensures Post(Some(Some(text)), true, Content(content)) == Sentiment(Normalise(content))
  {
  }

  /** Normalising is idempotent: a reply that is already a label is
      recognised as itself. */
  lemma NormaliseLabel(w: string)
    requires w in Labels
    ensures Normalise(w) == w
  {
    assert w == "positive" || w == "neutral" || w == "negative";
    assert IsLower(w);
    ToLowerOfLower(w);
    assert !IsWhitespace(w[0]) && !IsWhitespace(w[|w| - 1]);
  }
}
