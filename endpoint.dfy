/**
  The second `/ask` handler in the file, taken as the intended one: it reads
  `question` from the JSON body, rejects a missing or empty one with status
  400, and otherwise returns status 200 with whatever `ask_supermom` produced,
  upstream errors included. This handler does not call `clean_response`.
 */
module Endpoint {
  import opened Wrappers
  import opened Prompt
  import opened Inference
  import PyString

  /** The JSON object `jsonify` is given: an `error` field or a `response` field. */
  datatype Payload = ErrorField(error: string) | ResponseField(response: string)

  /** An HTTP reply of the endpoint. */
  datatype Response = Response(status: nat, payload: Payload)

  const NoQuestion: string := "No question provided"

  /** Python's `not question` negated: the `question` field is present, not
      `null`, and not the empty string. This decides whether `ask_supermom`
      is consulted for the request. */
  predicate HasQuestion(question: Option<string>) {
    question.Some? && question.value != ""
  }

  /** The handler. `question` is the `question` field of the request body
      (`None` when absent); `upstream` stands for the network call. */
  function Ask(apiKey: string, system: string, question: Option<string>,
               upstream: Request -> Outcome): (r: Response)
    requires HasQuestion(question) ==>
               Indexable(upstream(BuildRequest(apiKey, system, question.value)))
    ensures r.status == 400 <==> !HasQuestion(question)
    ensures r.status == 400 ==> r.payload == ErrorField(NoQuestion)
    ensures r.status != 400 ==> r.status == 200 && r.payload.ResponseField?
  {
    if !HasQuestion(question) then Response(400, ErrorField(NoQuestion))
    else Response(200, ResponseField(AskSupermom(apiKey, system, question.value, upstream)))
  }

  /** A rejected request never reaches the upstream: its reply is the same
      whatever the network would have done. */
  lemma RejectionIgnoresUpstream(apiKey: string, system: string, question: Option<string>,
                                 up1: Request -> Outcome, up2: Request -> Outcome)
    requires !HasQuestion(question)
    ensures Ask(apiKey, system, question, up1) == Ask(apiKey, system, question, up2)
    ensures Ask(apiKey, system, question, up1) == Response(400, ErrorField(NoQuestion))
  {
  }

  /** An accepted request is answered with status 200 and exactly the string
      `ask_supermom` returns for it, and the prompt sent upstream holds the
      question verbatim. */
  lemma AcceptedRelaysAnswer(apiKey: string, system: string, question: string,
                             upstream: Request -> Outcome)
    requires question != ""
    requires Indexable(upstream(BuildRequest(apiKey, system, question)))
    ensures var req := BuildRequest(apiKey, system, question);
            Ask(apiKey, system, Some(question), upstream)
              == Response(200, ResponseField(AskSupermom(apiKey, system, question, upstream)))
            && ExtractQuestion(system, req.inputs) == Some(question)
  {
  }

  /** Upstream failures are reported with status 200 too: an API error's
      status code and text, and a transport failure's description, reach the
      client inside the `response` field, where they can be read back. */
  lemma UpstreamErrorsReported(apiKey: string, system: string, question: string,
                               upstream: Request -> Outcome)
    requires question != ""
    requires !upstream(BuildRequest(apiKey, system, question)).HttpReply?
          || upstream(BuildRequest(apiKey, system, question)).status != 200
    ensures var o := upstream(BuildRequest(apiKey, system, question));
            var r := Ask(apiKey, system, Some(question), upstream);
            r.status == 200
            && (o.HttpReply? ==>
                  ParseApiError(r.payload.response) == Some((o.status, o.text)))
            && (o.TransportError? ==>
                  ParseNetworkError(r.payload.response) == Some(o.description))
  {
    var o := upstream(BuildRequest(apiKey, system, question));
    match o
    case HttpReply(status, text, _) => ApiErrorRoundTrip(status, text);
    case TransportError(d) => NetworkErrorRoundTrip(d);
  }

  /** The handler does not sanitize: a generated text without surrounding
      whitespace is relayed verbatim, `[INST]` and `[/INST]` included. */
  lemma AnswerRelayedVerbatim(apiKey: string, system: string, question: string,
                              upstream: Request -> Outcome, text: string, generated: string)
    requires question != "" && PyString.Trimmed(generated)
    requires upstream(BuildRequest(apiKey, system, question))
               == HttpReply(200, text, ListBody([Item(map[GeneratedText := generated])]))
    ensures Ask(apiKey, system, Some(question), upstream)
              == Response(200, ResponseField(generated))
  {
    PyString.StripTrimmed(generated);
  }
}
