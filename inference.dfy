/**
  `ask_supermom`: the request it sends to the hosted inference API and the
  way it turns what comes back into one string.

  The network call itself is not modelled. What it can produce is the
  datatype `Outcome`: either the transport failed, or a reply arrived with a
  status code, its raw text, and what `response.json()` makes of that text.
 */
module Inference {
  import opened Wrappers
  import opened PyString
  import opened Prompt

  const ModelName: string := "HuggingFaceH4/zephyr-7b-beta"
  const ApiBase: string := "https://api-inference.huggingface.co/models/"

  /** The fixed generation parameters of every request. */
  datatype Parameters = Parameters(maxNewTokens: nat, temperature: real, topP: real)

  const Generation: Parameters := Parameters(200, 0.7, 0.9)

  /** The POST `ask_supermom` issues: URL, the two headers, and the JSON body. */
  datatype Request = Request(
    url: string,
    authorization: string,
    contentType: string,
    inputs: string,
    parameters: Parameters)

  /** The request for one question: it goes to the configured model, carries
      the key as a bearer token, sends the fixed generation parameters, and
      its `inputs` is a prompt from which the question reads back verbatim. */
  function BuildRequest(apiKey: string, system: string, question: string): (req: Request)
    ensures req.url == ApiBase + ModelName
    ensures req.authorization == "Bearer " + apiKey
    ensures req.contentType == "application/json"
    ensures ExtractQuestion(system, req.inputs) == Some(question)
    ensures req.parameters == Parameters(200, 0.7, 0.9)
  {
    ExtractBuildRoundTrip(system, question);
    Request(ApiBase + ModelName, "Bearer " + apiKey, "application/json",
            BuildPrompt(system, question), Generation)
  }

  /** One element of a JSON list: its string-valued keys. */
  datatype Item = Item(fields: map<string, string>)

  /** What `response.json()` makes of the reply text: a list, any other JSON
      value, or a decoding failure with its description. */
  datatype Body = ListBody(items: seq<Item>) | OtherJson | Unparseable(error: string)

  /** The result of the POST. */
  datatype Outcome =
    | TransportError(description: string)
    | HttpReply(status: nat, text: string, body: Body)

  const GeneratedText: string := "generated_text"

  /** What the code relies on without checking: a 200 list reply is non-empty
      and its first element has `generated_text` (otherwise the indexing
      raises, and nothing is promised). */
  predicate Indexable(o: Outcome) {
    o.HttpReply? && o.status == 200 && o.body.ListBody? ==>
      |o.body.items| > 0 && GeneratedText in o.body.items[0].fields
  }

  /** The four things `ask_supermom` can report. */
  datatype Reply =
    | Answer(text: string)
    | FormatError
    | ApiError(status: nat, body: string)
    | NetworkError(description: string)

  /** Which of the four an outcome is. Only status 200 is a success (other 2xx
      codes are API errors); a 200 reply is an answer exactly when its JSON is
      a list, and then the answer is the stripped `generated_text` of the first
      element; an undecodable 200 reply raises inside the `try` and is reported
      like a transport failure. */
  function Interpret(o: Outcome): (r: Reply)
    requires Indexable(o)
    ensures r.Answer? <==> o.HttpReply? && o.status == 200 && o.body.ListBody?
    ensures r.Answer? ==>
              Trimmed(r.text) && IsCore(r.text, o.body.items[0].fields[GeneratedText])
    ensures r.FormatError? <==> o.HttpReply? && o.status == 200 && o.body.OtherJson?
    ensures r.ApiError? <==> o.HttpReply? && o.status != 200
    ensures r.ApiError? ==> r.status == o.status && r.body == o.text
    ensures r.NetworkError? <==>
      o.TransportError? || (o.status == 200 && o.body.Unparseable?)
    ensures o.TransportError? ==> r == NetworkError(o.description)
    ensures o.HttpReply? && o.status == 200 && o.body.Unparseable? ==>
              r == NetworkError(o.body.error)
  {
    match o
    case TransportError(d) => NetworkError(d)
    case HttpReply(status, text, body) =>
      if status == 200 then
        match body
        case ListBody(items) => Answer(Strip(items[0].fields[GeneratedText]))
        case OtherJson => FormatError
        case Unparseable(e) => NetworkError(e)
      else ApiError(status, text)
  }

  const FormatMessage: string := "Unexpected response format."
  const ApiPrefix: string := "\U{274C} API Error: "
  const ApiSeparator: string := " - "
  const NetworkPrefix: string := "\U{274C} Network Error: "

  /** The string `ask_supermom` returns for each kind of reply: the answer
      itself, the fixed format message, or an error message from which the
      status code and reply text, or the failure description, read back. */
  function Message(r: Reply): (m: string)
    ensures r.Answer? ==> m == r.text
    ensures r.FormatError? ==> m == FormatMessage
    ensures r.ApiError? ==> ParseApiError(m) == Some((r.status, r.body))
    ensures r.NetworkError? ==> ParseNetworkError(m) == Some(r.description)
  {
    match r
    case Answer(t) => t
    case FormatError => FormatMessage
    case ApiError(status, body) =>
      ApiErrorRoundTrip(status, body);
      ApiPrefix + NatToString(status) + ApiSeparator + body
    case NetworkError(d) =>
      NetworkErrorRoundTrip(d);
      NetworkPrefix + d
  }

  /** `ask_supermom(question)`, with the network call as the function
      `upstream`. The outcome `o` of the request for this question decides the
      result: a 200 list reply gives the first `generated_text` with its
      whitespace margins cut off; a 200 reply of any other JSON shape gives
      the format message; any other status, 2xx included, an API-error message
      carrying that status and the reply text; a transport failure, or a 200
      reply that does not decode, a network-error message carrying the
      failure's description. */
  function AskSupermom(apiKey: string, system: string, question: string,
                       upstream: Request -> Outcome): (m: string)
    requires Indexable(upstream(BuildRequest(apiKey, system, question)))
    ensures var o := upstream(BuildRequest(apiKey, system, question));
      && (o.HttpReply? && o.status == 200 && o.body.ListBody? ==>
            Trimmed(m) && IsCore(m, o.body.items[0].fields[GeneratedText]))
      && (o.HttpReply? && o.status == 200 && o.body.OtherJson? ==> m == FormatMessage)
      && (o.HttpReply? && o.status != 200 ==> ParseApiError(m) == Some((o.status, o.text)))
      && (o.TransportError? ==> ParseNetworkError(m) == Some(o.description))
      && (o.HttpReply? && o.status == 200 && o.body.Unparseable? ==>
            ParseNetworkError(m) == Some(o.body.error))
  {
    Message(Interpret(upstream(BuildRequest(apiKey, system, question))))
  }

  // ---------------------------------------------------------------------
  // Reading the error messages back

  /** Status and body of an API-error message, or `None`. The status must be
      written as `str(int)` writes it (no leading zero), so whatever it reads
      is exactly what the message was rendered from. */
  function ParseApiError(m: string): (p: Option<(nat, string)>)
    ensures p.Some? ==> m == ApiPrefix + NatToString(p.value.0) + ApiSeparator + p.value.1
  {
    if ApiPrefix <= m then
      var split := SplitDigits(m[|ApiPrefix|..]);
      if Canonical(split.0) && ApiSeparator <= split.1 then
        ApiMessageRebuilt(m, split.0, split.1);
        Some((DigitsValue(split.0), split.1[|ApiSeparator|..]))
      else None
    else None
  }

  /** The pieces `ParseApiError` cuts a message into put it back together. */
  lemma ApiMessageRebuilt(m: string, digits: string, rest: string)
    requires ApiPrefix <= m && m[|ApiPrefix|..] == digits + rest
    requires Canonical(digits) && ApiSeparator <= rest
    ensures m == ApiPrefix + NatToString(DigitsValue(digits)) + ApiSeparator
                 + rest[|ApiSeparator|..]
  {
    CanonicalRoundTrip(digits);
    var body := rest[|ApiSeparator|..];
    assert rest == ApiSeparator + body;
    assert m == ApiPrefix + m[|ApiPrefix|..];
    calc {
      ApiPrefix + NatToString(DigitsValue(digits)) + ApiSeparator + body;
      ApiPrefix + (digits + (ApiSeparator + body));
      ApiPrefix + m[|ApiPrefix|..];
    }
  }

  /** Description of a network-error message, or `None`. */
  function ParseNetworkError(m: string): Option<string> {
    if NetworkPrefix <= m then Some(m[|NetworkPrefix|..]) else None
  }

  /** An API-error message carries the status code and the reply text, and
      both can be read back from it. */
  lemma ApiErrorRoundTrip(status: nat, body: string)
    ensures ParseApiError(ApiPrefix + NatToString(status) + ApiSeparator + body)
              == Some((status, body))
  {
    var digits := NatToString(status);
    var m := ApiPrefix + NatToString(status) + ApiSeparator + body;
    assert m == ApiPrefix + (digits + (ApiSeparator + body));
    assert m[|ApiPrefix|..] == digits + (ApiSeparator + body);
    SplitDigitsOf(digits, ApiSeparator + body);
    NatToStringRoundTrip(status);
  }

  /** A network-error message carries the transport failure's description. */
  lemma NetworkErrorRoundTrip(description: string)
    ensures ParseNetworkError(NetworkPrefix + description) == Some(description)
  {
    assert (NetworkPrefix + description)[|NetworkPrefix|..] == description;
  }

  /** The three error messages never coincide: each error kind has its own
      shape. */
  lemma ErrorMessagesDistinct(r1: Reply, r2: Reply)
    requires !r1.Answer? && !r2.Answer? && Message(r1) == Message(r2)
    ensures r1 == r2
  {
    var m := Message(r1);
    if r1.ApiError? || r2.ApiError? {
      assert m[2] == 'A' <==> r1.ApiError?;
      assert m[2] == 'A' <==> r2.ApiError?;
    } else if r1.NetworkError? || r2.NetworkError? {
      assert m[0] == '\U{274C}' <==> r1.NetworkError?;
      assert m[0] == '\U{274C}' <==> r2.NetworkError?;
    }
  }

  /** A model answer is not told apart from an error: a generated text that
      reads "Unexpected response format." gives the same string as a reply
      whose JSON is not a list. */
  lemma AnswerCanMimicError(apiKey: string, system: string, question: string, text: string)
    ensures AskSupermom(apiKey, system, question,
              _ => HttpReply(200, text, ListBody([Item(map[GeneratedText := FormatMessage])])))
         == AskSupermom(apiKey, system, question, _ => HttpReply(200, text, OtherJson))
  {
    StripTrimmed(FormatMessage);
  }
}
