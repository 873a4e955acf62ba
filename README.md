# supermom-chatbot core in Dafny

The chatbot is a small Flask service. A client posts a question to `/ask`.
The service wraps the question in an instruction prompt and posts it to a
hosted language model (`HuggingFaceH4/zephyr-7b-beta` on the Hugging Face
inference API). It then turns the HTTP outcome into one string and returns
that string as JSON. The file also defines a sanitizer, `clean_response`,
which removes the `[INST]` and `[/INST]` instruction tokens from a text and
strips surrounding whitespace.

This project models that logic as pure functions and proves properties of
them:

- `pystring.dfy` (module `PyString`) models the parts of Python's `str` the
  code uses. These are the `isspace()` character set, `strip()`, and the
  decimal form an f-string gives a status code, with a parser to read it
  back.
- `sanitizer.dfy` (module `Sanitizer`) models `clean_response`. The
  `re.sub` becomes a left-to-right scan (`RemoveTokens`). It is also given a
  declarative account: a segmentation of the input into dropped tokens and
  kept characters (`Piece`, `LeftmostScan`). The scan and the segmentation
  are proved to agree.
- `prompt.dfy` (module `Prompt`) models the prompt f-string and its inverse.
- `inference.dfy` (module `Inference`) models `ask_supermom`. It covers the
  request sent upstream, the datatype of what the network call can produce
  (`Outcome`), the four reply kinds (`Reply`), and the strings returned for
  each.
- `endpoint.dfy` (module `Endpoint`) models the second `/ask` handler
  (app.py:56-63), taken as the intended one, as a function from the optional
  `question` field to a status and a JSON payload.
- `wrappers.dfy` (module `Wrappers`) holds an `Option` datatype.

The network call is a parameter `upstream: Request -> Outcome`. So is the
API key, which the code reads from the environment. The system message is a
parameter too, because `SYSTEM_MESSAGE` is never defined in `app.py`.

Four points of the code's behaviour are easy to get wrong. In each case the
model follows the code:

- The second `/ask` handler (app.py:56-63) never calls `clean_response`. The
  model answer goes back exactly as `ask_supermom` returns it, with only
  `strip()` applied (`Endpoint.AnswerRelayedVerbatim`). A generated text
  such as `<s>[INST] Try a cold teething ring. [/INST]>` comes back unchanged,
  not as `Try a cold teething ring.`.
- `clean_response` is not idempotent. Its output can still contain a token,
  because removing one token can join its neighbours into a new one
  (`Sanitizer.RemovalCanCreateToken`). So the model states neither
  idempotence nor "no token remains".
- Only status 200 counts as success. Any other status, including the other
  2xx codes, is reported as an API error.
- Upstream errors are reported with HTTP status 200, inside the `response`
  field.

## Model

| member | source | states |
|---|---|---|
| `PyString.IsSpace` | app.py:20 | the whitespace test of `str.strip()`: its code-point ranges hold for exactly the 29 code points of Python's whitespace table |
| `PyString.SkipSpace` | app.py:20 | the first index at or after `i` that is not whitespace; everything skipped is whitespace |
| `PyString.SkipSpaceBack` | app.py:20 | the end of a range once trailing whitespace is cut; everything cut is whitespace |
| `PyString.Strip` | app.py:20 | `str.strip()`: the result is a slice of the input whose margins on both sides are whitespace only, and the result has no whitespace at either end |
| `PyString.StripUnique` | app.py:20 | any string that is such a slice and has no whitespace at either end equals `Strip(s)`, so the two properties fully specify strip |
| `PyString.StripTrimmed` | app.py:20 | a string without surrounding whitespace is left unchanged by strip |
| `PyString.StripIdempotent` | app.py:20 | stripping twice is the same as stripping once |
| `PyString.NatToString` | app.py:46 | the f-string rendering of the status code is a non-empty run of decimal digits with no leading zero (unless the code is 0) |
| `PyString.NatToStringRoundTrip` | app.py:46 | reading the rendered digits back gives the status code again |
| `PyString.CanonicalRoundTrip` | app.py:46 | every numeral without a leading zero is the rendering of the number it denotes, so rendering is a bijection onto such numerals |
| `Sanitizer.MatchAt` | app.py:19 | which of the pattern's two alternatives matches at the head of a text; each alternative matches exactly when its token is a prefix, so the two never match at the same position |
| `Sanitizer.RemoveTokens` | app.py:19 | the substitution never makes a text longer |
| `Sanitizer.RemoveTokensSubsequence` | app.py:19 | the substitution only deletes characters: the output is a subsequence of the input |
| `Sanitizer.Segment` | app.py:19 | every input has a leftmost segmentation into dropped tokens and kept characters, with a character kept only where no token starts |
| `Sanitizer.LeftmostScanUnique` | app.py:19 | an input has only one such segmentation: matches are found left to right and do not overlap |
| `Sanitizer.RemoveTokensIsLeftmostScan` | app.py:19 | for any leftmost segmentation, the substitution returns exactly the kept characters, and the length drops by 6 per `[INST]` and 7 per `[/INST]` removed |
| `Sanitizer.RemoveTokensLength` | app.py:19 | for every input, the length before trimming is the input length minus 6 per `[INST]` and 7 per `[/INST]` in its leftmost segmentation |
| `Sanitizer.RemoveTokensTokenFree` | app.py:19 | a text in which no token starts anywhere passes through the substitution unchanged |
| `Sanitizer.CleanResponse` | app.py:17-20 | `clean_response`: no whitespace at either end; the result is the token-free text with its whitespace margins cut off; the result is a subsequence of the input |
| `Sanitizer.StripSubsequence` | app.py:20 | strip only cuts characters off the ends, so its result is a subsequence of its input |
| `Sanitizer.CleanResponseUnchanged` | app.py:17-20 | a text with no token and no surrounding whitespace is returned unchanged |
| `Sanitizer.RemovalCanCreateToken` | app.py:17-20 | `[IN[INST]ST]` cleans to `[INST]`, which cleans to the empty string, so the sanitizer is not idempotent |
| `Prompt.BuildPrompt` | app.py:37 | the prompt is `<s>[INST] `, the system message, `\n\nUser: `, the question, then ` [/INST]>`, each at its own offset and inserted verbatim; the length is the sum of the parts |
| `Prompt.ExtractQuestion` | app.py:37 | the inverse of the prompt builder: whatever question it reads from a prompt rebuilds that same prompt |
| `Prompt.ExtractBuildRoundTrip` | app.py:37 | the question is read back verbatim from the prompt built around it |
| `Prompt.BuildPromptInjective` | app.py:37 | different questions give different prompts |
| `Inference.BuildRequest` | app.py:32-39 | the request goes to the model's URL, carries the key as a bearer token and JSON content type, sends the generation parameters `max_new_tokens` 200, `temperature` 0.7 and `top_p` 0.9, and its `inputs` is a prompt that holds the question verbatim |
| `Inference.Interpret` | app.py:40-48 | an outcome is an answer exactly when it is a 200 reply with a JSON list (the answer is the first `generated_text` without surrounding whitespace); a format error exactly when it is a 200 reply with other JSON; an API error, carrying the status and reply text, exactly when the status is not 200; a network error exactly when the transport failed or a 200 reply did not decode, carrying the transport failure's or the decoding error's description |
| `Inference.Message` | app.py:44-48 | the answer is returned as is; a format error gives `Unexpected response format.`; the status and body of an API error, and the description of a network error, can be read back from their messages |
| `Inference.AskSupermom` | app.py:31-48 | `ask_supermom` for each kind of outcome of the request built from the question: stripped answer, format message, API-error message carrying status and text, or network-error message carrying the description |
| `Inference.ParseApiError` | app.py:46 | reads the status and text back from an API-error message; whatever it reads rebuilds the message exactly, the status written without leading zeros as `str(int)` writes it |
| `Inference.ApiErrorRoundTrip` | app.py:46 | `❌ API Error: {status} - {text}` parses back to that status and text |
| `Inference.NetworkErrorRoundTrip` | app.py:48 | `❌ Network Error: {description}` parses back to that description |
| `Inference.ErrorMessagesDistinct` | app.py:44-48 | two error replies with the same message are the same reply: the three error kinds never produce the same string |
| `Inference.AnswerCanMimicError` | app.py:44 | a generated text that reads `Unexpected response format.` gives the same result as a reply whose JSON is not a list, so a caller cannot tell an answer from that error |
| `Endpoint.Ask` | app.py:57-63 | status 400 with error `No question provided` exactly when the `not question` test at line 60 holds, that is, when `HasQuestion` (the field is present, not `null` and not empty) is false; otherwise status 200 with a `response` field |
| `Endpoint.RejectionIgnoresUpstream` | app.py:59-61 | a rejected request gets the same 400 reply whatever the upstream would return, so the upstream is never consulted |
| `Endpoint.AcceptedRelaysAnswer` | app.py:62-63 | a non-empty question gets status 200 with exactly the `ask_supermom` result, and the prompt sent upstream holds the question verbatim |
| `Endpoint.UpstreamErrorsReported` | app.py:40-63 | for a non-200 reply or a transport failure, the client still gets status 200, and the status and text, or the failure description, can be read back from the `response` field |
| `Endpoint.AnswerRelayedVerbatim` | app.py:44-63 | the handler does not sanitize: a generated text without surrounding whitespace reaches the client verbatim, instruction tokens included |

## Left out

- Flask routing, `render_template`, `app.run` and reading the request's JSON (app.py:5, 22, 51-53, 56, 58, 65-66) are framework I/O. The handler's input is the `question` field as an `Option<string>`. `None` stands for an absent field or a JSON `null`.
- A `question` value that is not a string (a number, list, object or boolean) is not modelled.
- Loading `HF_API_KEY` from the environment, and the `ValueError` raised when it is missing (app.py:8-10), are process configuration. The key is a parameter.
- `SYSTEM_MESSAGE` is never defined, so as written line 37 would raise `NameError` on every accepted request. This happens outside the `try`. The model takes the system message as a parameter instead.
- `requests.post` and `response.json()` (app.py:41, 43) are foreign network and JSON-decoding calls. The `Outcome` datatype replaces them. The `Unparseable` case follows requests 2.27 and later, where a decoding failure is a `RequestException` and so produces the network-error message.
- The generation parameters are data only. Temperature and top-p are exact `real`s, not floating point.
- The first `ask` handler (app.py:22-27) is not modelled. It calls an undefined `generate_response`.
- As written, no `/ask` handler ever runs. Both handlers are functions named `ask` registered on the same route (app.py:22-23, 56-57). Flask refuses to bind the endpoint name `ask` to a second, different function and raises `AssertionError` while the module is imported. The model treats the second handler as the intended one. Flask itself is not part of this model.
- Inference.Interpret: a 200 list reply that is empty, or whose first element lacks `generated_text`, raises `IndexError` or `KeyError` in the code, and a first element that is not a JSON object raises `TypeError`. The model excludes these cases, rather than inventing a result: the first two with the precondition `Indexable`, the third through the type of `Item`, which is always an object. A `generated_text` that is not a string (which would make `strip()` fail) is excluded by the type of `Item`.
- Idempotence of `clean_response`, and "no token remains in the output", are not stated because both are false (see `Sanitizer.RemovalCanCreateToken`).
- Strings holding a lone surrogate (Python's `json` decodes `"\ud800"` to one) are not modelled, because a Dafny `char` is a Unicode scalar value.
- The regular-expression engine is modelled only for the one literal pattern the code uses.
