/**
 * `AgentResponseMapper.formatAiExceptionMessage`: the text shown to the user when the
 * language-model service rejects a call. The exception message usually carries the
 * service's JSON error body after some prefix such as a status line; the error text
 * is the body's `error.message`, and every other case falls back to a fixed apology.
 *
 * Jackson's `readTree` is not modelled: it is a parameter that maps the text from the
 * first `{` on to what the mapper looks at, or to `None` when parsing throws.
 */
module AgentResponseMapper {
  import opened Wrappers
  import opened Strings

  const DefaultError: string := "Sorry, something went wrong. Please try again."

  /** What the mapper reads from a parsed tree: `Some(t)` when the root has an
      `error` member that has a `message` member whose text is `t`. */
  datatype JsonRoot = JsonRoot(errorMessage: Option<string>)

  /** The part of the message handed to the parser: everything from the first `{`,
      or nothing when the message has no `{`. */
  function JsonPart(message: string): (part: Option<string>)
    ensures part.None? <==> '{' !in message
    ensures part.Some? ==>
      var k := |message| - |part.value|;
      && 0 <= k < |message| && part.value == message[k..]
      && part.value[0] == '{' && '{' !in message[..k]
  {
    var k := IndexOf(message, '{');
    if k == -1 then None else Some(message[k..])
  }

  /** `formatAiExceptionMessage`. It is total: the parse failure that Java catches is
      the `None` of `readTree`. */
  function FormatAiExceptionMessage(message: Option<string>, readTree: string -> Option<JsonRoot>): string {
    if message.None? || message.value == "" then DefaultError
    else match JsonPart(message.value)
      case None => DefaultError
      case Some(json) =>
        match readTree(json)
        case None => DefaultError
        case Some(root) =>
          match root.errorMessage
          case None => DefaultError
          case Some(text) => text
  }

  /** A null or empty message gives the apology. */
  lemma NullOrEmptyIsDefault(message: Option<string>, readTree: string -> Option<JsonRoot>)
    requires message.None? || message.value == ""
    ensures FormatAiExceptionMessage(message, readTree) == DefaultError
  {
  }

  /** A message without `{` gives the apology, whatever the parser would do. */
  lemma NoBraceIsDefault(message: string, readTree: string -> Option<JsonRoot>)
    requires '{' !in message
    ensures FormatAiExceptionMessage(Some(message), readTree) == DefaultError
  {
  }

  /** The result is the apology or the `error.message` text of the tree parsed from
      the message's first `{` on; nothing else can come out. */
  lemma ResultIsErrorTextOrDefault(message: string, readTree: string -> Option<JsonRoot>)
    ensures var r := FormatAiExceptionMessage(Some(message), readTree);
      || r == DefaultError
      || exists k :: 0 <= k < |message| && message[k] == '{' && '{' !in message[..k]
                     && readTree(message[k..]) == Some(JsonRoot(Some(r)))
  {
    var r := FormatAiExceptionMessage(Some(message), readTree);
    if message != "" && '{' in message {
      var json := JsonPart(message).value;
      var k := |message| - |json|;
      if r != DefaultError {
        assert message[k] == json[0];
        assert readTree(message[k..]) == Some(JsonRoot(Some(r)));
      }
    }
  }

  /** A JSON body whose root has `error.message`, after a prefix without `{`, gives
      exactly that text. */
  lemma ErrorTextReturned(prefix: string, json: string, text: string, readTree: string -> Option<JsonRoot>)
    requires '{' !in prefix && json != [] && json[0] == '{'
    requires readTree(json) == Some(JsonRoot(Some(text)))
    ensures FormatAiExceptionMessage(Some(prefix + json), readTree) == text
  {
    FirstBraceAfterPrefix(prefix, json);
  }

  /** A body that does not parse, or whose root lacks `error` or `error.message`,
      gives the apology. */
  lemma UnusableBodyIsDefault(prefix: string, json: string, readTree: string -> Option<JsonRoot>)
    requires '{' !in prefix && json != [] && json[0] == '{'
    requires readTree(json).None? || readTree(json).value.errorMessage.None?
    ensures FormatAiExceptionMessage(Some(prefix + json), readTree) == DefaultError
  {
    FirstBraceAfterPrefix(prefix, json);
  }

  /** A prefix without `{` in front of the message does not change the result. */
  lemma PrefixIrrelevant(prefix: string, message: string, readTree: string -> Option<JsonRoot>)
    requires '{' !in prefix
    ensures FormatAiExceptionMessage(Some(prefix + message), readTree)
         == FormatAiExceptionMessage(Some(message), readTree)
  {
    if '{' in message {
      var json := JsonPart(message).value;
      var k := |message| - |json|;
      Regroup(prefix, message, k);
      CharNotInEither('{', prefix, message[..k]);
      FirstBraceAfterPrefix(prefix + message[..k], json);
    } else {
      CharNotInEither('{', prefix, message);
    }
  }

  lemma Regroup(prefix: string, message: string, k: nat)
    requires k <= |message|
    ensures prefix + message == (prefix + message[..k]) + message[k..]
  {
    assert message == message[..k] + message[k..];
  }

  lemma CharNotInEither(c: char, a: string, b: string)
    requires c !in a && c !in b
    ensures c !in a + b
  {
  }

  lemma FirstBraceAfterPrefix(prefix: string, json: string)
    requires '{' !in prefix && json != [] && json[0] == '{'
    ensures JsonPart(prefix + json) == Some(json)
  {
    var m := prefix + json;
    assert m[|prefix|] == '{';
    assert m[|prefix|..] == json;
  }

  // ---------------------------------------------------------------------------
  // The rejected API key of the orchestrator's unit test
  // ---------------------------------------------------------------------------

  const ApiKeyText: string :=
    "Incorrect API key provided: dcs. You can find your API key at "
    + "https://platform.openai.com/account/api-keys."

  const ApiKeyBody: string :=
    "{\n"
    + "    \"error\": {\n"
    + "        \"message\": \"" + ApiKeyText + "\",\n"
    + "        \"type\": \"invalid_request_error\",\n"
    + "        \"param\": null,\n"
    + "        \"code\": \"invalid_api_key\"\n"
    + "    }\n"
    + "}"

  const ApiKeyRejection: string := "HTTP 401 - " + ApiKeyBody

  /** With a parser that reads the body's `error.message` as that body holds it, the
      rejected-key message maps to the key text. */
  lemma ApiKeyScenario(readTree: string -> Option<JsonRoot>)
    requires readTree(ApiKeyBody) == Some(JsonRoot(Some(ApiKeyText)))
    ensures FormatAiExceptionMessage(Some(ApiKeyRejection), readTree) == ApiKeyText
  {
    assert ApiKeyBody[0] == '{';
    ErrorTextReturned("HTTP 401 - ", ApiKeyBody, ApiKeyText, readTree);
  }
}
