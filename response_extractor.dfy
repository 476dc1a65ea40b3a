/** `AIAgents._process_llm_response`: turning the text a language model
    answered with into a Python value, by a fixed cascade of attempts.

    The JSON decoder (`json.loads`) is not modelled: every function here takes
    it as a parameter `parse`, so that everything proved holds for any decoder. */
module ResponseExtractor {
  import opened Wrappers
  import opened Strings
  import opened Values

  /** The opener of a fenced block tagged as JSON, and the bare fence. */
  const JsonFence := "```json"
  const Fence := "```"

  /** How many characters of the text an error report keeps. */
  const SampleLimit := 500

  const ProcessFailure := "Failed to process AI response"

  /** `str()` of the UnboundLocalError raised when the exception handler reads
      `content` before it was ever assigned. */
  const UnboundContent := "cannot access local variable 'content' where it is not associated with a value"

  /** What `json.loads` does with a string: it returns a value, raises
      `JSONDecodeError`, or raises some other exception (a `RecursionError` on
      deeply nested input, say). */
  datatype Decoded = Parsed(value: Value) | DecodeError(message: string) | Crashed(message: string)

  /** The model's reply: an object with a `content` attribute (a chat message),
      or any other object, with the outcome of calling `str()` on it. */
  datatype Response = WithContent(content: string) | Bare(text: Outcome<string>)

  /** The text examined: `response.content` if there is one, else `str(response)`. */
  function TextOf(response: Response): Outcome<string> {
    match response
    case WithContent(c) => Returned(c)
    case Bare(t) => t
  }

  /** `s.startswith('{') or s.startswith('[')` */
  predicate StartsJson(s: string) {
    StartsWith(s, "{") || StartsWith(s, "[")
  }

  /** The one string the cascade hands to `json.loads`, if any:
      the whole text when its stripped form starts with `{` or `[`; otherwise the
      stripped text between the first "```json" and the next fence; otherwise the
      stripped text between the first two fences, when it starts with `{` or `[`. */
  function ParseAttempt(content: string): Option<string> {
    if StartsJson(Strip(content)) then Some(content)
    else if Contains(content, JsonFence) then
      SplitSecond(content, JsonFence);
      Some(Strip(Split(Split(content, JsonFence)[1], Fence)[0]))
    else if Contains(content, Fence) then
      SplitSecond(content, Fence);
      var candidate := Strip(Split(Split(content, Fence)[1], Fence)[0]);
      if StartsJson(candidate) then Some(candidate) else None
    else None
  }

  /** `{"response": content}`: the text handed back as the answer itself. */
  function TextAnswer(content: string): Value {
    VDict([("response", VStr(content))])
  }

  /** The bounded sample of the text kept in an error report. */
  function Sample(content: string): (r: string)
    ensures |r| <= SampleLimit + 3
    ensures StartsWith(r, content[..if |content| <= SampleLimit then |content| else SampleLimit])
    ensures |content| <= SampleLimit ==> r == content
    ensures |content| > SampleLimit ==> |r| == SampleLimit + 3 && r[SampleLimit..] == "..."
  {
    if |content| > SampleLimit then content[..SampleLimit] + "..." else content
  }

  /** The dictionary the exception handler returns. */
  function ProcessingError(details: string, content: string): Value {
    VDict([("error", VStr(ProcessFailure)), ("details", VStr(details)), ("raw_response", VStr(Sample(content)))])
  }

  /** The cascade on the text: decode the one candidate, if there is one. A
      decoding error is not reported as an error: the text itself is the answer. */
  function Cascade(content: string, parse: string -> Decoded): Value {
    match ParseAttempt(content)
    case None => TextAnswer(content)
    case Some(candidate) =>
      match parse(candidate)
      case Parsed(v) => v
      case DecodeError(_) => TextAnswer(content)
      case Crashed(m) => ProcessingError(m, content)
  }

  /** `_process_llm_response` as written. When `str(response)` raises, `content`
      was never assigned, so the exception handler's own use of `content` raises
      again and the function does not return its error dictionary. */
  function ProcessAsWritten(response: Response, parse: string -> Decoded): Outcome<Value> {
    match TextOf(response)
    case Returned(content) => Returned(Cascade(content, parse))
    case Raised(_) => Raised(UnboundContent)
  }

  /** `_process_llm_response` with the handler the code evidently intends: every
      exception becomes the error dictionary, with an empty sample when no text
      could be read. */
  function Process(response: Response, parse: string -> Decoded): Value {
    match TextOf(response)
    case Returned(content) => Cascade(content, parse)
    case Raised(m) => ProcessingError(m, "")
  }

  // ---------------------------------------------------------------------------
  // What the cascade does, branch by branch

  /** The text examined is `content` when the reply has one, otherwise
      `str(response)`; on readable replies both versions of the function agree. */
  lemma TextSelection(response: Response, parse: string -> Decoded)
    ensures response.WithContent? ==> Process(response, parse) == Cascade(response.content, parse)
    ensures response.Bare? && response.text.Returned? ==> Process(response, parse) == Cascade(response.text.value, parse)
    ensures TextOf(response).Returned? ==> ProcessAsWritten(response, parse) == Returned(Process(response, parse))
  {
  }

  /** Text whose stripped form starts with `{` or `[` is decoded whole and
      untrimmed, and nothing else is tried: a decoded value is the result, a
      decoding error gives `{"response": content}`. */
  lemma DirectParse(content: string, parse: string -> Decoded)
    requires StartsJson(Strip(content))
    ensures ParseAttempt(content) == Some(content)
    ensures parse(content).Parsed? ==> Cascade(content, parse) == parse(content).value
    ensures parse(content).DecodeError? ==> Cascade(content, parse) == TextAnswer(content)
  {
  }

  /** The decoder is consulted at most once, on the candidate: two decoders that
      agree on it give the same result. */
  lemma SingleDecode(content: string, parse: string -> Decoded, other: string -> Decoded)
    requires ParseAttempt(content).Some? ==> parse(ParseAttempt(content).value) == other(ParseAttempt(content).value)
    ensures Cascade(content, parse) == Cascade(content, other)
  {
  }

  /** Only the first JSON-tagged block counts. For a text made of some leading
      text without an opener, "```json", a body without a fence, "```", and
      anything at all after it, the candidate is the stripped body, whatever
      follows. (The exception: a fence immediately followed by "`json" or
      "``json" contains the start of a later opener, and splitting on the opener
      first leaves one or two backticks in the candidate.) */
  lemma TaggedBlock(pre: string, body: string, rest: string)
    requires IndexOf(pre + JsonFence, JsonFence) == Some(|pre|)
    requires IndexOf(body + Fence, Fence) == Some(|body|)
    requires !StartsWith(rest, "`json") && !StartsWith(rest, "``json")
    requires !StartsJson(Strip(pre + JsonFence + body + Fence + rest))
    ensures ParseAttempt(pre + JsonFence + body + Fence + rest) == Some(Strip(body))
  {
    forall k: nat | |body| < k < |body| + |Fence|
      ensures !OccursAt(body + Fence + rest, JsonFence, k)
    {
      if OccursAt(body + Fence + rest, JsonFence, k) {
        if k == |body| + 1 {
          OpenerOneIntoFence(body, rest, k);
        } else {
          OpenerTwoIntoFence(body, rest, k);
        }
      }
    }
    OpenedPieceClosed(pre, JsonFence, Fence, body, rest);
    TaggedAttempt(pre + JsonFence + body + Fence + rest);
  }

  /** A JSON-tagged block that is never closed runs to the end of the text. */
  lemma TaggedBlockUnclosed(pre: string, body: string)
    requires IndexOf(pre + JsonFence, JsonFence) == Some(|pre|)
    requires !Contains(body, Fence)
    requires !StartsJson(Strip(pre + JsonFence + body))
    ensures ParseAttempt(pre + JsonFence + body) == Some(Strip(body))
  {
    OpenedPieceUnclosed(pre, JsonFence, Fence, body);
    TaggedAttempt(pre + JsonFence + body);
  }

  /** In the untagged branch the candidate is the stripped text between the
      first two fences, and it is decoded only if it starts with `{` or `[`;
      otherwise nothing is decoded. Later blocks are ignored. */
  lemma UntaggedBlock(pre: string, body: string, rest: string)
    requires IndexOf(pre + Fence, Fence) == Some(|pre|)
    requires IndexOf(body + Fence, Fence) == Some(|body|)
    requires !Contains(pre + Fence + body + Fence + rest, JsonFence)
    requires !StartsJson(Strip(pre + Fence + body + Fence + rest))
    ensures ParseAttempt(pre + Fence + body + Fence + rest)
         == if StartsJson(Strip(body)) then Some(Strip(body)) else None
  {
    SecondPieceClosed(pre, Fence, body, rest);
    UntaggedAttempt(pre + Fence + body + Fence + rest);
  }

  /** With a single fence, the untagged candidate runs to the end of the text. */
  lemma UntaggedBlockUnclosed(pre: string, body: string)
    requires IndexOf(pre + Fence, Fence) == Some(|pre|)
    requires !Contains(body, Fence)
    requires !Contains(pre + Fence + body, JsonFence)
    requires !StartsJson(Strip(pre + Fence + body))
    ensures ParseAttempt(pre + Fence + body)
         == if StartsJson(Strip(body)) then Some(Strip(body)) else None
  {
    SecondPieceUnclosed(pre, Fence, body);
    UntaggedAttempt(pre + Fence + body);
  }

  /** Text that neither starts with `{` or `[` nor holds a fence is the answer
      itself, unchanged, and nothing is decoded. */
  lemma ProseFallback(content: string, parse: string -> Decoded)
    requires !StartsJson(Strip(content)) && !Contains(content, Fence)
    ensures ParseAttempt(content) == None
    ensures Cascade(content, parse) == TextAnswer(content)
  {
    NoFenceNoOpener(content);
  }

  /** Prose is never reported as an error: the result has an "error" key exactly
      when the decoder raised something other than a decoding error, or decoded
      a dictionary that itself has an "error" key. */
  lemma ErrorOnlyFromDecoder(content: string, parse: string -> Decoded)
    ensures HasKey(Cascade(content, parse), "error") <==>
      && ParseAttempt(content).Some?
      && var d := parse(ParseAttempt(content).value);
         d.Crashed? || (d.Parsed? && HasKey(d.value, "error"))
  {
    assert !HasKey(TextAnswer(content), "error");
  }

  /** When the decoder raises something other than a decoding error, the result
      is the error report: its "error" is the fixed message, its "details" the
      exception's text, and its "raw_response" the sample of the text: all of
      it up to 500 characters, otherwise its first 500 characters and "...". */
  lemma CrashReport(content: string, parse: string -> Decoded)
    requires ParseAttempt(content).Some? && parse(ParseAttempt(content).value).Crashed?
    ensures var r := Cascade(content, parse);
      && Lookup(r.entries, "error") == Some(VStr(ProcessFailure))
      && Lookup(r.entries, "details") == Some(VStr(parse(ParseAttempt(content).value).message))
      && Lookup(r.entries, "raw_response") == Some(VStr(Sample(content)))
  {
    var r := Cascade(content, parse);
    assert r.entries[2] == ("raw_response", VStr(Sample(content)));
  }

  /** As written, a reply whose `str()` raises makes the function itself raise
      (the handler trips over the unassigned `content`), instead of returning
      its error dictionary. */
  lemma UnreadableReplyEscapes(response: Response, parse: string -> Decoded)
    requires TextOf(response).Raised?
    ensures ProcessAsWritten(response, parse) == Raised(UnboundContent)
    ensures ProcessAsWritten(response, parse) != Returned(Process(response, parse))
  {
  }

  /** With the handler as intended, a reply whose `str()` raises gives the error
      dictionary with the exception's text and an empty sample. */
  lemma UnreadableReplyReported(response: Response, parse: string -> Decoded)
    requires TextOf(response).Raised?
    ensures HasKey(Process(response, parse), "error")
    ensures Process(response, parse) == ProcessingError(TextOf(response).message, "")
  {
  }

  // ---------------------------------------------------------------------------
  // Helpers about the two fences

  /** The candidate of the JSON-tagged branch, in terms of the two splits. */
  lemma TaggedAttempt(c: string)
    requires !StartsJson(Strip(c)) && Contains(c, JsonFence)
    ensures |Split(c, JsonFence)| >= 2
    ensures ParseAttempt(c) == Some(Strip(Split(Split(c, JsonFence)[1], Fence)[0]))
  {
    SplitSecond(c, JsonFence);
  }

  /** The candidate of the untagged branch, in terms of the two splits; the
      second split on the fence is a no-op, so the candidate is the stripped
      text between the first fence and the next. */
  lemma UntaggedAttempt(c: string)
    requires !StartsJson(Strip(c)) && !Contains(c, JsonFence) && Contains(c, Fence)
    ensures |Split(c, Fence)| >= 2
    ensures var candidate := Strip(Split(Split(c, Fence)[1], Fence)[0]);
      ParseAttempt(c) == if StartsJson(candidate) then Some(candidate) else None
    ensures Split(Split(c, Fence)[1], Fence)[0] == Before(After(c, Fence), Fence)
  {
    SplitSecond(c, Fence);
    SecondPieceResplit(c, Fence);
  }

  /** Text without a fence holds no opener either. */
  lemma NoFenceNoOpener(s: string)
    requires !Contains(s, Fence)
    ensures !Contains(s, JsonFence)
  {
    assert StartsWith(JsonFence, Fence);
    AbsentPrefix(s, JsonFence, Fence);
  }

  lemma OpenerOneIntoFence(body: string, rest: string, k: nat)
    requires k == |body| + 1 && OccursAt(body + Fence + rest, JsonFence, k)
    ensures StartsWith(rest, "`json")
  {
    var u := body + Fence + rest;
    assert rest[..5] == u[k + 2..k + 7];
    assert u[k + 2..k + 7] == JsonFence[2..];
  }

  lemma OpenerTwoIntoFence(body: string, rest: string, k: nat)
    requires k == |body| + 2 && OccursAt(body + Fence + rest, JsonFence, k)
    ensures StartsWith(rest, "``json")
  {
    var u := body + Fence + rest;
    assert rest[..6] == u[k + 1..k + 7];
    assert u[k + 1..k + 7] == JsonFence[1..];
  }
}
