# Meal-plan agent core, modelled in Dafny

This project models the part of the meal-planning assistant's AI agent
(`ai_agents.py`) that decides what the caller gets back. It covers four pieces:

- **Response extraction** (`AIAgents._process_llm_response`). The model's reply
  is turned into a Python value by a fixed cascade:
  1. decode the whole text when, once stripped, it starts with `{` or `[`;
  2. otherwise decode the stripped text between the first "```json" and the next "```";
  3. otherwise decode the stripped text between the first two "```" fences, but only
     when it starts with `{` or `[`;
  4. otherwise wrap the text as `{"response": text}`.

  A decoding error also gives `{"response": text}`. Any other exception gives an
  error dictionary with a sample of the text that is at most 500 characters plus
  "...".
- **Prompt rendering** (`generate_meal_plan`, lines 116-139). The profile fields
  are read with their defaults ("N/A", "moderate", empty lists). The three tag
  lists are joined with ", ". The produce is written with `json.dumps` and the
  custom encoder, or replaced by "None available". The model receives a system
  message and a user message.
- **The error policy** (`generate_meal_plan`, lines 141-154). Any exception, and
  any processed dictionary that holds an `"error"` key, becomes
  `{"error": "Failed to generate meal plan", "details": ...}`. Every other result
  is returned unchanged. `GenerateMealPlan` runs the processing step as
  written; `GenerateMealPlanIntended` runs it with the fix from "## Findings",
  and the two differ only on a reply whose text cannot be read.
- **`JSONEncoder.default`**. An ObjectId is written as its 24 hexadecimal digits.
  Any other object the encoder cannot write raises `TypeError`.

Files (one module each):

| file | module | contents |
|---|---|---|
| `wrappers.dfy` | `Wrappers` | `Option`, and `Outcome` (a value, or the text of the exception raised) |
| `strings.dfy` | `Strings` | Python's `str.strip` (its whitespace set), `in`, `find`, `split` and `join`, with their laws |
| `values.dfy` | `Values` | Python values (ordered dictionaries, ObjectIds, other objects), `dict.get`, `type().__name__`, `str()` |
| `json_encoder.dfy` | `JsonEncoder` | `JSONEncoder.default` and what `json.dumps(..., cls=JSONEncoder)` makes of a value |
| `response_extractor.dfy` | `ResponseExtractor` | `_process_llm_response`, as written and as intended |
| `meal_plan_generator.dfy` | `MealPlanGenerator` | `generate_meal_plan` |

Some things are not modelled as code; they are parameters instead, and every
property is proved for every choice of them:

- the language model (`Env.invoke`);
- `json.loads` (`parse`, which may return a value, raise `JSONDecodeError`, or
  raise anything else);
- the text `json.dumps` writes (`Env.dumps`);
- Python's `repr` of lists and dictionaries (`reprOf`);
- the literal wording of both prompts (`Env.layout`, `Env.systemPrompt`).

## Model

| member | source | states |
|---|---|---|
| Strings.Strip | ai_agents.py:54 | `str.strip()`: the result is a slice of the text with only whitespace cut from each end, has no whitespace at either end, and is empty exactly when the text is all whitespace |
| Strings.IndexOf | ai_agents.py:58 | the index returned is an occurrence with none before it; no index means no occurrence anywhere (`in`) |
| Strings.SplitFirst | ai_agents.py:59 | `s.split(sep)[0]` is the text before the first separator |
| Strings.SplitSecond | ai_agents.py:59 | when the separator occurs, `s.split(sep)` has a second piece: the text between the first separator and the next one |
| Strings.SplitJoin | ai_agents.py:59 | `sep.join(s.split(sep)) == s`: splitting loses nothing |
| Strings.JoinSplit | ai_agents.py:120-122 | splitting joined parts gives back the parts, when no separator straddles a part boundary |
| Strings.SeparatorFirstAtEnd | ai_agents.py:120-122 | a part that does not contain ", " meets its first ", " only where the separator was appended |
| Strings.BeforeIdempotent | ai_agents.py:62 | cutting before the first separator twice is the same as cutting once |
| Strings.SecondPieceResplit | ai_agents.py:62 | `s.split(p)[1].split(p)[0]` is the text between the first separator and the next: the second split on the same separator changes nothing |
| Strings.OpenedPieceClosed | ai_agents.py:59 | splitting on "```json" and then on "```" yields the body between the first opener and the next fence |
| Strings.OpenedPieceUnclosed | ai_agents.py:59 | when the opener is never closed, the candidate runs to the end of the text |
| Strings.SecondPieceClosed | ai_agents.py:62 | when the two fences shown are the first two, the text between the first fence and the next is the body between them |
| Strings.SecondPieceUnclosed | ai_agents.py:62 | with a single fence, the candidate runs to the end of the text |
| Values.Lookup | ai_agents.py:144-145 | `d.get(key)`: nothing exactly when no entry has the key; otherwise the value of an entry with that key |
| Values.NatToStringRoundTrip | ai_agents.py:118 | `str()` of a natural number reads back as the number |
| Values.Hex | ai_agents.py:21-22 | `str()` of an ObjectId has two lower-case hexadecimal digits per byte |
| Values.HexRoundTrip | ai_agents.py:21-22 | the hexadecimal text of an ObjectId decodes back to the same bytes |
| JsonEncoder.Encodable | ai_agents.py:19-23 | `json.dumps` with the custom encoder succeeds exactly when no object other than an ObjectId occurs anywhere in the value; it then writes the value with every ObjectId replaced by its hexadecimal text (`Replaced`), which is plain JSON; a failure is the base encoder's `TypeError` naming the type of the first such object met depth first, left to right (`FirstRefused`); plain JSON is written as it is |
| JsonEncoder.RefusalNamesFirstObject | ai_agents.py:19-23 | in a list, the refusal reported is that of the first object the encoder cannot write, whatever follows it |
| JsonEncoder.EncodableItems | ai_agents.py:19-23 | a list is written exactly when each of its items can be, item k as the replacement of input item k, in order; a failure is the refusal of the first refused object among the items |
| JsonEncoder.EncodableEntries | ai_agents.py:19-23 | a dictionary is written exactly when each of its values can be, entry k under the same key with the replacement of its value, in order; a failure is the refusal of the first refused object among the values |
| JsonEncoder.DefaultWritesObjectId | ai_agents.py:21-22 | a 12-byte ObjectId is written as 24 hexadecimal digits that decode back to the id |
| ResponseExtractor.Sample | ai_agents.py:78 | the sample is the text itself up to 500 characters; a longer text is cut to its first 500 characters followed by "..." |
| ResponseExtractor.TextSelection | ai_agents.py:45-48 | the text examined is `response.content` when the reply has it, otherwise `str(response)`; on readable replies the as-written and the corrected function agree |
| ResponseExtractor.DirectParse | ai_agents.py:54-55 | a text that starts with `{` or `[` once stripped is decoded whole, untrimmed, with no other attempt; a decoding error gives `{"response": text}` |
| ResponseExtractor.SingleDecode | ai_agents.py:53-64 | the decoder is consulted only on the one candidate |
| ResponseExtractor.TaggedBlock | ai_agents.py:58-60 | only the first "```json" block counts: its stripped body is the candidate, whatever follows its closing fence (unless the fence runs into a later opener) |
| ResponseExtractor.TaggedBlockUnclosed | ai_agents.py:58-60 | an unclosed "```json" block runs to the end of the text |
| ResponseExtractor.UntaggedBlock | ai_agents.py:61-64 | without an opener, the stripped text between the first two fences is decoded exactly when it starts with `{` or `[`; later blocks are ignored |
| ResponseExtractor.UntaggedBlockUnclosed | ai_agents.py:61-64 | with one fence, the candidate runs to the end and is decoded exactly when it starts with `{` or `[` |
| ResponseExtractor.ProseFallback | ai_agents.py:66-67 | text without a fence that does not start with `{` or `[` is returned as `{"response": text}` and nothing is decoded |
| ResponseExtractor.ErrorOnlyFromDecoder | ai_agents.py:53-79 | the result has an "error" key exactly when the decoder raised something other than a decoding error, or decoded a dictionary with an "error" key |
| ResponseExtractor.CrashReport | ai_agents.py:73-79 | an exception other than a decoding error gives the error dictionary: the fixed message, the exception's text and the sample of the text (all of it up to 500 characters, otherwise its first 500 and "...") |
| ResponseExtractor.UnreadableReplyEscapes | ai_agents.py:45-79 | as written, a reply whose `str()` raises makes the function raise `UnboundLocalError` instead of returning its error dictionary |
| ResponseExtractor.UnreadableReplyReported | ai_agents.py:73-79 | as intended, a reply whose `str()` raises gives the error dictionary with the exception's text and an empty sample |
| ResponseExtractor.UntaggedAttempt | ai_agents.py:61-63 | the untagged candidate is the second piece of the split on "```", cut at its first fence and stripped, and is kept only when it starts with `{` or `[`; it is the text between the first fence and the next |
| MealPlanGenerator.StrItems | ai_agents.py:120-122 | joining a list succeeds exactly when every item is a string, and keeps the items in order; otherwise the error names the first item that is not a string, by index and by the type name CPython prints (`TypeFullName`, module-qualified for a type built in C) |
| MealPlanGenerator.JoinValue | ai_agents.py:120-122 | `', '.join(v)` succeeds exactly when `v` is a list of strings, a string or a dictionary; any other value fails with "can only join an iterable" |
| MealPlanGenerator.PromptDefaults | ai_agents.py:118-126 | an empty profile with no produce renders "N/A", "N/A", three empty lists, "moderate" and "None available" |
| MealPlanGenerator.FieldDefaults | ai_agents.py:116-126 | for every profile that renders, each missing field shows its default ("N/A", "", "moderate"), each present field shows `str()` of its value or its joined tags, and no produce shows "None available" |
| MealPlanGenerator.RenderingSucceeds | ai_agents.py:116-126 | the prompt renders exactly when each tag field is absent or joinable and the produce is empty or holds no object the encoder refuses |
| MealPlanGenerator.CharactersReadBack | ai_agents.py:120-122 | a tag field holding a non-empty string is joined character by character: the text splits back into its characters |
| MealPlanGenerator.KeysAreStored | ai_agents.py:120-122 | a tag field holding a dictionary is joined by its keys: the strings joined are exactly the keys stored in it |
| MealPlanGenerator.TagsReadBack | ai_agents.py:120-122 | a non-empty list of tags without ", " renders as text that splits back into exactly those tags |
| MealPlanGenerator.ListItemRejected | ai_agents.py:120-122 | a tag list holding a non-string item fails with the `TypeError` for its first such item |
| MealPlanGenerator.DatetimeRefusals | ai_agents.py:120-126 | a datetime is named "datetime.datetime" when a tag list holding it fails to join, and "datetime" when produce holding it fails to encode |
| MealPlanGenerator.ProduceRendering | ai_agents.py:126 | no produce shows "None available"; otherwise rendering succeeds exactly when no item holds an object the encoder refuses, and shows the list with every ObjectId replaced by its hexadecimal text; a failure is the base encoder's `TypeError` for the first refused object |
| MealPlanGenerator.DatabaseDocumentRendered | ai_agents.py:126 | a produce document whose `_id` is an ObjectId and whose other fields are plain JSON is written with the id as its hexadecimal text and everything else as it is |
| MealPlanGenerator.ModelSeesOnlyMessages | ai_agents.py:136-142 | the model is consulted only on the system prompt followed by the rendered user prompt: two models that answer these alike give the same result |
| MealPlanGenerator.Conclude | ai_agents.py:144-154 | every result with an "error" key is exactly the generation-failure dictionary |
| MealPlanGenerator.GenerateMealPlan | ai_agents.py:81-154 | as written: the result has an "error" key exactly when it is the generation-failure dictionary |
| MealPlanGenerator.GenerateMealPlanIntended | ai_agents.py:81-154 | with the corrected processing step: the result has an "error" key exactly when it is the generation-failure dictionary |
| MealPlanGenerator.PromptFailureReported | ai_agents.py:116-154 | an exception while rendering the prompt is reported, and the model is never consulted |
| MealPlanGenerator.ModelFailureReported | ai_agents.py:141-154 | an exception from the model call is reported with its text |
| MealPlanGenerator.ProcessedErrorReported | ai_agents.py:144-154 | a processed dictionary with "error" is reported with `str()` of its "details", or with "'details'" when that key is missing |
| MealPlanGenerator.ProcessingErrorDetailsKept | ai_agents.py:144-154 | the processing step's error dictionary is reported with its own details, and its raw sample is dropped |
| MealPlanGenerator.PlanReturnedUnchanged | ai_agents.py:142-147 | a processed result without "error" (a plan, the text wrapper, or any JSON value) is returned unchanged |
| MealPlanGenerator.AsWrittenAndIntended | ai_agents.py:45-154 | for a reply whose `str()` raises, the code as written reports the `UnboundLocalError` and the corrected code reports the real cause; on every other input the two agree |

## Left out

- Logging (`logger.debug`, `warning`, `error`) and `st.error` are left out. They are side channels with no effect on results.
- `AIAgents.__init__` is left out: it reads the API key from the environment and builds the client. So is the cached `get_ai_agents`. Both are I/O.
- `config.py` and `database.py` are not part of this model.
- The language model is the parameter `Env.invoke`, a function from the messages to a reply or an exception. The model's randomness is not captured, but every property holds for every such function.
- `json.loads` is the parameter `parse`. The JSON grammar and the text `json.dumps` writes (`Env.dumps`) are not modelled.
- The literal wording of the system prompt and the user-prompt template (`Env.layout`, `Env.systemPrompt`) is not modelled. Only the field values put into the template are.
- `repr` of lists and dictionaries (what an f-string or `str()` shows for them) is the parameter `reprOf`.
- Floats appear only by their `repr` text.
- Reply contents that are not strings are left out. A `content` attribute holding a list of parts is one example; the model assumes the attribute is a string.
- Profiles are `map`s. `dict.get` does not depend on key order.
- Tuples, sets and other iterables are not modelled. `str.join` would accept them as tag fields, and `json.dumps` would write a tuple as a list. `VOpaque` stands only for objects that cannot be iterated (a datetime, say). It carries both names of its type: the `__name__` the JSON encoder prints and the name `str.join` prints.
- Unicode: strings are sequences of Dafny `char`s, which are Unicode scalar values. A Python `str` can also hold lone surrogates; those are not modelled.
- The text of the `UnboundLocalError` (`UnboundContent`) is the wording of Python 3.11 and later. Older versions word it differently; only the text changes.
- ResponseExtractor.Process: when no text could be read, the sample is empty. The source has no intended sample for this case.
- Seven behaviours of the code a reader may not expect; the model follows the code.
  - A decoding error in the direct attempt returns `{"response": text}` at once. The fenced blocks are not tried.
  - The "```json" branch decodes its candidate without checking for `{` or `[`, so it can return any JSON value.
  - The sample in an error report is 503 characters, with "...", when the text is longer than 500 characters.
  - A decoded dictionary that has an "error" key is treated as a failure by `generate_meal_plan`. Without "details", the details are "'details'".
  - The activity level defaults to "moderate", not "N/A".
  - A tag field that is a string is joined character by character.
  - A tag field that cannot be iterated (None, a number, a bool, an ObjectId) fails the whole call.

## Findings

| source | as written | input that shows it | evidently intended | confidence | as-written member | corrected member |
|---|---|---|---|---|---|---|
| ai_agents.py:45-79 | when `str(response)` raises, `content` is never assigned, so the handler's `len(content)` raises `UnboundLocalError` and the function raises instead of returning its error dictionary | a reply object with no `content` attribute whose `__str__` raises | the handler returns `{"error": "Failed to process AI response", "details": <exception text>, ...}` with an empty sample | not executed | ResponseExtractor.ProcessAsWritten | ResponseExtractor.Process |
