/** `AIAgents.generate_meal_plan`: render the user profile and the local
    produce into a prompt, ask the language model, hand its reply to
    `_process_llm_response`, and turn every failure on the way into one
    error dictionary.

    The language model, `json.dumps` with its indentation, Python's `repr` of
    lists and dictionaries, and the literal text of both prompts are not
    modelled: they are the fields of `Env`. */
module MealPlanGenerator {
  import opened Wrappers
  import opened Strings
  import opened Values
  import opened JsonEncoder
  import opened ResponseExtractor

  /** The separator the list fields of the profile are joined with. */
  const ListSeparator := ", "
  /** What the prompt says when there is no local produce. */
  const NoProduce := "None available"
  const GenerationFailed := "Failed to generate meal plan"
  /** `str(KeyError('details'))`: what the error says when a processed
      response has an `"error"` key and no `"details"` key. */
  const MissingDetails := "'details'"
  /** The message of the `TypeError` `str.join` raises for a value it cannot iterate. */
  const NotIterable := "can only join an iterable"

  /** The texts the user prompt is filled with, in the order it shows them. */
  datatype PromptFields = PromptFields(
    age: string,
    gender: string,
    dietaryPreferences: string,
    allergies: string,
    healthGoals: string,
    activityLevel: string,
    produce: string)

  datatype Message = SystemMessage(content: string) | HumanMessage(content: string)

  /** What the function depends on besides its arguments. */
  datatype Env = Env(
    invoke: seq<Message> -> Outcome<Response>, // `self.llm.invoke`: the reply, or the exception it raised
    parse: string -> Decoded,                 // `json.loads`
    dumps: Value -> string,                   // `json.dumps(..., indent=2)` of a value it can write
    reprOf: Value -> string,                  // `repr` of a list or a dictionary
    layout: PromptFields -> string,           // the user-prompt template with its fields in place
    systemPrompt: string)                     // the fixed system prompt

  /** A user profile: a dictionary from field names to values. */
  type Profile = map<string, Value>

  /** `profile.get(key, default)` */
  function Get(profile: Profile, key: string, default: Value): Value {
    if key in profile then profile[key] else default
  }

  /** The message of the `TypeError` `str.join` raises for a list item that is not a string. */
  function ItemError(index: nat, item: Value): string {
    "sequence item " + NatToString(index) + ": expected str instance, " + TypeFullName(item) + " found"
  }

  /** The strings of a list from index `i` on, or the error `str.join` raises
      at its first item that is not a string. */
  function StrItems(items: seq<Value>, i: nat): (r: Outcome<seq<string>>)
    requires i <= |items|
    ensures r.Returned? <==> forall k :: i <= k < |items| ==> items[k].VStr?
    ensures r.Returned? ==> |r.value| == |items| - i && forall k :: 0 <= k < |r.value| ==> items[i + k] == VStr(r.value[k])
    ensures r.Raised? ==> exists k :: (i <= k < |items| && !items[k].VStr?
      && (forall m :: i <= m < k ==> items[m].VStr?) && r.message == ItemError(k, items[k]))
    decreases |items| - i
  {
    if i == |items| then Returned([])
    else if !items[i].VStr? then Raised(ItemError(i, items[i]))
    else
      var rest :- StrItems(items, i + 1);
      Returned([items[i].s] + rest)
  }

  /** The one-character strings iterating over a string yields. */
  function Characters(s: string): (r: seq<string>)
    ensures |r| == |s| && forall k :: 0 <= k < |s| ==> r[k] == [s[k]]
  {
    seq(|s|, k requires 0 <= k < |s| => [s[k]])
  }

  /** The keys iterating over a dictionary yields, in insertion order. */
  function Keys(entries: seq<(string, Value)>): (r: seq<string>)
    ensures |r| == |entries| && forall k :: 0 <= k < |entries| ==> r[k] == entries[k].0
  {
    seq(|entries|, k requires 0 <= k < |entries| => entries[k].0)
  }

  /** A value `str.join` accepts: a list of strings, a string or a dictionary. */
  predicate Joinable(v: Value) {
    (v.VList? && forall k :: 0 <= k < |v.items| ==> v.items[k].VStr?) || v.VStr? || v.VDict?
  }

  /** `sep.join(v)`: a list is joined item by item, a string character by
      character and a dictionary key by key; anything else cannot be iterated. */
  function JoinValue(sep: string, v: Value): (r: Outcome<string>)
    ensures r.Returned? <==> Joinable(v)
    ensures !v.VList? && r.Raised? ==> r.message == NotIterable
  {
    match v
    case VList(items) =>
      var parts :- StrItems(items, 0);
      Returned(Join(parts, sep))
    case VStr(s) => Returned(Join(Characters(s), sep))
    case VDict(entries) => Returned(Join(Keys(entries), sep))
    case _ => Raised(NotIterable)
  }

  /** The produce section of the prompt: the placeholder for an empty list,
      otherwise the list written by `json.dumps` with `JSONEncoder`. */
  function RenderProduce(produce: seq<Value>, env: Env): Outcome<string> {
    if |produce| == 0 then Returned(NoProduce)
    else
      var encoded :- Encodable(VList(produce));
      Returned(env.dumps(encoded))
  }

  /** The fields of the user prompt, evaluated in the order the f-string
      evaluates them; the first one that raises is the exception. */
  function RenderFields(profile: Profile, produce: seq<Value>, env: Env): Outcome<PromptFields> {
    var age := Str(Get(profile, "age", VStr("N/A")), env.reprOf);
    var gender := Str(Get(profile, "gender", VStr("N/A")), env.reprOf);
    var dietaryPreferences :- JoinValue(ListSeparator, Get(profile, "dietary_preferences", VList([])));
    var allergies :- JoinValue(ListSeparator, Get(profile, "allergies", VList([])));
    var healthGoals :- JoinValue(ListSeparator, Get(profile, "health_goals", VList([])));
    var activityLevel := Str(Get(profile, "activity_level", VStr("moderate")), env.reprOf);
    var produceText :- RenderProduce(produce, env);
    Returned(PromptFields(age, gender, dietaryPreferences, allergies, healthGoals, activityLevel, produceText))
  }

  /** The conversation sent to the model: the system prompt, then the user prompt. */
  function Messages(profile: Profile, produce: seq<Value>, env: Env): (r: Outcome<seq<Message>>)
    ensures r.Returned? <==> RenderFields(profile, produce, env).Returned?
    ensures r.Returned? ==> (|r.value| == 2 && r.value[0] == SystemMessage(env.systemPrompt)
      && r.value[1] == HumanMessage(env.layout(RenderFields(profile, produce, env).value)))
  {
    var fields :- RenderFields(profile, produce, env);
    Returned([SystemMessage(env.systemPrompt), HumanMessage(env.layout(fields))])
  }

  /** The dictionary `generate_meal_plan` returns for any failure. */
  function GenerationFailure(details: string): Value {
    VDict([("error", VStr(GenerationFailed)), ("details", VStr(details))])
  }

  /** `str(Exception(processed["details"]))`, or the `KeyError` message when
      the key is missing. */
  function FailureDetails(processed: Value, reprOf: Value -> string): string
    requires processed.VDict?
  {
    match Lookup(processed.entries, "details")
    case Some(d) => Str(d, reprOf)
    case None => MissingDetails
  }

  /** The end of `generate_meal_plan`, given what processing the reply gave:
      a processed dictionary holding `"error"` is raised as an exception and,
      like any exception, reported in the failure dictionary. */
  function Conclude(processed: Outcome<Value>, reprOf: Value -> string): (r: Value)
    ensures HasKey(r, "error") ==> exists d :: r == GenerationFailure(d)
  {
    match processed
    case Raised(m) => GenerationFailure(m)
    case Returned(v) =>
      if HasKey(v, "error") then GenerationFailure(FailureDetails(v, reprOf)) else v
  }

  /** The model's reply to the rendered conversation, or the exception raised
      on the way to it. */
  function Reply(profile: Profile, produce: seq<Value>, env: Env): Outcome<Response> {
    var messages :- Messages(profile, produce, env);
    env.invoke(messages)
  }

  /** `generate_meal_plan(user_profile, local_produce)`, with
      `_process_llm_response` as written. */
  function GenerateMealPlan(profile: Profile, produce: seq<Value>, env: Env): (r: Value)
    ensures HasKey(r, "error") <==> exists d :: r == GenerationFailure(d)
  {
    match Reply(profile, produce, env)
    case Raised(m) => GenerationFailure(m)
    case Returned(response) => Conclude(ProcessAsWritten(response, env.parse), env.reprOf)
  }

  /** `generate_meal_plan` with the corrected `_process_llm_response`. */
  function GenerateMealPlanIntended(profile: Profile, produce: seq<Value>, env: Env): (r: Value)
    ensures HasKey(r, "error") <==> exists d :: r == GenerationFailure(d)
  {
    match Reply(profile, produce, env)
    case Raised(m) => GenerationFailure(m)
    case Returned(response) => Conclude(Returned(Process(response, env.parse)), env.reprOf)
  }

  // ---------------------------------------------------------------------
  // The prompt

  /** A profile without any of the fields, and no produce, renders the
      defaults: "N/A" for age and gender, empty lists, a moderate activity
      level and the produce placeholder. */
  lemma PromptDefaults(env: Env)
    ensures RenderFields(map[], [], env)
      == Returned(PromptFields("N/A", "N/A", "", "", "", "moderate", NoProduce))
  {
  }

  /** Field by field, for any profile: a missing field shows its default, a
      present one shows `str()` of its value or its joined tags, and no
      produce shows the placeholder. */
  lemma FieldDefaults(profile: Profile, produce: seq<Value>, env: Env)
    requires RenderFields(profile, produce, env).Returned?
    ensures var f := RenderFields(profile, produce, env).value;
      && ("age" !in profile ==> f.age == "N/A")
      && ("gender" !in profile ==> f.gender == "N/A")
      && ("dietary_preferences" !in profile ==> f.dietaryPreferences == "")
      && ("allergies" !in profile ==> f.allergies == "")
      && ("health_goals" !in profile ==> f.healthGoals == "")
      && ("activity_level" !in profile ==> f.activityLevel == "moderate")
      && (|produce| == 0 ==> f.produce == NoProduce)
      && ("age" in profile ==> f.age == Str(profile["age"], env.reprOf))
      && ("gender" in profile ==> f.gender == Str(profile["gender"], env.reprOf))
      && ("activity_level" in profile ==> f.activityLevel == Str(profile["activity_level"], env.reprOf))
      && ("dietary_preferences" in profile ==>
            JoinValue(ListSeparator, profile["dietary_preferences"]) == Returned(f.dietaryPreferences))
      && ("allergies" in profile ==> JoinValue(ListSeparator, profile["allergies"]) == Returned(f.allergies))
      && ("health_goals" in profile ==> JoinValue(ListSeparator, profile["health_goals"]) == Returned(f.healthGoals))
  {
  }

  /** A tag field `str.join` accepts: absent, or a value it can join. */
  predicate TagField(profile: Profile, key: string) {
    key !in profile || Joinable(profile[key])
  }

  /** The prompt renders exactly when each tag field is absent or joinable and
      the produce is empty or holds no object the encoder refuses. */
  lemma RenderingSucceeds(profile: Profile, produce: seq<Value>, env: Env)
    ensures RenderFields(profile, produce, env).Returned? <==>
      && TagField(profile, "dietary_preferences")
      && TagField(profile, "allergies")
      && TagField(profile, "health_goals")
      && (|produce| == 0 || forall k :: 0 <= k < |produce| ==> Writable(produce[k]))
  {
  }

  /** A non-empty list of tags none of which contains ", " is rendered as
      text that splits back into exactly those tags. */
  lemma {:induction false} TagsReadBack(v: Value)
    requires v.VList? && |v.items| >= 1
    requires forall k :: 0 <= k < |v.items| ==> v.items[k].VStr? && !Contains(v.items[k].s, ListSeparator)
    ensures JoinValue(ListSeparator, v).Returned?
    ensures var parts := Split(JoinValue(ListSeparator, v).value, ListSeparator);
      |parts| == |v.items| && forall k :: 0 <= k < |parts| ==> v.items[k] == VStr(parts[k])
  {
    var tags := StrItems(v.items, 0).value;
    forall k | 0 <= k < |tags|
      ensures IndexOf(tags[k] + ListSeparator, ListSeparator) == Some(|tags[k]|)
    {
      assert v.items[k] == VStr(tags[k]);
      SeparatorFirstAtEnd(tags[k], ListSeparator);
    }
    JoinSplit(tags, ListSeparator);
  }

  /** A tag field holding a non-empty string is joined character by
      character: the text splits back into its one-character strings. */
  lemma {:induction false} CharactersReadBack(s: string)
    requires |s| >= 1
    ensures JoinValue(ListSeparator, VStr(s)).Returned?
    ensures var parts := Split(JoinValue(ListSeparator, VStr(s)).value, ListSeparator);
      |parts| == |s| && forall k :: 0 <= k < |s| ==> parts[k] == [s[k]]
  {
    var chars := Characters(s);
    forall k | 0 <= k < |chars|
      ensures IndexOf(chars[k] + ListSeparator, ListSeparator) == Some(1)
    {
      assert IndexOf(chars[k], ListSeparator).None?;
      SeparatorFirstAtEnd(chars[k], ListSeparator);
    }
    assert IndexOf(chars[|chars| - 1], ListSeparator).None?;
    JoinSplit(chars, ListSeparator);
  }

  /** A tag field holding a dictionary is joined by its keys: the strings
      joined are exactly the keys stored in it. */
  lemma KeysAreStored(entries: seq<(string, Value)>)
    ensures forall key :: key in Keys(entries) <==> Lookup(entries, key).Some?
  {
    forall key | Lookup(entries, key).Some? ensures key in Keys(entries) {
      var i :| 0 <= i < |entries| && entries[i].0 == key;
      assert Keys(entries)[i] == key;
    }
  }

  /** A list field holding something other than strings makes the prompt
      fail with the `TypeError` of its first offending item. */
  lemma ListItemRejected(items: seq<Value>, k: nat)
    requires k < |items| && !items[k].VStr? && forall m :: 0 <= m < k ==> items[m].VStr?
    ensures JoinValue(ListSeparator, VList(items)) == Raised(ItemError(k, items[k]))
  {
    var r := StrItems(items, 0);
    assert r.Raised?;
    var j :| 0 <= j < |items| && !items[j].VStr? && (forall m :: 0 <= m < j ==> items[m].VStr?) && r.message == ItemError(j, items[j]);
    assert j == k;
  }

  /** The two refusals name a datetime differently: `str.join` prints the
      module-qualified name of the C type, the JSON encoder its `__name__`. */
  lemma DatetimeRefusals(text: string, env: Env)
    ensures var stamp := VOpaque("datetime", "datetime.datetime", text);
      && JoinValue(ListSeparator, VList([stamp]))
         == Raised("sequence item " + "0" + ": expected str instance, " + "datetime.datetime" + " found")
      && RenderProduce([stamp], env) == Raised("Object of type " + "datetime" + " is not JSON serializable")
  {
    var stamp := VOpaque("datetime", "datetime.datetime", text);
    assert NatToString(0) == "0";
    assert TypeFullName(stamp) == "datetime.datetime";
    ListItemRejected([stamp], 0);
    RefusalNamesFirstObject([], stamp, []);
    assert [] + [stamp] + [] == [stamp];
  }

  /** No produce shows the placeholder. Otherwise the prompt shows the list
      written as JSON with every ObjectId replaced by its hexadecimal text,
      and it renders exactly when no item holds an object the encoder
      refuses; a refusal is the base encoder's `TypeError` for the first
      such object in the list. */
  lemma ProduceRendering(produce: seq<Value>, env: Env)
    ensures |produce| == 0 ==> RenderProduce(produce, env) == Returned(NoProduce)
    ensures |produce| >= 1 ==>
      (RenderProduce(produce, env).Returned? <==> forall k :: 0 <= k < |produce| ==> Writable(produce[k]))
    ensures |produce| >= 1 && RenderProduce(produce, env).Returned? ==>
      RenderProduce(produce, env).value == env.dumps(Replaced(VList(produce)))
    ensures RenderProduce(produce, env).Raised? ==>
      RenderProduce(produce, env).message == Refusal(FirstRefused(VList(produce)).value)
  {
  }

  /** A produce document as the database returns it, its `_id` an ObjectId
      and its other fields plain JSON, is written with the id as text and
      everything else as it is. */
  lemma DatabaseDocumentRendered(id: seq<byte>, fields: seq<(string, Value)>, env: Env)
    requires forall k :: 0 <= k < |fields| ==> IsJson(fields[k].1)
    ensures RenderProduce([VDict([("_id", VObjectId(id))] + fields)], env)
      == Returned(env.dumps(VList([VDict([("_id", VStr(Hex(id)))] + fields)])))
  {
    var doc := VDict([("_id", VObjectId(id))] + fields);
    var written := VDict([("_id", VStr(Hex(id)))] + fields);
    forall k | 0 <= k < |fields| ensures Replaced(fields[k].1) == fields[k].1 && Writable(fields[k].1) {
      ReplacedPlain(fields[k].1);
      assert Encodable(fields[k].1).Returned?;
    }
    assert forall i :: 1 <= i < |doc.entries| ==> doc.entries[i] == fields[i - 1];
    assert Writable(doc);
    assert Replaced(doc).entries == written.entries;
    assert Replaced(VList([doc])) == VList([written]);
    assert Encodable(VList([doc])) == Returned(VList([written]));
  }

  // ---------------------------------------------------------------------
  // The conversation

  /** The model is handed the system prompt and then the rendered user
      prompt, and is consulted on nothing else: two models that answer
      these messages alike give the same result. */
  lemma ModelSeesOnlyMessages(profile: Profile, produce: seq<Value>, env: Env, other: seq<Message> -> Outcome<Response>)
    requires RenderFields(profile, produce, env).Returned?
    requires var m := [SystemMessage(env.systemPrompt), HumanMessage(env.layout(RenderFields(profile, produce, env).value))];
      other(m) == env.invoke(m)
    ensures GenerateMealPlan(profile, produce, env) == GenerateMealPlan(profile, produce, env.(invoke := other))
    ensures GenerateMealPlanIntended(profile, produce, env) == GenerateMealPlanIntended(profile, produce, env.(invoke := other))
  {
    assert RenderFields(profile, produce, env.(invoke := other)) == RenderFields(profile, produce, env);
  }

  // ---------------------------------------------------------------------
  // The error policy

  /** When the prompt cannot be rendered, the model is not asked and the
      exception is reported. */
  lemma PromptFailureReported(profile: Profile, produce: seq<Value>, env: Env, other: seq<Message> -> Outcome<Response>)
    requires RenderFields(profile, produce, env).Raised?
    ensures GenerateMealPlan(profile, produce, env)
      == GenerationFailure(RenderFields(profile, produce, env).message)
    ensures GenerateMealPlan(profile, produce, env) == GenerateMealPlan(profile, produce, env.(invoke := other))
  {
    assert RenderFields(profile, produce, env.(invoke := other)) == RenderFields(profile, produce, env);
  }

  /** When the model call raises, the exception is reported. */
  lemma ModelFailureReported(profile: Profile, produce: seq<Value>, env: Env)
    requires Messages(profile, produce, env).Returned?
    requires env.invoke(Messages(profile, produce, env).value).Raised?
    ensures GenerateMealPlan(profile, produce, env)
      == GenerationFailure(env.invoke(Messages(profile, produce, env).value).message)
  {
  }

  /** A processed response holding "error" is replaced by the failure
      dictionary carrying its details. */
  lemma ProcessedErrorReported(processed: Value, reprOf: Value -> string)
    requires HasKey(processed, "error")
    ensures Conclude(Returned(processed), reprOf) == GenerationFailure(FailureDetails(processed, reprOf))
    ensures Lookup(processed.entries, "details").None? ==>
      Conclude(Returned(processed), reprOf) == GenerationFailure(MissingDetails)
  {
  }

  /** The error dictionary of `_process_llm_response` is reported with its own
      details; its sample of the raw response is dropped. */
  lemma ProcessingErrorDetailsKept(details: string, content: string, reprOf: Value -> string)
    ensures Conclude(Returned(ProcessingError(details, content)), reprOf) == GenerationFailure(details)
  {
    var e := ProcessingError(details, content);
    assert e.entries[0].0 == "error";
    assert e.entries[1] == ("details", VStr(details));
  }

  /** A processed response without "error" (a plan, the text wrapper, or any
      non-dictionary JSON value) is returned unchanged. */
  lemma PlanReturnedUnchanged(profile: Profile, produce: seq<Value>, env: Env)
    requires Reply(profile, produce, env).Returned?
    requires var processed := ProcessAsWritten(Reply(profile, produce, env).value, env.parse);
      processed.Returned? && !HasKey(processed.value, "error")
    ensures GenerateMealPlan(profile, produce, env)
      == ProcessAsWritten(Reply(profile, produce, env).value, env.parse).value
  {
  }

  /** The code as written and the corrected code differ only on a reply whose
      text cannot be read: as written, the processing step raises
      `UnboundLocalError` and the failure names that instead of the cause;
      corrected, the cause is reported. */
  lemma AsWrittenAndIntended(profile: Profile, produce: seq<Value>, env: Env)
    ensures Reply(profile, produce, env).Returned? && TextOf(Reply(profile, produce, env).value).Raised? ==>
      && GenerateMealPlan(profile, produce, env) == GenerationFailure(UnboundContent)
      && GenerateMealPlanIntended(profile, produce, env)
         == GenerationFailure(TextOf(Reply(profile, produce, env).value).message)
    ensures !(Reply(profile, produce, env).Returned? && TextOf(Reply(profile, produce, env).value).Raised?) ==>
      GenerateMealPlan(profile, produce, env) == GenerateMealPlanIntended(profile, produce, env)
  {
    if Reply(profile, produce, env).Returned? {
      var response := Reply(profile, produce, env).value;
      TextSelection(response, env.parse);
      if TextOf(response).Raised? {
        ProcessingErrorDetailsKept(TextOf(response).message, "", env.reprOf);
      }
    }
  }
}
