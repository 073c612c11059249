/** Studio's validation result for an XBlock: a list of messages, each a
    small dictionary with a type, a text and optional action fields, plus an
    optional summary message. */
module StudioValidations {
  import opened Wrappers
  import opened PythonValues

  /** The exceptions `create_message` raises. */
  datatype Error = TypeError(msg: string) | AssertionError(msg: string)

  /** A message dictionary. */
  type Message = map<string, PyValue>

  /** The message types: the two of the base validation and Studio's own. */
  const WARNING: string := "warning"
  const ERROR: string := "error"
  const NOT_CONFIGURED: string := "not-configured"

  const MESSAGE_KEYS: set<string> := {"type", "text", "action_label", "action_class", "action_runtime_event"}

  /** The entry `k` of `m`, or None when it is absent. */
  function Field(m: Message, k: string): PyValue {
    if k in m then m[k] else NoneValue
  }

  /** Adds the entry only when the value is truthy. */
  function WithOptional(m: Message, k: string, v: PyValue): (r: Message)
    ensures Truthy(v) ==> r == m[k := v]
    ensures !Truthy(v) ==> r == m
  {
    if Truthy(v) then m[k := v] else m
  }

  /** What every message `create_message` returns looks like: a type, a
      unicode text, and only those optional action fields that were given,
      each of the string kind it was checked against. */
  ghost predicate WellFormed(m: Message) {
    && "type" in m && "text" in m && m["text"].Unicode?
    && m.Keys <= MESSAGE_KEYS
    && ("action_label" in m ==> Truthy(m["action_label"]) && m["action_label"].Unicode?)
    && ("action_class" in m ==> Truthy(m["action_class"]) && IsString(m["action_class"]))
    && ("action_runtime_event" in m ==> Truthy(m["action_runtime_event"]) && IsString(m["action_runtime_event"]))
  }

  /** `StudioValidation.create_message`: the text must be unicode (an
      assertion), a given action label must be unicode and a given action
      class or runtime event must be a string (TypeError otherwise); each
      action field appears in the message exactly when it is given
      (truthy). */
  function CreateMessage(messageType: PyValue, text: PyValue, actionLabel: PyValue, actionClass: PyValue, runtimeEvent: PyValue): (r: Result<Message, Error>)
    ensures r.Err? <==>
      || !text.Unicode?
      || (Truthy(actionLabel) && !actionLabel.Unicode?)
      || (Truthy(actionClass) && !IsString(actionClass))
      || (Truthy(runtimeEvent) && !IsString(runtimeEvent))
    ensures r.Err? ==> (r.error.AssertionError? <==> !text.Unicode?)
    ensures r.Ok? ==> WellFormed(r.value)
    ensures r.Ok? ==> r.value["type"] == messageType && r.value["text"] == text
    ensures r.Ok? ==> ("action_label" in r.value <==> Truthy(actionLabel)) && Field(r.value, "action_label") == (if Truthy(actionLabel) then actionLabel else NoneValue)
    ensures r.Ok? ==> ("action_class" in r.value <==> Truthy(actionClass)) && Field(r.value, "action_class") == (if Truthy(actionClass) then actionClass else NoneValue)
    ensures r.Ok? ==> ("action_runtime_event" in r.value <==> Truthy(runtimeEvent)) && Field(r.value, "action_runtime_event") == (if Truthy(runtimeEvent) then runtimeEvent else NoneValue)
  {
    if !text.Unicode? then Err(AssertionError("Message text must be unicode."))
    else if Truthy(actionLabel) && !actionLabel.Unicode? then Err(TypeError("Action label must be unicode."))
    else if Truthy(actionClass) && !IsString(actionClass) then Err(TypeError("Action class must be a string."))
    else if Truthy(runtimeEvent) && !IsString(runtimeEvent) then Err(TypeError("Action runtime event must be a string."))
    else
      var base := map["type" := messageType, "text" := text];
      Ok(WithOptional(WithOptional(WithOptional(base, "action_label", actionLabel), "action_class", actionClass), "action_runtime_event", runtimeEvent))
  }

  /** Every well-formed message is what `create_message` builds from its own
      fields: the builder loses nothing and adds nothing. */
  lemma CreateMessageFromFields(m: Message)
    requires WellFormed(m)
    ensures CreateMessage(m["type"], m["text"], Field(m, "action_label"), Field(m, "action_class"),
                          Field(m, "action_runtime_event")) == Ok(m)
  {
    var r := CreateMessage(m["type"], m["text"], Field(m, "action_label"), Field(m, "action_class"),
                           Field(m, "action_runtime_event"));
    assert r.Ok?;
    forall k | k in m
      ensures k in r.value && r.value[k] == m[k]
    {
      assert k in MESSAGE_KEYS;
    }
    forall k | k in r.value
      ensures k in m
    {
      assert k in MESSAGE_KEYS;
    }
    assert r.value == m;
  }

  /** A message list object; it may be shared by several validations. */
  class MessageList {
    var items: seq<Message>

    constructor()
      ensures items == []
    {
      items := [];
    }
  }

  /** The serialised form of a validation. */
  datatype Json = JString(s: string) | JBool(b: bool) | JMessage(m: Message) | JMessages(ms: seq<Message>)

  /** `StudioValidation`: the block id, the (shared) message list and an
      optional summary message. */
  class StudioValidation {
    const xblockId: string
    var messages: MessageList
    var summary: Option<Message>

    /** A summary is always a message `create_message` built. */
    ghost predicate Valid()
      reads this
    {
      summary.Some? ==> WellFormed(summary.value)
    }

    /** `StudioValidation(xblock_id)`: no messages and no summary. */
    constructor(xblockId: string)
      ensures Valid()
      ensures this.xblockId == xblockId && fresh(messages) && messages.items == [] && summary == None
    {
      this.xblockId := xblockId;
      messages := new MessageList();
      summary := None;
    }

    /** `StudioValidation.copy(validation)`: a new validation for the same
        block that shares the given message list (the list itself, not a
        copy of it) and has no summary. */
    static method Copy(xblockId: string, messages: MessageList) returns (v: StudioValidation)
      ensures fresh(v) && v.Valid()
      ensures v.xblockId == xblockId && v.messages == messages && v.summary == None
    {
      v := new StudioValidation(xblockId);
      v.messages := messages;
    }

    /** `add`: appends the created message at the end of the list; a
        rejected message raises and the list is unchanged. */
    method Add(messageType: PyValue, text: PyValue, actionLabel: PyValue, actionClass: PyValue, runtimeEvent: PyValue) returns (r: Outcome<Error>)
      requires Valid()
      modifies messages
      ensures Valid()
      ensures var c := CreateMessage(messageType, text, actionLabel, actionClass, runtimeEvent);
        && (c.Ok? ==> r == Pass && messages.items == old(messages.items) + [c.value])
        && (c.Err? ==> r == Fail(c.error) && messages.items == old(messages.items))
      ensures r.Pass? ==> !IsEmpty()
    {
      var c := CreateMessage(messageType, text, actionLabel, actionClass, runtimeEvent);
      if c.Err? {
        return Fail(c.error);
      }
      messages.items := messages.items + [c.value];
      r := Pass;
    }

    /** `set_summary`: replaces the summary with the created message; a
        rejected message raises and the summary is unchanged. */
    method SetSummary(messageType: PyValue, text: PyValue, actionLabel: PyValue, actionClass: PyValue, runtimeEvent: PyValue) returns (r: Outcome<Error>)
      requires Valid()
      modifies this`summary
      ensures Valid()
      ensures var c := CreateMessage(messageType, text, actionLabel, actionClass, runtimeEvent);
        && (c.Ok? ==> r == Pass && summary == Some(c.value))
        && (c.Err? ==> r == Fail(c.error) && summary == old(summary))
      ensures r.Pass? ==> !IsEmpty()
    {
      var c := CreateMessage(messageType, text, actionLabel, actionClass, runtimeEvent);
      if c.Err? {
        return Fail(c.error);
      }
      summary := Some(c.value);
      r := Pass;
    }

    /** `is_empty`: the base condition (no messages) and no truthy summary;
        on a valid validation, empty exactly when there is neither a
        message nor a summary. */
    function IsEmpty(): (b: bool)
      reads this, messages
      ensures Valid() ==> (b <==> messages.items == [] && summary.None?)
    {
      messages.items == [] && !(summary.Some? && |summary.value| != 0)
    }

    /** `to_json`: block id, messages and emptiness, and the summary only
        when one is set. */
    function ToJson(): (j: map<string, Json>)
      reads this, messages
      ensures Valid() ==> ("summary" in j <==> summary.Some?)
      ensures j.Keys - {"summary"} == {"xblock_id", "messages", "is_empty"}
      ensures j["xblock_id"] == JString(xblockId) && j["messages"] == JMessages(messages.items)
      ensures j["is_empty"] == JBool(IsEmpty())
      ensures "summary" in j ==> j["summary"] == JMessage(summary.value)
    {
      var base := map["xblock_id" := JString(xblockId), "messages" := JMessages(messages.items), "is_empty" := JBool(IsEmpty())];
      if summary.Some? && |summary.value| != 0 then base["summary" := JMessage(summary.value)] else base
    }
  }
}
