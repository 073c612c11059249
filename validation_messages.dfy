/** The Studio front end's model of the validation messages shown on a
    component: which type the summary takes, the summary message itself,
    the display name of a type, the detailed messages to list and the extra
    CSS class of the container. JavaScript values and objects are modelled
    as far as these functions look at them. */
module ValidationMessagesModel {
  import opened Wrappers

  /** A JavaScript value as these functions see it. */
  datatype JsValue = Undefined | Null | JBool(b: bool) | JNum(n: int) | JStr(s: string)

  /** JavaScript truthiness (NaN aside). */
  predicate JsTruthy(v: JsValue) {
    match v
    case Undefined => false
    case Null => false
    case JBool(b) => b
    case JNum(n) => n != 0
    case JStr(s) => s != []
  }

  /** A plain object: its own properties and their values. */
  type JsObject = map<string, JsValue>

  /** Property read `o.k`: undefined when the property is absent. */
  function Prop(o: JsObject, k: string): JsValue {
    if k in o then o[k] else Undefined
  }

  const ERROR: string := "error"
  const WARNING: string := "warning"
  const NOT_CONFIGURED: string := "not-configured"
  /** The text of the summary shown when the stored summary has none. */
  const DEFAULT_SUMMARY_TEXT: string := "This component has validation issues."
  const NO_CONTAINER_CONTENT: string := "no-container-content"

  /** Some detailed message has type "error". */
  ghost predicate HasError(messages: seq<JsObject>) {
    exists i :: 0 <= i < |messages| && Prop(messages[i], "type") == JStr(ERROR)
  }

  /** The summary type: "error" when some message is an error, "warning"
      otherwise, whatever other types ("not-configured" among them) occur. */
  ghost function SummaryType(messages: seq<JsObject>): (t: string)
    ensures t == ERROR || t == WARNING
    ensures t == ERROR <==> exists i :: 0 <= i < |messages| && Prop(messages[i], "type") == JStr(ERROR)
  {
    if HasError(messages) then ERROR else WARNING
  }

  /** The summary message `getSummaryMessage` returns for a stored summary
      `stored`: the stored one when it has a text, a default one otherwise,
      with a missing or null type filled in with the summary type. */
  ghost function SummaryMessage(stored: JsObject, messages: seq<JsObject>): (m: JsObject)
    ensures "text" in m && "type" in m && m["type"] != Null
    ensures "text" in stored ==> m["text"] == stored["text"] && m.Keys == stored.Keys + {"type"}
    ensures "text" !in stored ==> m == map["text" := JStr(DEFAULT_SUMMARY_TEXT), "type" := JStr(SummaryType(messages))]
    ensures "text" in stored && "type" in stored && stored["type"] != Null ==> m == stored
    ensures "text" in stored && ("type" !in stored || stored["type"] == Null) ==> m == stored["type" := JStr(SummaryType(messages))]
  {
    var base := if "text" in stored then stored else map["text" := JStr(DEFAULT_SUMMARY_TEXT)];
    if "type" !in base || base["type"] == Null then base["type" := JStr(SummaryType(messages))] else base
  }

  /** The stored summary after `getSummaryMessage`: written to only when it
      is the message returned, and then only its type, only when that was
      missing or null. */
  ghost function StoredAfter(stored: JsObject, messages: seq<JsObject>): (r: JsObject)
    ensures r.Keys == if "text" in stored then stored.Keys + {"type"} else stored.Keys
    ensures forall k :: k in stored && k != "type" ==> r[k] == stored[k]
    ensures "type" in stored && stored["type"] != Null ==> r == stored
  {
    if "text" in stored then SummaryMessage(stored, messages) else stored
  }

  /** Asking for the summary message again changes nothing more and returns
      the same message. */
  lemma {:induction false} SummaryMessageStable(stored: JsObject, messages: seq<JsObject>)
    ensures StoredAfter(StoredAfter(stored, messages), messages) == StoredAfter(stored, messages)
    ensures SummaryMessage(StoredAfter(stored, messages), messages) == SummaryMessage(stored, messages)
  {
    if "text" in stored {
      var m := SummaryMessage(stored, messages);
      assert "type" in m && m["type"] != Null;
    }
  }

  /** The summary message has type "not-configured" exactly when the stored
      summary has a text and already carries that type: the derived type
      is never "not-configured". */
  lemma NotConfiguredOnlyFromStored(stored: JsObject, messages: seq<JsObject>)
    ensures Prop(SummaryMessage(stored, messages), "type") == JStr(NOT_CONFIGURED) <==>
      "text" in stored && Prop(stored, "type") == JStr(NOT_CONFIGURED)
  {
  }

  /** `getDisplayName`: "Warning" and "Error" for the two summary types,
      null for anything else. */
  function DisplayName(messageType: JsValue): (r: JsValue)
    ensures r != Null <==> messageType == JStr(WARNING) || messageType == JStr(ERROR)
    ensures messageType == JStr(WARNING) ==> r == JStr("Warning")
    ensures messageType == JStr(ERROR) ==> r == JStr("Error")
  {
    if messageType == JStr(WARNING) then JStr("Warning")
    else if messageType == JStr(ERROR) then JStr("Error")
    else Null
  }

  /** A derived summary type always has a display name; a stored
      "not-configured" type has none. */
  lemma SummaryTypeHasDisplayName(messages: seq<JsObject>)
    ensures DisplayName(JStr(SummaryType(messages))) != Null
    ensures DisplayName(JStr(NOT_CONFIGURED)) == Null
  {
  }

  /** A plain object whose identity matters: the stored summary, which
      `getSummaryMessage` may write to and return. */
  class JsRecord {
    var props: JsObject

    constructor(props: JsObject)
      ensures this.props == props
    {
      this.props := props;
    }
  }

  /** `ValidationMessages`: a Backbone model with the attributes `summary`,
      `messages`, `show_summary_only` and `is_root`. */
  class ValidationMessages {
    const summary: JsRecord
    const messages: seq<JsObject>
    const showSummaryOnly: JsValue
    const isRoot: JsValue

    /** Creation with the given attributes; an attribute not given takes its
        default: an empty summary object, and false for the two flags. The
        `messages` attribute has no default and must be given. (Backbone
        shares one default summary object among all models created without
        a summary; no operation here writes to an object without a text, so
        the model does not tell it apart from a new one.) */
    constructor(summary: Option<JsRecord>, messages: seq<JsObject>, showSummaryOnly: Option<JsValue>, isRoot: Option<JsValue>)
      ensures summary.Some? ==> this.summary == summary.value
      ensures summary.None? ==> this.summary.props == map[]
      ensures this.messages == messages
      ensures this.showSummaryOnly == if showSummaryOnly.Some? then showSummaryOnly.value else JBool(false)
      ensures this.isRoot == if isRoot.Some? then isRoot.value else JBool(false)
    {
      if summary.Some? {
        this.summary := summary.value;
      } else {
        this.summary := new JsRecord(map[]);
      }
      this.messages := messages;
      this.showSummaryOnly := if showSummaryOnly.Some? then showSummaryOnly.value else JBool(false);
      this.isRoot := if isRoot.Some? then isRoot.value else JBool(false);
    }

    /** `getSummaryType`: scan the messages, stopping at the first error. */
    method GetSummaryType() returns (t: string)
      ensures t == SummaryType(messages)
      ensures t != NOT_CONFIGURED
    {
      var i := 0;
      while i < |messages|
        invariant 0 <= i <= |messages|
        invariant forall j :: 0 <= j < i ==> Prop(messages[j], "type") != JStr(ERROR)
      {
        if Prop(messages[i], "type") == JStr(ERROR) {
          return ERROR;
        }
        i := i + 1;
      }
      return WARNING;
    }

    /** `getSummaryMessage`: the stored summary when it has a text (and then
        a missing or null type is written into it), otherwise a new default
        message. */
    method GetSummaryMessage() returns (m: JsRecord)
      modifies summary
      ensures "text" in old(summary.props) ==> m == summary
      ensures "text" !in old(summary.props) ==> fresh(m)
      ensures m.props == SummaryMessage(old(summary.props), messages)
      ensures summary.props == StoredAfter(old(summary.props), messages)
    {
      if "text" in summary.props {
        m := summary;
      } else {
        m := new JsRecord(map["text" := JStr(DEFAULT_SUMMARY_TEXT)]);
      }
      if "type" !in m.props || m.props["type"] == Null {
        var t := GetSummaryType();
        m.props := m.props["type" := JStr(t)];
      }
    }

    /** `getDetailedMessages`: none when only the summary is shown. */
    function DetailedMessages(): (r: seq<JsObject>)
      ensures JsTruthy(showSummaryOnly) ==> r == []
      ensures !JsTruthy(showSummaryOnly) ==> r == messages
    {
      if JsTruthy(showSummaryOnly) then [] else messages
    }

    /** `getAdditionalClasses`: "no-container-content" for a root component
        whose summary is "not-configured" and that lists no detailed
        messages, "" otherwise. The summary message is only asked for (and
        the stored summary only written to) when the component is a root. */
    method AdditionalClasses() returns (c: string)
      modifies summary
      ensures c == NO_CONTAINER_CONTENT || c == ""
      ensures c == NO_CONTAINER_CONTENT <==>
        && JsTruthy(isRoot)
        && "text" in old(summary.props) && Prop(old(summary.props), "type") == JStr(NOT_CONFIGURED)
        && DetailedMessages() == []
      ensures summary.props == if JsTruthy(isRoot) then StoredAfter(old(summary.props), messages) else old(summary.props)
    {
      c := "";
      if JsTruthy(isRoot) {
        var m := GetSummaryMessage();
        NotConfiguredOnlyFromStored(old(summary.props), messages);
        if Prop(m.props, "type") == JStr(NOT_CONFIGURED) && |DetailedMessages()| == 0 {
          c := NO_CONTAINER_CONTENT;
        }
      }
    }
  }
}
