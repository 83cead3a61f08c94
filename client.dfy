/** The browser side of the chat (public/main.js): validating the user
    name typed into the join dialog, guarding the chat form, and turning
    the messages that arrive into rendered list items. The page's state is
    the module-level `username`, the list of rendered items and the events
    sent on the socket. */
module BrowserClient {
  import opened Wrappers
  import opened Js
  import opened Wire

  /** Longest user name the join dialog accepts. */
  const MaxNameLength: nat := 30

  /** Names that would be confused with the server's notices, compared
      against the lower-case form of the trimmed name. */
  const ReservedNames: seq<string> := [SystemLabel, "system", "admin"]

  /** The language sent when the language selector has no value. */
  const DefaultLanguage: string := "ko"

  /** The three alerts the join dialog can show instead of joining. */
  datatype JoinError = EmptyName | NameTooLong | ReservedName

  predicate IsReserved(name: string)
    ensures IsReserved(name) <==>
      ToLower(name) == SystemLabel || ToLower(name) == "system" || ToLower(name) == "admin"
  {
    ToLower(name) in ReservedNames
  }

  /** The system label is reserved: it has no Latin capitals, so it is its
      own lower-case form. */
  lemma SystemLabelIsReserved()
    ensures IsReserved(SystemLabel)
  {
    ToLowerFixed(SystemLabel);
  }

  /** A name the join dialog accepts as it is: non-empty, nothing to trim,
      at most 30 characters, not reserved. */
  predicate AcceptableName(name: string) {
    name != "" && IsTrimmed(name) && |name| <= MaxNameLength && !IsReserved(name)
  }

  /** The page's `username`: `null`, or a name the join dialog accepts. */
  predicate ValidCurrent(current: Option<string>) {
    current.None? || AcceptableName(current.value)
  }

  /** The join dialog's checks, in the order the click handler makes them:
      blank after trimming, then longer than 30, then reserved. An accepted
      name is the trimmed input. */
  function ValidateUsername(input: string): (r: Result<string, JoinError>)
    ensures r.Ok? ==> r.value == Trim(input)
    ensures r.Ok? ==> AcceptableName(r.value) && r.value != SystemLabel
    ensures r == Err(EmptyName) <==> AllWhitespace(input)
  {
    TrimSpec(input);
    SystemLabelIsReserved();
    var name := Trim(input);
    if name == "" then Err(EmptyName)
    else if |name| > MaxNameLength then Err(NameTooLong)
    else if IsReserved(name) then Err(ReservedName)
    else Ok(name)
  }

  /** `languageSelect.value || "ko"`. */
  function LanguageChoice(value: string): (lang: string)
    ensures lang != ""
    ensures value != "" ==> lang == value
    ensures value == "" ==> lang == DefaultLanguage
  {
    if value != "" then value else DefaultLanguage
  }

  /** What the page emits on its socket. */
  datatype Outgoing =
    | NewUserAndLang(name: string, lang: string)  // event "new user and lang"
    | ChatMessage(user: string, msg: string)      // event "chat message"

  /** Why the chat form sent nothing: blank text is ignored silently, and
      a page that has not joined shows an alert. */
  datatype SendError = BlankMessage | NotJoined

  /** The chat form's submit guard. */
  function ChatSubmission(inputValue: string, username: Option<string>): (r: Result<Outgoing, SendError>)
    ensures r == Err(BlankMessage) <==> AllWhitespace(inputValue)
    ensures r.Ok? <==> !AllWhitespace(inputValue) && username.Some? && username.value != ""
    ensures r.Ok? ==> r.value == ChatMessage(username.value, Trim(inputValue))
    ensures r.Ok? ==> r.value.msg != "" && IsTrimmed(r.value.msg)
  {
    TrimSpec(inputValue);
    var text := Trim(inputValue);
    if text == "" then Err(BlankMessage)
    else if username.None? || username.value == "" then Err(NotJoined)
    else Ok(ChatMessage(username.value, text))
  }

  /** The CSS class a rendered message gets. */
  datatype Style = MyMessage | SystemMessage | OtherMessage

  /** One rendered `<li>`: its class, its text content and its `title`
      tooltip, if it has one. */
  datatype Item = Item(style: Style, text: string, tooltip: Option<string>)

  /** `data.user === currentUsername`, where the current name is `null`
      before joining: strict equality holds only between equal strings or
      between `null` and `null`. */
  predicate IsCurrentUser(user: JsVal, current: Option<string>)
    ensures IsCurrentUser(user, current) <==>
      user == (if current.Some? then Str(current.value) else Null)
  {
    match user
    case Str(s) => current == Some(s)
    case Null => current.None?
    case _ => false
  }

  /** `appendMessage`'s choice of class, text and tooltip. */
  function Render(p: Payload, current: Option<string>): (it: Item)
    ensures it.style == MyMessage <==> IsCurrentUser(p.user, current)
    ensures it.style == SystemMessage <==> !IsCurrentUser(p.user, current) && p.user == Str(SystemLabel)
    ensures it.tooltip.Some? <==> Truthy(p.originalMsg)
    ensures it.tooltip.Some? ==> it.tooltip.value == ToText(p.originalMsg)
  {
    var tooltip := if Truthy(p.originalMsg) then Some(ToText(p.originalMsg)) else None;
    if IsCurrentUser(p.user, current) then
      Item(MyMessage, if Truthy(p.originalMsg) then ToText(p.originalMsg) else NullableText(p.msg), tooltip)
    else if p.user == Str(SystemLabel) then
      Item(SystemMessage, NullableText(p.msg), tooltip)
    else
      Item(OtherMessage, ToText(p.user) + ": " + ToText(p.msg), tooltip)
  }

  /** The live `"chat message"` handler's guard: `data` is not nullish and
      `data.msg` is a string. */
  predicate Accepts(d: Datum)
    ensures d.Nullish? ==> !Accepts(d)
    ensures Accepts(d) ==> d.Fields? && d.p.msg.Str? && NullableText(d.p.msg) == ToText(d.p.msg) == d.p.msg.s
  {
    d.Fields? && d.p.msg.Str?
  }

  /** The items the `"chat history"` handler leaves in the list: one per
      entry, in order, until the first `null` or `undefined` entry, on
      which `appendMessage` throws and the `forEach` stops. */
  function HistoryItems(entries: seq<Datum>, current: Option<string>): (items: seq<Item>)
    ensures |items| <= |entries|
    ensures forall i :: 0 <= i < |items| ==> entries[i].Fields? && items[i] == Render(entries[i].p, current)
    ensures |items| < |entries| ==> entries[|items|].Nullish?
  {
    if entries == [] || entries[0].Nullish? then []
    else [Render(entries[0].p, current)] + HistoryItems(entries[1..], current)
  }

  /** The page: the module-level `username`, the `messages` list and the
      events emitted on the socket so far. */
  class Client {
    var username: Option<string>
    var items: seq<Item>
    var sent: seq<Outgoing>

    /** The page only ever stores a name the join dialog accepts. */
    ghost predicate Valid()
      reads this
    {
      ValidCurrent(username)
    }

    constructor ()
      ensures Valid()
      ensures username == None && items == [] && sent == []
    {
      username := None;
      items := [];
      sent := [];
    }

    /** The join dialog's click handler. */
    method SubmitUsername(inputValue: string, languageValue: string) returns (r: Result<string, JoinError>)
      requires Valid()
      modifies this
      ensures Valid()
      ensures r == ValidateUsername(inputValue)
      ensures r.Ok? ==> username == Some(r.value)
      ensures r.Ok? ==> sent == old(sent) + [NewUserAndLang(r.value, LanguageChoice(languageValue))]
      ensures r.Err? ==> username == old(username) && sent == old(sent)
      ensures items == old(items)
    {
      var language := LanguageChoice(languageValue);
      r := ValidateUsername(inputValue);
      if r.Err? {
        return;
      }
      assert ValidCurrent(Some(r.value));
      sent := sent + [NewUserAndLang(r.value, language)];
      username := Some(r.value);
    }

    /** The chat form's submit handler; on success the page also empties
      its input box. */
    method SubmitChat(inputValue: string) returns (r: Result<Outgoing, SendError>)
      modifies this
      ensures r == ChatSubmission(inputValue, username)
      ensures sent == old(sent) + (if r.Ok? then [r.value] else [])
      ensures username == old(username) && items == old(items)
    {
      var text := Trim(inputValue);
      if text == "" {
        return Err(BlankMessage);
      }
      if username.None? || username.value == "" {
        return Err(NotJoined);
      }
      r := Ok(ChatMessage(username.value, text));
      sent := sent + [r.value];
    }

    /** `appendMessage(data, currentUsername)`: adds one rendered item. */
    method AppendMessage(data: Payload, current: Option<string>)
      modifies this
      ensures items == old(items) + [Render(data, current)]
      ensures username == old(username) && sent == old(sent)
    {
      items := items + [Render(data, current)];
    }

    /** The `"chat history"` handler. `threw` tells whether an entry was
      `null` or `undefined`, so that the handler stopped with a
      `TypeError` after rendering the entries before it. */
    method OnChatHistory(msgs: HistoryPayload) returns (threw: bool)
      modifies this
      ensures items == if msgs.Array? then HistoryItems(msgs.entries, username) else []
      ensures threw <==> msgs.Array? && exists i :: 0 <= i < |msgs.entries| && msgs.entries[i].Nullish?
      ensures username == old(username) && sent == old(sent)
    {
      items := [];
      threw := false;
      if !msgs.Array? {
        return;
      }
      var entries := msgs.entries;
      ghost var expected := HistoryItems(entries, username);
      var i := 0;
      while i < |entries|
        invariant 0 <= i <= |entries|
        invariant forall k :: 0 <= k < i ==> entries[k].Fields?
        invariant i <= |expected| && items == expected[..i]
        invariant username == old(username) && sent == old(sent)
      {
        if entries[i].Nullish? {
          threw := true;
          assert |expected| == i;
          return;
        }
        AppendMessage(entries[i].p, username);
        i := i + 1;
      }
      assert expected == expected[..i];
    }

    /** The live `"chat message"` handler. */
    method OnChatMessage(data: Datum)
      modifies this
      ensures items == old(items) + (if Accepts(data) then [Render(data.p, username)] else [])
      ensures username == old(username) && sent == old(sent)
    {
      if data.Nullish? || !data.p.msg.Str? {
        return;
      }
      AppendMessage(data.p, username);
    }
  }

  /** A name the dialog would accept as it is passes the dialog
      unchanged; with `ValidateUsername`'s own contract this makes
      validation idempotent. */
  lemma AcceptableNameIsStable(name: string)
    requires AcceptableName(name)
    ensures ValidateUsername(name) == Ok(name)
  {
    TrimOfTrimmed(name);
  }

  /** The join dialog accepts exactly the inputs whose trimmed text
      meets every rule, and then yields that trimmed text; it refuses an
      input as too long exactly when its trimmed text is non-empty and
      over 30 characters. */
  lemma ValidateUsernameSpec(input: string)
    ensures ValidateUsername(input).Ok? <==> AcceptableName(Trim(input))
    ensures ValidateUsername(input).Ok? ==> ValidateUsername(input).value == Trim(input)
    ensures ValidateUsername(input) == Err(NameTooLong) <==>
      !AllWhitespace(input) && |Trim(input)| > MaxNameLength
  {
    TrimSpec(input);
    if IsReserved(Trim(input)) {
      ReservedNamesAreShort(Trim(input));
    }
  }

  /** A reserved name is at most six characters long, whatever its case. */
  lemma {:induction false} ReservedNamesAreShort(name: string)
    requires IsReserved(name)
    ensures 3 <= |name| <= 6
  {
    assert |ToLower(name)| == |name|;
  }

  /** The length limit is inclusive: a trimmed name of exactly 30
      characters is accepted as it is, and one of 31 or more is refused as
      too long. */
  lemma NameLengthBoundary(input: string)
    ensures |Trim(input)| == MaxNameLength ==> ValidateUsername(input) == Ok(Trim(input))
    ensures |Trim(input)| > MaxNameLength ==> ValidateUsername(input) == Err(NameTooLong)
  {
    if IsReserved(Trim(input)) {
      ReservedNamesAreShort(Trim(input));
    }
  }

  /** The reserved-name check ignores Latin case and the surrounding
      whitespace: a name is refused as reserved exactly when the
      lower-case form of its trimmed text is a reserved name. */
  lemma ReservedIgnoresCase(input: string)
    ensures ValidateUsername(input) == Err(ReservedName) <==> IsReserved(Trim(input))
  {
    if IsReserved(Trim(input)) {
      ReservedNamesAreShort(Trim(input));
    }
  }

  /** Latin capitals are folded before the comparison: "SYSTEM" and
      "Admin" are reserved, and so is the Hangul label. */
  lemma ReservedExamples()
    ensures IsReserved("SYSTEM") && IsReserved("Admin") && IsReserved(SystemLabel)
  {
    SystemLabelIsReserved();
    assert LowerChar('S') == 's' && LowerChar('Y') == 'y' && LowerChar('T') == 't';
    assert LowerChar('E') == 'e' && LowerChar('M') == 'm' && LowerChar('A') == 'a';
    assert ToLower("SYSTEM") == "system";
    assert ToLower("Admin") == "admin";
  }

  /** The comparison is for equality, not containment: "admins" is not
      reserved. */
  lemma NotReservedExample()
    ensures !IsReserved("admins")
  {
    ToLowerFixed("admins");
  }

  /** A page's own message shows its original text when it has one, and
      that text is also its tooltip; otherwise it shows `msg`. */
  lemma OwnMessagePrefersOriginal(p: Payload, current: Option<string>)
    requires IsCurrentUser(p.user, current)
    ensures var it := Render(p, current);
      it.style == MyMessage &&
      (Truthy(p.originalMsg) ==> it.text == ToText(p.originalMsg) && it.tooltip == Some(it.text)) &&
      (!Truthy(p.originalMsg) ==> it.text == NullableText(p.msg) && it.tooltip == None)
  {
  }

  /** Whatever its class, a rendered string message without an original
      shows the message text at its end, and its author's name before it
      when it is somebody else's. */
  lemma RenderShowsMessage(p: Payload, current: Option<string>)
    requires p.msg.Str? && !Truthy(p.originalMsg)
    ensures var it := Render(p, current);
      |p.msg.s| <= |it.text| && it.text[|it.text| - |p.msg.s|..] == p.msg.s &&
      (it.style == OtherMessage ==> it.text == ToText(p.user) + ": " + p.msg.s)
  {
    var it := Render(p, current);
    if it.style == OtherMessage {
      assert it.text == (ToText(p.user) + ": ") + p.msg.s;
    }
  }

  /** The text of a message that is not the page's own depends only on
      its author and `msg`, never on `originalMsg`: a system message shows
      `msg`, anybody else's message shows `user: msg`. */
  lemma RenderedTextOfOthers(p: Payload, current: Option<string>)
    requires !IsCurrentUser(p.user, current)
    ensures p.user == Str(SystemLabel) ==> Render(p, current).text == NullableText(p.msg)
    ensures p.user != Str(SystemLabel) ==>
      Render(p, current).text == ToText(p.user) + ": " + ToText(p.msg)
  {
  }

  /** A history whose entries are all objects renders exactly one item
      per entry, in order. */
  lemma HistoryOnePerEntry(entries: seq<Datum>, current: Option<string>)
    requires forall i :: 0 <= i < |entries| ==> entries[i].Fields?
    ensures |HistoryItems(entries, current)| == |entries|
    ensures forall i :: 0 <= i < |entries| ==> HistoryItems(entries, current)[i] == Render(entries[i].p, current)
  {
  }
}
