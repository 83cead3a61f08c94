/** What the browser client and the relay server do together: how the
    page renders what the server broadcasts, and which of the page's
    emitted events reach a server connection at all. */
module EndToEnd {
  import opened Wrappers
  import opened Js
  import opened Wire
  import opened BrowserClient
  import opened RelayServer

  /** Reserving the system label pays off: on every page, joined or not,
      the server's join and leave notices render as system messages
      showing the notice text, without a tooltip. */
  lemma NoticesRenderAsSystem(current: Option<string>, name: JsVal)
    requires ValidCurrent(current)
    ensures Render(JoinNotice(name).p, current) ==
      Item(SystemMessage, ToText(name) + "님이 입장하셨습니다.", None)
    ensures Render(LeaveNotice(name).p, current) ==
      Item(SystemMessage, ToText(name) + "님이 퇴장하셨습니다.", None)
  {
    SystemLabelIsReserved();
  }

  /** A chat message the page sends comes back from the relay unchanged;
      the sending page renders it as its own message showing the trimmed
      text, and any other page renders it as the sender's message prefixed
      with the sender's name. */
  lemma ChatEcho(sender: Option<string>, input: string, other: Option<string>, before: JsVal)
    requires ValidCurrent(sender) && ValidCurrent(other) && other != sender
    requires ChatSubmission(input, sender).Ok?
    ensures Step(before, Chat(ChatObject(sender.value, Trim(input)))) ==
      StepResult(before, [ChatObject(sender.value, Trim(input))])
    ensures Render(ChatObject(sender.value, Trim(input)).p, sender) == Item(MyMessage, Trim(input), None)
    ensures Render(ChatObject(sender.value, Trim(input)).p, other) ==
      Item(OtherMessage, sender.value + ": " + Trim(input), None)
  {
    RenderChatObject(sender.value, Trim(input), other);
  }

  /** How pages render a `{ user, msg }` object sent by an accepted user:
      the sender's own page shows the text, any other page the sender's
      name and the text. */
  lemma RenderChatObject(user: string, text: string, other: Option<string>)
    requires AcceptableName(user) && other != Some(user)
    ensures Render(ChatObject(user, text).p, Some(user)) == Item(MyMessage, text, None)
    ensures Render(ChatObject(user, text).p, other) == Item(OtherMessage, user + ": " + text, None)
  {
    SystemLabelIsReserved();
    assert user != SystemLabel;
  }

  /** How the server's event routing treats what the page emits, as
      written: the page announces itself on `"new user and lang"`, an
      event no connection listens to, so only chat messages arrive. */
  function DeliverAsWritten(sent: seq<Outgoing>): (events: seq<Event>)
    ensures NoJoin(events)
    ensures |events| <= |sent|
    ensures forall i :: 0 <= i < |events| ==> events[i].Chat?
    ensures (forall i :: 0 <= i < |sent| ==> sent[i].ChatMessage?) ==> events == DeliverIntended(sent)
  {
    if sent == [] then []
    else
      var rest := DeliverAsWritten(sent[1..]);
      match sent[0]
      case NewUserAndLang(_, _) => rest
      case ChatMessage(user, msg) => [Chat(ChatObject(user, msg))] + rest
  }

  /** As written, the page's events reach the server in order: handling
      two batches in turn delivers the two batches' chat messages one
      after the other. */
  lemma {:induction false} DeliverAsWrittenConcat(a: seq<Outgoing>, b: seq<Outgoing>)
    ensures DeliverAsWritten(a + b) == DeliverAsWritten(a) + DeliverAsWritten(b)
  {
    if a != [] {
      assert (a + b)[1..] == a[1..] + b;
      DeliverAsWrittenConcat(a[1..], b);
    } else {
      assert a + b == b;
    }
  }

  /** As written, a `"new user and lang"` event delivers nothing, wherever
      it occurs among the page's events: the server has no listener for it,
      so the rest arrives as if it had never been sent. */
  lemma {:induction false} JoinDeliversNothing(a: seq<Outgoing>, name: string, lang: string, b: seq<Outgoing>)
    ensures DeliverAsWritten(a + [NewUserAndLang(name, lang)] + b) == DeliverAsWritten(a + b)
  {
    var join := [NewUserAndLang(name, lang)];
    if a == [] {
      assert (a + join + b)[1..] == b;
      assert a + b == b;
    } else {
      assert (a + join + b)[1..] == a[1..] + join + b;
      assert (a + b)[1..] == a[1..] + b;
      JoinDeliversNothing(a[1..], name, lang, b);
    }
  }

  /** The join payload the page actually sends, `{ name, lang }`: an
      object, which is truthy and converts to `"[object Object]"`. */
  function JoinObject(name: string, lang: string): (v: JsVal)
    ensures Truthy(v)
  {
    Other(true, "[object Object]")
  }

  /** The second mismatch: even with the event name fixed, `index.js`
      stores the whole `{ name, lang }` object as `username` and
      interpolates it, so the notices name `[object Object]`, not the
      user. */
  lemma EventNameFixAloneAnnouncesObject(name: string, lang: string)
    ensures Run(Null, [NewUser(JoinObject(name, lang)), Disconnect]).emitted ==
      [JoinNotice(Other(true, "[object Object]")), LeaveNotice(Other(true, "[object Object]"))]
    ensures JoinNotice(JoinObject(name, lang)).p.msg == Str("[object Object]님이 입장하셨습니다.")
  {
    assert [NewUser(JoinObject(name, lang)), Disconnect][..1] == [NewUser(JoinObject(name, lang))];
  }

  /** The server event the client evidently intends each emitted event to
      be: its join is routed to `"new user"` with the `name` field of its
      `{ name, lang }` payload passed as the name. This corrects both the
      event name and the payload shape. */
  function IntendedEvent(o: Outgoing): (e: Event)
    ensures e.NewUser? <==> o.NewUserAndLang?
  {
    match o
    case NewUserAndLang(name, _) => NewUser(Str(name))
    case ChatMessage(user, msg) => Chat(ChatObject(user, msg))
  }

  /** The page's events as the server would receive them with the join
      routed to its `"new user"` handler. */
  function DeliverIntended(sent: seq<Outgoing>): (events: seq<Event>)
    ensures |events| == |sent|
    ensures forall i :: 0 <= i < |sent| ==> events[i] == IntendedEvent(sent[i])
  {
    if sent == [] then [] else [IntendedEvent(sent[0])] + DeliverIntended(sent[1..])
  }

  /** As written, whatever the page sends, the server connection's
      `username` stays `null`, so its disconnect announces nothing. */
  lemma JoinNeverReachesServer(sent: seq<Outgoing>)
    ensures Run(Null, DeliverAsWritten(sent)).username == Null
    ensures Run(Null, DeliverAsWritten(sent) + [Disconnect]).emitted ==
      Run(Null, DeliverAsWritten(sent)).emitted
  {
    RunNameIsLatestJoin(Null, DeliverAsWritten(sent), -1);
    DisconnectWithoutJoinIsSilent(DeliverAsWritten(sent));
  }

  /** The smallest session that shows it: a page that joins as "alice"
      and leaves makes the server broadcast nothing at all. */
  lemma AliceIsNeverAnnounced()
    ensures Run(Null, DeliverAsWritten([NewUserAndLang("alice", "ko")]) + [Disconnect]).emitted == []
  {
    var sent := [NewUserAndLang("alice", "ko")];
    assert sent[1..] == [];
    assert DeliverAsWritten(sent) == [];
    JoinNeverReachesServer(sent);
  }

  /** With the join delivered, the connection holds the page's last
      accepted name, and since an accepted name is never empty, the
      disconnect announces that name. */
  lemma IntendedJoinIsAnnounced(sent: seq<Outgoing>, k: nat)
    requires k < |sent| && sent[k].NewUserAndLang?
    requires AcceptableName(sent[k].name)
    requires forall j :: k < j < |sent| ==> sent[j].ChatMessage?
    ensures Run(Null, DeliverIntended(sent)).username == Str(sent[k].name)
    ensures Run(Null, DeliverIntended(sent) + [Disconnect]).emitted ==
      Run(Null, DeliverIntended(sent)).emitted + [LeaveNotice(Str(sent[k].name))]
  {
    var events := DeliverIntended(sent);
    assert events[k] == IntendedEvent(sent[k]) == NewUser(Str(sent[k].name));
    assert NoJoinAfter(events, k) by {
      forall j | k < j < |events| ensures !events[j].NewUser? {
        assert events[j] == IntendedEvent(sent[j]);
      }
    }
    assert Truthy(events[k].name);
    RunNameIsLatestJoin(Null, events, k);
    DisconnectAfterJoin(events, k);
  }
}
