/** The relay server (index.js): every socket connection keeps one
    variable, `username`, which starts as `null`; its `"new user"`,
    `"chat message"` and `"disconnect"` handlers broadcast
    `"chat message"` events to every client through `io.emit`. The
    broadcast channel is modelled as an append-only log of the payloads
    emitted, shared by all connections. */
module RelayServer {
  import opened Js
  import opened Wire

  /** The events a connection's handlers react to, with their payloads. */
  datatype Event =
    | NewUser(name: JsVal)   // "new user"
    | Chat(data: Datum)      // "chat message"
    | Disconnect             // "disconnect"

  /** The notice broadcast when a connection announces its name. */
  function JoinNotice(name: JsVal): (d: Datum)
    ensures d.Fields? && d.p.user == Str(SystemLabel) && !Truthy(d.p.originalMsg)
  {
    Fields(Payload(Str(SystemLabel), Str(ToText(name) + "님이 입장하셨습니다."), Undefined))
  }

  /** The notice broadcast when a named connection goes away. */
  function LeaveNotice(name: JsVal): (d: Datum)
    ensures d.Fields? && d.p.user == Str(SystemLabel) && !Truthy(d.p.originalMsg)
  {
    Fields(Payload(Str(SystemLabel), Str(ToText(name) + "님이 퇴장하셨습니다."), Undefined))
  }

  /** The connection's `username` after an event and what the event's
      handler broadcast. */
  datatype StepResult = StepResult(username: JsVal, emitted: seq<Datum>)

  /** One handler run, from the value of `username` before it. */
  function Step(username: JsVal, e: Event): (r: StepResult)
    ensures |r.emitted| <= 1
    ensures r.emitted == [] <==> e.Disconnect? && !Truthy(username)
    ensures !e.NewUser? ==> r.username == username
  {
    match e
    case NewUser(name) => StepResult(name, [JoinNotice(name)])
    case Chat(data) => StepResult(username, [data])
    case Disconnect => StepResult(username, if Truthy(username) then [LeaveNotice(username)] else [])
  }

  /** A whole sequence of events handled in order from `username`. */
  function Run(username: JsVal, events: seq<Event>): (r: StepResult)
    ensures |r.emitted| <= |events|
  {
    if events == [] then StepResult(username, [])
    else
      var before := Run(username, events[..|events| - 1]);
      var last := Step(before.username, events[|events| - 1]);
      StepResult(last.username, before.emitted + last.emitted)
  }

  /** No `"new user"` event after position `k` of `events`. */
  predicate NoJoinAfter(events: seq<Event>, k: int) {
    forall i :: 0 <= i < |events| && k < i ==> !events[i].NewUser?
  }

  /** No `"new user"` event among `events`. */
  predicate NoJoin(events: seq<Event>) {
    NoJoinAfter(events, -1)
  }

  /** The connection's name is that of the last `"new user"` event, or
      the starting value when there was none. */
  lemma {:induction false} RunNameIsLatestJoin(username: JsVal, events: seq<Event>, k: int)
    requires -1 <= k < |events|
    requires k >= 0 ==> events[k].NewUser?
    requires NoJoinAfter(events, k)
    ensures Run(username, events).username == if k >= 0 then events[k].name else username
  {
    if events != [] && k < |events| - 1 {
      var front := events[..|events| - 1];
      assert !events[|events| - 1].NewUser?;
      assert NoJoinAfter(front, k);
      RunNameIsLatestJoin(username, front, k);
    }
  }

  /** Handling `a` and then `b` is handling `a + b`. */
  lemma {:induction false} RunConcat(username: JsVal, a: seq<Event>, b: seq<Event>)
    ensures Run(username, a + b) ==
      StepResult(Run(Run(username, a).username, b).username,
                 Run(username, a).emitted + Run(Run(username, a).username, b).emitted)
  {
    if b == [] {
      assert a + b == a;
    } else {
      var b' := b[..|b| - 1];
      assert (a + b)[..|a + b| - 1] == a + b';
      assert (a + b)[|a + b| - 1] == b[|b| - 1];
      RunConcat(username, a, b');
    }
  }

  /** A connection that never announced a name broadcasts nothing when it
      disconnects. */
  lemma DisconnectWithoutJoinIsSilent(events: seq<Event>)
    requires NoJoin(events)
    ensures Run(Null, events + [Disconnect]).emitted == Run(Null, events).emitted
  {
    RunNameIsLatestJoin(Null, events, -1);
    assert (events + [Disconnect])[..|events|] == events;
  }

  /** After a connection's last `"new user"` event with name `n`, its
      disconnect broadcasts exactly one leave notice carrying `n` when `n`
      is truthy, and nothing when it is falsy (the empty string). */
  lemma DisconnectAfterJoin(events: seq<Event>, k: nat)
    requires k < |events| && events[k].NewUser?
    requires NoJoinAfter(events, k)
    ensures Run(Null, events + [Disconnect]).emitted ==
      Run(Null, events).emitted + (if Truthy(events[k].name) then [LeaveNotice(events[k].name)] else [])
  {
    RunNameIsLatestJoin(Null, events, k);
    assert (events + [Disconnect])[..|events|] == events;
  }

  /** A chat payload is broadcast exactly as received and leaves the
      connection's name alone, joined or not. */
  lemma ChatIsRelayedUnchanged(username: JsVal, events: seq<Event>, data: Datum)
    ensures Run(username, events + [Chat(data)]) ==
      StepResult(Run(username, events).username, Run(username, events).emitted + [data])
  {
    assert (events + [Chat(data)])[..|events|] == events;
  }

  /** Joining twice: each join broadcasts its own notice, and the leave
      notice uses the later name. */
  lemma RejoinLastNameWins(first: JsVal, second: JsVal)
    ensures Run(Null, [NewUser(first), NewUser(second), Disconnect]).emitted ==
      [JoinNotice(first), JoinNotice(second)] + (if Truthy(second) then [LeaveNotice(second)] else [])
  {
    var one := [NewUser(first)];
    var two := one + [NewUser(second)];
    assert one[..0] == [];
    assert Run(Null, one) == StepResult(first, [JoinNotice(first)]);
    assert two[..1] == one;
    assert Run(Null, two) == StepResult(second, [JoinNotice(first), JoinNotice(second)]);
    assert (two + [Disconnect])[..2] == two;
    assert [NewUser(first), NewUser(second), Disconnect] == two + [Disconnect];
  }

  /** Joining with the empty name still broadcasts a join notice, but the
      empty name is falsy, so the disconnect broadcasts nothing. */
  lemma EmptyNameJoinsButNeverLeaves()
    ensures Run(Null, [NewUser(Str("")), Disconnect]).emitted == [JoinNotice(Str(""))]
  {
    assert [NewUser(Str("")), Disconnect][..1] == [NewUser(Str(""))];
  }

  /** The `io` broadcast channel: every payload emitted on
      `"chat message"`, from every connection, in order. */
  class Hub {
    var log: seq<Datum>

    constructor ()
      ensures log == []
    {
      log := [];
    }

    /** `io.emit("chat message", data)`. */
    method Emit(data: Datum)
      modifies this
      ensures log == old(log) + [data]
    {
      log := log + [data];
    }
  }

  /** One socket connection: the closure variable `username` and the
      broadcast channel its handlers emit on. The ghost fields record the
      events handled so far and what this connection emitted. */
  class Connection {
    var username: JsVal
    const hub: Hub
    ghost var events: seq<Event>
    ghost var emitted: seq<Datum>

    /** `username` and the connection's own broadcasts are those of
        running its handlers over the events so far. */
    ghost predicate Valid()
      reads this
    {
      Run(Null, events) == StepResult(username, emitted)
    }

    /** The `io.on("connection")` callback: `let username = null`. */
    constructor (hub: Hub)
      ensures Valid() && this.hub == hub
      ensures username == Null && events == [] && emitted == []
    {
      this.hub := hub;
      username := Null;
      events := [];
      emitted := [];
    }

    /** Dispatches one event to its handler. */
    method Handle(e: Event)
      requires Valid()
      modifies this, hub
      ensures Valid()
      ensures events == old(events) + [e]
      ensures username == Step(old(username), e).username
      ensures hub.log == old(hub.log) + Step(old(username), e).emitted
      ensures emitted == old(emitted) + Step(old(username), e).emitted
    {
      match e
      case NewUser(name) => OnNewUser(name);
      case Chat(data) => OnChatMessage(data);
      case Disconnect => OnDisconnect();
    }

    /** The `"new user"` handler: stores the name, announces it. */
    method OnNewUser(name: JsVal)
      requires Valid()
      modifies this, hub
      ensures Valid()
      ensures events == old(events) + [NewUser(name)]
      ensures username == name
      ensures hub.log == old(hub.log) + [JoinNotice(name)]
      ensures emitted == old(emitted) + [JoinNotice(name)]
    {
      username := name;
      hub.Emit(JoinNotice(username));
      events := events + [NewUser(name)];
      emitted := emitted + [JoinNotice(name)];
      assert events[..|events| - 1] == old(events);
    }

    /** The `"chat message"` handler: relays the payload untouched. */
    method OnChatMessage(data: Datum)
      requires Valid()
      modifies this, hub
      ensures Valid()
      ensures events == old(events) + [Chat(data)]
      ensures username == old(username)
      ensures hub.log == old(hub.log) + [data]
      ensures emitted == old(emitted) + [data]
    {
      hub.Emit(data);
      events := events + [Chat(data)];
      emitted := emitted + [data];
      assert events[..|events| - 1] == old(events);
    }

    /** The `"disconnect"` handler: announces the leave if the stored name
        is truthy. */
    method OnDisconnect()
      requires Valid()
      modifies this, hub
      ensures Valid()
      ensures events == old(events) + [Disconnect]
      ensures username == old(username)
      ensures hub.log == old(hub.log) + (if Truthy(username) then [LeaveNotice(username)] else [])
      ensures emitted == old(emitted) + (if Truthy(username) then [LeaveNotice(username)] else [])
    {
      if Truthy(username) {
        hub.Emit(LeaveNotice(username));
        emitted := emitted + [LeaveNotice(username)];
      }
      events := events + [Disconnect];
      assert events[..|events| - 1] == old(events);
    }
  }
}
