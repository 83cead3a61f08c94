/** The payloads that travel on the `"chat message"` and `"chat history"`
    events between the browser client and the relay server. */
module Wire {
  import opened Js

  /** The author label of the notices the server broadcasts, also the
      first reserved user name. */
  const SystemLabel: string := "시스템"

  /** The fields `{ user, msg, originalMsg? }` a chat message is read
      through; a field the object does not have reads as `Undefined`. */
  datatype Payload = Payload(user: JsVal, msg: JsVal, originalMsg: JsVal)

  /** One value received on an event. `Nullish` is `null` or `undefined`,
      on which reading a field throws a `TypeError`. Every other value is
      read through its fields; a string, number or boolean has none of the
      three, so it is `Fields` with all three `Undefined`. */
  datatype Datum = Nullish | Fields(p: Payload)

  /** The `"chat history"` payload: `Array.isArray` either holds or not. */
  datatype HistoryPayload = NotArray | Array(entries: seq<Datum>)

  /** The object literal `{ user, msg }` as a received value. */
  function ChatObject(user: string, msg: string): (d: Datum)
    ensures d.Fields? && d.p.user == Str(user) && d.p.msg == Str(msg)
    ensures !Truthy(d.p.originalMsg)
  {
    Fields(Payload(Str(user), Str(msg), Undefined))
  }
}
