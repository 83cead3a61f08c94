# Chatting: the browser client and the socket relay, in Dafny

This project models the two pieces of logic in the Chatting web chat:

- the browser page (`public/main.js`): the join dialog's user-name check,
  the chat form's submit guard, how an arriving message becomes a rendered
  list item (class, text, tooltip), and the `"chat history"` and
  `"chat message"` handlers that fill the list;
- the relay server (`index.js`): one `username` variable per socket
  connection, set by `"new user"`, read by `"disconnect"`, and the
  `"chat message"` broadcasts its handlers make.

Comments in the page speak of translation: its own messages are said to
show the original or translated text (public/main.js:29), and the
`"chat history"` handler is said to receive a history the server has
already translated into the user's preferred language
(public/main.js:107). None of that is in the server's code: `index.js`
stores nothing, translates nothing, rebroadcasts every chat payload
unchanged and never sends `"chat history"`. The model follows the code.

Files:

- `wrappers.dfy`: `Option` and `Result`.
- `js.dfy` (module `Js`): JavaScript values as the code observes them
  (`undefined`, `null`, strings, and everything else reduced to its
  truthiness and its string conversion), `String(v)`, the DOM's nullable
  `textContent`, `trim()` and `toLowerCase()`.
- `wire.dfy` (module `Wire`): the `{ user, msg, originalMsg? }` payload, a
  received value (`null`/`undefined`, or an object read through those
  fields), and the history payload (an array or not).
- `client.dfy` (module `BrowserClient`): the page. The pure decisions are
  functions (`ValidateUsername`, `ChatSubmission`, `Render`,
  `HistoryItems`); the page itself is the class `Client`, whose fields are
  the module-level `username`, the rendered items and the events emitted,
  and whose methods are the event handlers. `OnChatHistory` keeps the
  source's `forEach` as a loop.
- `relay.dfy` (module `RelayServer`): the per-connection state machine.
  `Step` and `Run` are the reference semantics of the handlers over an
  event sequence; `Hub` is the `io` broadcast channel as an append-only
  log; `Connection` holds `username` and its handlers append to the hub.
- `endtoend.dfy` (module `EndToEnd`): how the page renders what the
  server broadcasts, and which of the page's events a server connection
  receives.

JavaScript details kept: `trim()` removes every ECMAScript white-space and
line-terminator character; `toLowerCase()` leaves Hangul as it is, so the
label `시스템` is reserved exactly; `||` and `if (...)` use truthiness, so an
empty name joins but is never announced as leaving; `===` between the
message's `user` and a `null` current name holds only for `user: null`;
reading a field of a `null` history entry throws, which stops the history
loop after the entries before it.

## Model

| member | source | states |
|---|---|---|
| `Js.Truthy` | index.js:28 | `if (v)`: `undefined` and `null` are falsy, and a string is truthy exactly when it is non-empty (also public/main.js:30, 44, 57, 60, 92-93, 121) |
| `Js.ToText` | public/main.js:38-40 | `String(v)`, as in a template literal or `createTextNode`: a string converts to itself, `undefined` to `"undefined"` and `null` to `"null"` (also index.js:18, 31) |
| `Js.NullableText` | public/main.js:30-33 | assigning to `textContent`: `null` and `undefined` give the empty text, every other value its string conversion |
| `Js.IsJsWhitespace` | public/main.js:56 | the characters `trim()` strips; none lies above U+FEFF, and no digit, Latin letter or Hangul syllable is among them (also public/main.js:91) |
| `Js.Trim` | public/main.js:56 | `trim()`: the result starts and ends with a non-white-space character, or is empty (also public/main.js:91) |
| `Js.TrimSpec` | public/main.js:56 | `trim()` yields a string with no white space at either end, no longer than the input, and empty exactly when the input is all white space |
| `Js.TrimOfTrimmed` | public/main.js:56 | a string with nothing to trim is returned unchanged |
| `Js.TrimIdempotent` | public/main.js:56 | trimming twice equals trimming once |
| `Js.TrimStart` | public/main.js:56 | removes exactly the leading white space: the result is a suffix of the input that starts with a non-white-space character, and what was dropped is all white space |
| `Js.TrimEnd` | public/main.js:56 | removes exactly the trailing white space, symmetric to `TrimStart` |
| `Js.ToLower` | public/main.js:70 | the model of `toLowerCase()` lowers only the Latin capitals A-Z, character by character, keeping the length |
| `Js.ToLowerFixed` | public/main.js:69-70 | a string without Latin capitals, such as the Hangul label, is its own lower-case form |
| `BrowserClient.ValidateUsername` | public/main.js:55-73 | an accepted name is non-empty, has nothing left to trim, is at most 30 long, is not reserved in any case and is never the system label; the empty-name error occurs exactly for all-white-space input; an accepted name is the trimmed input |
| `BrowserClient.ValidateUsernameSpec` | public/main.js:56-73 | the dialog accepts exactly the inputs whose trimmed text meets every rule, and then yields that trimmed text; it refuses an input as too long exactly when the trimmed text is non-empty and over 30 characters |
| `BrowserClient.AcceptableNameIsStable` | public/main.js:56-73 | a name meeting every rule of the dialog (non-empty, nothing to trim, at most 30, not reserved) passes the dialog unchanged; with `ValidateUsername`'s contract, validating an accepted name again gives it back |
| `BrowserClient.IsReserved` | public/main.js:69-70 | `reserved.includes(name.toLowerCase())`: a name is reserved exactly when its lower-case form is `시스템`, `system` or `admin` |
| `BrowserClient.SystemLabelIsReserved` | public/main.js:69-70 | the label `시스템` is its own lower-case form and is reserved |
| `BrowserClient.ReservedNamesAreShort` | public/main.js:69-70 | every reserved name, in any case, is 3 to 6 characters long |
| `BrowserClient.NameLengthBoundary` | public/main.js:64-67 | a trimmed name of exactly 30 characters is accepted as it is; 31 or more is refused as too long |
| `BrowserClient.ReservedIgnoresCase` | public/main.js:69-73 | the reserved-name error occurs exactly when the lower-case trimmed name is `시스템`, `system` or `admin` |
| `BrowserClient.ReservedExamples` | public/main.js:69-73 | `SYSTEM`, `Admin` and `시스템` are reserved |
| `BrowserClient.NotReservedExample` | public/main.js:69-73 | `admins` is not reserved: the check is equality, not containment |
| `BrowserClient.LanguageChoice` | public/main.js:57 | the language sent is never empty, and is the selector's value whenever that is non-empty, and `ko` whenever it is empty |
| `BrowserClient.Client.constructor` | public/main.js:12 | a fresh page has no `username`, no items and has sent nothing |
| `BrowserClient.Client.SubmitUsername` | public/main.js:55-85 | on rejection nothing is sent and `username` is unchanged; its result is `ValidateUsername`'s (accepted exactly when the trimmed input meets every rule); on acceptance one `"new user and lang"` event with the trimmed name and chosen language is sent and `username` becomes that name; the stored name always meets the dialog's rules |
| `BrowserClient.ChatSubmission` | public/main.js:89-99 | blank text is ignored; otherwise nothing is sent without a current name; when sent, the message is `{user: username, msg: trimmed text}` with a non-empty trimmed text |
| `BrowserClient.Client.SubmitChat` | public/main.js:89-104 | sends exactly the `ChatSubmission` result when it succeeds and nothing otherwise; `username` and the items are untouched |
| `BrowserClient.IsCurrentUser` | public/main.js:27 | `data.user === currentUsername` holds exactly when `user` is the string stored as the page's name, or is `null` while the page has no name; `undefined` never matches |
| `BrowserClient.Render` | public/main.js:23-51 | "my-message" exactly when `user === username`, taking priority; "system-message" exactly for other messages from `시스템`; a tooltip exactly when `originalMsg` is truthy, holding it |
| `BrowserClient.OwnMessagePrefersOriginal` | public/main.js:27-46 | one's own message shows `originalMsg` when truthy (also as tooltip), else `msg` with no tooltip |
| `BrowserClient.RenderedTextOfOthers` | public/main.js:31-41 | whatever `originalMsg` holds, a message not from the current user shows `msg` when it comes from `시스템`, and `user: msg` otherwise |
| `BrowserClient.RenderShowsMessage` | public/main.js:27-41 | a string message without an original always ends with its text, and other people's messages read `user: msg` |
| `BrowserClient.Client.AppendMessage` | public/main.js:23-51 | appends exactly one rendered item and changes nothing else |
| `BrowserClient.Accepts` | public/main.js:121 | the live handler's guard rejects a `null`/`undefined` datum, and an accepted datum is an object whose `msg` is a string, rendered as that string |
| `BrowserClient.HistoryItems` | public/main.js:108-116 | renders the entries in order, one item each, up to but excluding the first `null`/`undefined` entry |
| `BrowserClient.HistoryOnePerEntry` | public/main.js:113-115 | a history of objects renders exactly one item per entry, in the same order |
| `BrowserClient.Client.OnChatHistory` | public/main.js:108-116 | the list is cleared first; a non-array leaves it empty; otherwise it holds `HistoryItems`; reports whether a nullish entry aborted the loop |
| `BrowserClient.Client.OnChatMessage` | public/main.js:119-123 | appends one rendered item exactly when the datum is an object whose `msg` is a string |
| `RelayServer.JoinNotice` | index.js:16-19 | the join notice comes from the system label and has no original text |
| `RelayServer.LeaveNotice` | index.js:29-32 | the leave notice comes from the system label and has no original text |
| `RelayServer.Step` | index.js:14-34 | each handler broadcasts at most one payload, and broadcasts nothing exactly on a disconnect with a falsy `username`; only `"new user"` changes `username` |
| `RelayServer.Run` | index.js:10-35 | a run of handlers never broadcasts more payloads than it had events |
| `RelayServer.RunNameIsLatestJoin` | index.js:11-15 | `username` is the name of the last `"new user"` event, or `null` when there was none |
| `RelayServer.RunConcat` | index.js:10-35 | handling two event sequences in turn equals handling their concatenation |
| `RelayServer.DisconnectWithoutJoinIsSilent` | index.js:26-28 | a connection that never sent `"new user"` broadcasts nothing when it disconnects |
| `RelayServer.DisconnectAfterJoin` | index.js:26-33 | after the last join with name `n`, disconnect broadcasts one leave notice with `n` if `n` is truthy and nothing otherwise |
| `RelayServer.ChatIsRelayedUnchanged` | index.js:22-24 | a chat payload is broadcast exactly as received, joined or not, and `username` is unchanged |
| `RelayServer.RejoinLastNameWins` | index.js:14-33 | two joins broadcast two join notices, and the leave notice uses the second name |
| `RelayServer.EmptyNameJoinsButNeverLeaves` | index.js:14-33 | joining with `""` is announced, but the later disconnect broadcasts nothing |
| `RelayServer.Hub.Emit` | index.js:16 | `io.emit` appends one payload to the broadcast log |
| `RelayServer.Connection.constructor` | index.js:10-11 | a new connection starts with `username = null` |
| `RelayServer.Connection.Handle` | index.js:14-34 | dispatching an event sets `username` and appends to the broadcast log exactly as `Step` says, keeping `username` equal to the handlers' run over all events so far |
| `RelayServer.Connection.OnNewUser` | index.js:14-20 | stores the name and broadcasts one join notice with it |
| `RelayServer.Connection.OnChatMessage` | index.js:22-24 | broadcasts the payload untouched; `username` is unchanged |
| `RelayServer.Connection.OnDisconnect` | index.js:26-34 | broadcasts one leave notice when `username` is truthy, nothing otherwise |
| `EndToEnd.NoticesRenderAsSystem` | public/main.js:31-33 | on every page that stored only accepted names, the server's join and leave notices render as system messages with the notice text and no tooltip |
| `EndToEnd.ChatEcho` | index.js:22-24 | for a message the page accepts for sending (by `ChatSubmission`, the object `{user: username, msg: trimmed text}`), the relay broadcasts it unchanged, the sender renders it as its own message with the trimmed text and any other page as `sender: text` |
| `Wire.ChatObject` | public/main.js:99 | the `{ user: username, msg: text }` object as the relay and the pages receive it: `user` and `msg` are the two strings, and it has no truthy `originalMsg` |
| `EndToEnd.RenderChatObject` | public/main.js:27-41 | a `{user, msg}` object from an accepted user renders on the sender's page as its own message and on every other page as `user: msg`, never as a system message |
| `EndToEnd.DeliverAsWritten` | public/main.js:76-79 | as written, none of the page's events reaches the server as a `"new user"` event, every event that arrives is a chat message, and a session of chat messages alone arrives complete and in order, each `ChatMessage(u, m)` as the object `{user: u, msg: m}`; with `JoinDeliversNothing`, a join delivers nothing |
| `EndToEnd.DeliverAsWrittenConcat` | public/main.js:76-99 | as written, what two batches of page events deliver is what the first delivers followed by what the second delivers, so chat messages arrive in the order sent |
| `EndToEnd.JoinDeliversNothing` | public/main.js:76-79 | as written, a `"new user and lang"` event anywhere among the page's events delivers nothing: the server receives exactly what it would without it (index.js:10-35 has no listener for it) |
| `EndToEnd.JoinObject` | public/main.js:76-79 | the join payload `{ name, lang }` is a truthy object, so the server's disconnect handler would announce it |
| `EndToEnd.EventNameFixAloneAnnouncesObject` | index.js:14-33 | were only the event name corrected, the server would store the whole `{ name, lang }` object and announce `[object Object]님이 입장하셨습니다.`, and the same object on leaving |
| `EndToEnd.JoinNeverReachesServer` | index.js:14-20 | as written, whatever the page sends, the connection's `username` stays `null` and its disconnect broadcasts nothing |
| `EndToEnd.AliceIsNeverAnnounced` | public/main.js:76-79 | a page that joins as `alice` and disconnects makes the server broadcast nothing |
| `EndToEnd.IntendedEvent` | public/main.js:76-79 | with the join routed to `"new user"` and its `name` field passed as the name, a join becomes a `"new user"` event and nothing else does |
| `EndToEnd.DeliverIntended` | public/main.js:76-79 | with the join routed to `"new user"` and its `name` field passed as the name, each page event becomes exactly one server event, in order |
| `EndToEnd.IntendedJoinIsAnnounced` | index.js:14-33 | with the join routed to `"new user"` and its `name` field passed as the name, the connection holds the last accepted name and its disconnect announces it, since accepted names are never empty |

## Left out

- `BrowserClient.ValidateUsername`: counts characters as Unicode code points, where JavaScript's `length` counts UTF-16 code units, so a name with characters outside the Basic Multilingual Plane (emoji) can be accepted by the model at a length JavaScript counts as over 30.
- `Js.ToLower`: lowers only the Latin capitals A-Z. Full Unicode lowercasing is not modelled: it can change the length (`İ`, U+0130, lowers to `i` followed by the combining dot U+0307) and depends on context (a final `Σ`). The reserved-name check is unaffected: every other character that `toLowerCase()` changes lowers to something outside ASCII (the combining dot stays), except the Kelvin sign U+212A, which lowers to `k`, a letter in no reserved word; so no name the model lets through can lower to `system` or `admin`, and the label `시스템` has no case at all.
- `BrowserClient.Client.SubmitChat`: does not model the input box, which the handler empties and focuses after sending.
- Numbers, booleans, objects and arrays are reduced to their truthiness and their string conversion; a primitive received as a message has no `user`, `msg` or `originalMsg` field and is modelled as an object whose three fields are `undefined`.
- DOM work is not modelled: element creation, `alert`, showing and hiding the dialog, scrolling, focus. The rendered item keeps the `<li>`'s class, text content and `title`.
- The socket.io and Express wiring (`io()`, `server.listen`, `express.static`) is replaced by the `Hub` log and by method calls; which clients receive a broadcast, and in what interleaving connections' handlers run, are not modelled.
- Connection-status logging in `public/main.js:127-135` and the `console.log` calls in `index.js` have no behaviour to model.
- The language sent with the join is carried in the model's event but used by nothing, as in the code.
- No event is handled after `"disconnect"` because socket.io delivers none; the model does not rule such events out.
- `clearChat.js` is not part of this model: it only connects to MongoDB and deletes documents.

## Findings

| source | as written | input that shows it | evidently intended | confidence | as-written member | corrected member |
|---|---|---|---|---|---|---|
| public/main.js:76 | the page announces its join on `"new user and lang"`, but the server listens only on `"new user"` (index.js:14) | join as `alice`, then close the page: the server never stores a name, broadcasts no join notice and no leave notice | the join reaches the server's join handler with the accepted name, which is then announced on join and on leave | medium (the two files may come from different versions of the protocol); not executed | `EndToEnd.JoinNeverReachesServer` | `EndToEnd.IntendedJoinIsAnnounced` |
| public/main.js:76-79 | the page sends the object `{ name, lang }`, but the server stores its argument itself as `username` and interpolates it into both notices (index.js:14-15, 18, 31) | join as `alice` with the event name corrected: the server announces `[object Object]님이 입장하셨습니다.` and, on leaving, `[object Object]님이 퇴장하셨습니다.` | the server stores the payload's `name` field, so the notices name `alice`; the corrected delivery (`EndToEnd.IntendedEvent`) fixes this mismatch together with the event name | medium (same reason); not executed | `EndToEnd.EventNameFixAloneAnnouncesObject` | `EndToEnd.IntendedJoinIsAnnounced` |
