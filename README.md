# Peer-to-peer blackjack skeleton: rendezvous, address exchange, heartbeats

This project models the core of an early peer-to-peer blackjack skeleton in
Dafny and proves properties of that model. The core has five parts:

- **The rendezvous server** keeps a set of registered client addresses. A `"ready"`
  datagram is answered with the `str()` rendering of every client registered
  before it, joined with newlines, and the sender is then registered.
- **The peer** learns peer addresses from the server. It splits each server
  datagram on `"!"`. For each field it deletes `( ) space ' "`, splits at `,`,
  and appends `(piece0, int(piece1))`. After a fully parsed list it starts its
  send thread once. A `CREATE_DECK!c1!…!cn` datagram imports a deck into the
  peer's gameplay object instead.
- **The chat client** does the same address parsing. It has no gameplay and no
  `CREATE_DECK` case.
- **The gameplay object** holds the deck and interprets a typed command
  (`chat!text`, `draw`, anything else).
- **The heartbeat manager** is a failure detector. It keeps a last-seen time per
  address and scans the peer's address list. It reports the addresses whose
  entry is more than `timeout` old. Only after the scan does it disconnect them
  one by one. Each disconnection removes the address from the list and the
  table, and sends `PEER_DISCONNECTED!host!port` to everyone still listed.

Modules, one per file, following the program's structure:

| file | module | models |
|---|---|---|
| wrappers.dfy | `Wrappers` | `Option`, `Result` |
| seqs.dfy | `Seqs` | `list.remove`: the first occurrence only |
| pystr.dfy | `PyStr` | Python's `str.split`/`join` on one character, `strip`, `lower`, `int()`, `str(int)` |
| wire.dfy | `Wire` | addresses, datagrams, the receivers' field parsing, the server's `str((host, port))` rendering and reply |
| gameplay.dfy | `Game` | `Gameplay` (class) and `handle_input` |
| peer.dfy | `PeerNode` | `Peer` (class) and the pure model of one datagram |
| client.dfy | `ClientNode` | `Client` (class) and the pure model of one datagram |
| heartbeat.dfy | `Heartbeat` | `HeartbeatManager` (class) and the pure scan and disconnection functions |
| server.dfy | `Rendezvous` | `Server` (class) and the reply's properties |

How state is modelled:

- Objects whose fields the source updates are classes: `Peer`, `Client`,
  `Gameplay`, `HeartbeatManager`, `Server`.
- Each state-changing method is proved equal to a pure function of the old
  state (for example `Step(State(), raised) == HandleDatagramModel(old(State()), d)`).
  The server's reply is the exception: it is proved equal to such a function of
  some enumeration of the old client set, since Python's set order is not fixed.
  The properties the source promises are then lemmas about those functions.
- Python exceptions (`IndexError`, `ValueError`) are returned as a value
  (`raised`, or a `Result` failure). A handler that raises part-way keeps
  whatever it already appended, as the Python loop does.
- `transport.write(m, addr)` appends `Datagram(m, addr)` to a `sent` sequence
  owned by the writing object.
- Time (`time()`) is a `now: real` parameter.

The reply format and the parsing format disagree, and this is modelled as
written, not fixed. The server joins its entries with `"\n"`, while both
receivers split on `"!"`. The model proves what follows:

- With no earlier client the reply is empty, and the receiver treats it as
  "no connections yet".
- With exactly one earlier client the receiver learns it and starts its send
  thread (`PeerNode.LearnsSoleEarlierClient`).
- With two or more earlier clients whose hosts are non-empty and plain, the
  whole reply is a single field whose port piece is `"port1\nhost2"`. `int()`
  raises `ValueError` on it, and nothing is learnt (`Wire.CrowdedReplyRejected`,
  `PeerNode.CrowdedReplyTeachesNothing`, `ClientNode.CrowdedReplyTeachesNothing`).

## Model

| member | source | states |
|---|---|---|
| Seqs.RemoveFirstAbsent | Peer/heartbeat.py:60-61 | an address not in the list leaves the list unchanged |
| Seqs.RemoveFirstPresent | Peer/heartbeat.py:60-61 | removal drops exactly the first occurrence and keeps every other element in order |
| Seqs.RemoveFirstMultiset | Peer/heartbeat.py:60-61 | as a multiset, the list loses one copy of the address, or none if it was absent |
| Seqs.RemoveEachMultiset | Peer/heartbeat.py:53-54 | removing each element of a second list in turn takes away exactly that list's multiset |
| PyStr.Split | Peer/peer.py:31 | `split("!")` never yields zero parts; no part contains the separator; there are two or more parts exactly when the separator occurs; joining the parts gives the input back |
| PyStr.SplitJoin | Peer/peer.py:31 | splitting a join of separator-free parts gives back exactly those parts |
| PyStr.SplitCons | Peer/peer.py:31 | the first separator ends the first part |
| PyStr.JoinHead | RendezvousServer/server.py:13 | a join of two or more entries begins with the first entry, the separator and the second entry |
| PyStr.IntToString | RendezvousServer/server.py:13 | `str(port)` is nonempty, has no surrounding white space, and is digits with at most a leading minus |
| PyStr.ParseIntToString | Peer/peer.py:46 | `int(str(n)) == n` for every integer, with no limit on the number of digits (see "## Left out") |
| PyStr.ParseIntRejectsInnerSpace | Peer/peer.py:46 | `int()` raises when white space separates two other characters |
| Wire.Clean | Peer/peer.py:43 | the `replace` chain never lengthens a field and leaves none of `( ) space ' "` |
| Wire.CleanConcat | Peer/peer.py:43 | the `replace` chain distributes over concatenation |
| Wire.CleanKeeps | Peer/peer.py:43 | a field with none of the deleted characters is unchanged |
| Wire.ParseField | Peer/peer.py:43-46 | parsing one field raises IndexError exactly when the cleaned field has no comma; a parsed host contains no comma |
| Wire.TokenHasNoPort | Peer/peer.py:44-46 | a one-word field (no comma, no deleted character) raises IndexError |
| Wire.ParseAll | Peer/peer.py:41-46 | the loop appends at most one address per field, and it appends one for every field exactly when no field raised |
| Wire.ParseAllPointwise | Peer/peer.py:41-46 | the k-th appended address is the parse of the k-th field |
| Wire.ParseAllStopsAtFailure | Peer/peer.py:41-46 | a raising loop stopped at the first failing field, with that field's exception |
| Wire.ParseAllAppended | Client/client.py:30-35 | after the existing list the appended addresses follow the fields one to one; the run is complete exactly when nothing raised; otherwise it ends at the failing field |
| Wire.AppendParsed | Peer/peer.py:41-46 | the append loop yields the old list followed by the fields' parses up to the first failure, and raises that failure's exception |
| Wire.IntToStringClean | RendezvousServer/server.py:13 | a rendered port survives the receivers' cleaning and holds no `,`, `!` or newline |
| Wire.CleanRender | Peer/peer.py:43 | cleaning `str((host, port))` gives `host,port` for a plain host |
| Wire.ParseRender | Peer/peer.py:43-46 | round trip: a field rendered like `str((host, port))` parses back to `(host, port)` for a plain host |
| Wire.RenderAvoids | RendezvousServer/server.py:13 | one rendered entry holds no `!` and no newline |
| Wire.RenderAllDecodes | RendezvousServer/server.py:13 | for clients with plain hosts the comprehension yields one entry per client; no entry holds `!` or a newline, and the i-th entry parses back to the i-th client |
| Wire.ReplyLines | RendezvousServer/server.py:13 | the reply is empty exactly when no client is listed; otherwise splitting it at newlines gives the rendered entries, each of which parses back to its client |
| Wire.ReplyStart | RendezvousServer/server.py:13 | a nonempty reply starts with `(` |
| Wire.ReplyIsOneField | Peer/peer.py:31 | the reply holds no `!`, so a receiver sees it as one field |
| Wire.SingleClientReply | Peer/peer.py:31-46 | a reply listing one client is one field that parses to exactly that client |
| Wire.ReplyHead | RendezvousServer/server.py:13 | a reply listing two or more clients starts with the first entry, a newline and the second entry |
| Wire.CleanAroundNewline | Peer/peer.py:43 | cleaning leaves the newline between two entries in place |
| Wire.CleanTwoEntries | Peer/peer.py:43 | the cleaned two-entry reply is `host1,port1\nhost2,port2…` |
| Wire.CrowdedSecondPiece | Peer/peer.py:44 | with two or more clients the port piece is `port1\nhost2` |
| Wire.CrowdedReplyRejected | Peer/peer.py:46 | with two or more clients whose hosts are non-empty and plain, the reply is one field, `int()` raises ValueError on it, and nothing is appended |
| Game.Gameplay.constructor | Peer/gameplay.py:4-6 | a fresh gameplay object has no deck |
| Game.Gameplay.CreateDeck | Peer/gameplay.py:8-14 | with no argument the deck is unchanged; with a deck the field becomes exactly that deck |
| Game.HandleInput | Peer/gameplay.py:16-29 | a result holds no `!`; a nonempty result comes only from a first field that lowercases to `chat`; the only error is IndexError on a one-field input |
| Game.ChatReturnsText | Peer/gameplay.py:18-21 | `chat` in any case returns the second field verbatim and drops later fields |
| Game.ChatNeedsText | Peer/gameplay.py:20-21 | `chat` with no second field raises IndexError |
| Game.OtherCommandsReturnEmpty | Peer/gameplay.py:22-27 | every other first field, `draw` in any case included, returns `""` |
| Game.CaseInsensitiveCommand | Peer/gameplay.py:20-22 | inputs that differ only in the case of the first field give the same result |
| PeerNode.HandleDatagramModel | Peer/peer.py:30-50 | handling is append-only on the addresses, at most one per field; the send-thread flag never reverts; a datagram changes the deck or the addresses, not both; an exception leaves the flag and the deck alone |
| PeerNode.ReceiveModel | Peer/peer.py:52-61 | a datagram from a non-server sender, or an empty one from the server, changes nothing |
| PeerNode.CreateDeckImports | Peer/peer.py:32-36 | `CREATE_DECK!c1!…!cn` sets the deck to exactly `[c1, …, cn]` and leaves the addresses and flag unchanged |
| PeerNode.AddressDatagramAppends | Peer/peer.py:40-50 | any other datagram keeps the deck and appends one address per field in order after the existing ones, up to the first failing field; the flag is set exactly when nothing raised |
| PeerNode.LearnsSoleEarlierClient | Peer/peer.py:40-50 | the server's reply for one earlier client appends that client and sets the flag |
| PeerNode.CrowdedReplyTeachesNothing | Peer/peer.py:44-46 | the server's reply for two or more earlier clients with non-empty plain hosts raises ValueError and changes nothing |
| PeerNode.Peer.constructor | Peer/peer.py:8-16 | id is (normalised host, port), no addresses, flag false, server (127.0.0.1, 9999), a fresh gameplay object with no deck |
| PeerNode.Peer.CollectDeck | Peer/peer.py:33-35 | the deck loop collects exactly the fields after the command, in order |
| PeerNode.Peer.HandleDatagram | Peer/peer.py:30-50 | the in-place handling leaves the state and exception that HandleDatagramModel gives |
| PeerNode.Peer.DatagramReceived | Peer/peer.py:52-61 | the in-place dispatch leaves the state and exception that ReceiveModel gives |
| ClientNode.ReceiveModel | Client/client.py:21-41 | a non-server or empty datagram changes nothing; handling is append-only, at most one address per field; the flag never reverts, and stays as it was when an exception is raised |
| ClientNode.ServerDatagramAppends | Client/client.py:29-39 | a nonempty server datagram appends one address per field in order, up to the first failing field; the flag is set exactly when nothing raised |
| ClientNode.WordDatagramNotUnderstood | Client/client.py:29-35 | a datagram whose first field is a single word raises IndexError and changes nothing |
| ClientNode.CreateDeckNotUnderstood | Client/client.py:23-35 | with no CREATE_DECK case, a deck datagram is read as addresses, raises IndexError and changes nothing |
| ClientNode.LearnsSoleEarlierClient | Client/client.py:29-39 | the reply for one earlier client appends that client and sets the flag |
| ClientNode.CrowdedReplyTeachesNothing | Client/client.py:32-35 | the reply for two or more earlier clients with non-empty plain hosts raises ValueError and changes nothing |
| ClientNode.Client.constructor | Client/client.py:7-14 | id is (normalised host, port), no addresses, flag false |
| ClientNode.Client.DatagramReceived | Client/client.py:21-41 | the in-place handling leaves the state and exception that ReceiveModel gives |
| Heartbeat.Broadcast | Peer/heartbeat.py:67-69 | one datagram per destination, in destination order, each carrying the message |
| Heartbeat.SendToAll | Peer/heartbeat.py:38-39 | the write loop emits exactly the broadcast of the message to the list |
| Heartbeat.NoticeSplit | Peer/heartbeat.py:67 | the disconnection notice splits at `!` into command, host and port text |
| Heartbeat.DisconnectNoticeFields | Peer/heartbeat.py:67 | the notice splits into three fields, from which the command, the host and (via `int()`) the port are recovered |
| Heartbeat.DisconnectList | Peer/heartbeat.py:60-61 | disconnecting removes the first occurrence of the address, none if absent, and no other list entry |
| Heartbeat.DisconnectTableAndSent | Peer/heartbeat.py:62-69 | disconnecting drops only the address's entry, and notifies each remaining address once, in list order, after what was sent before |
| Heartbeat.DisconnectAllList | Peer/heartbeat.py:53-54 | the disconnections remove the reported addresses from the list one at a time, in the order reported |
| Heartbeat.DisconnectAllAddresses | Peer/heartbeat.py:53-54 | after the disconnections the list, as a multiset, has lost one copy of each reported address |
| Heartbeat.DisconnectAllTable | Peer/heartbeat.py:53-54 | no reported address keeps an entry, and every other entry keeps its time |
| Heartbeat.DisconnectAllSent | Peer/heartbeat.py:53-54 | datagrams already sent are kept as a prefix |
| Heartbeat.ScanTable | Peer/heartbeat.py:47-51 | after the scan every listed address has an entry; old entries keep their time; new ones carry now; every reported address is listed and its entry is more than timeout old |
| Heartbeat.Expired | Peer/heartbeat.py:50-51 | an address is expired exactly when it is listed, has an entry, and now minus that entry exceeds the timeout (strictly) |
| Heartbeat.ScanReportsExpiredFrom | Peer/heartbeat.py:47-51 | for a non-negative timeout, entries stamped with now during the scan do not change what it reports |
| Heartbeat.ScanReportsExpired | Peer/heartbeat.py:47-51 | for a non-negative timeout, the scan reports exactly the in-order filter of the list to addresses whose entry, before the scan, was more than timeout old; an address first stamped in this run is not reported |
| Heartbeat.HeartbeatManager.constructor | Peer/heartbeat.py:8-22 | the manager starts with an empty table, interval 1.0 and timeout 2.0 by default |
| Heartbeat.HeartbeatManager.SendHeartbeats | Peer/heartbeat.py:36-39 | `HEARTBEAT!` goes once to every listed address in order; the list and table are unchanged |
| Heartbeat.HeartbeatManager.RecordHeartbeat | Peer/heartbeat.py:71-73 | the address's entry becomes now; every other entry, the list and the outbox are unchanged |
| Heartbeat.HeartbeatManager.NotifyDisconnectionToPeers | Peer/heartbeat.py:58-69 | the in-place update leaves exactly the state Disconnect gives |
| Heartbeat.HeartbeatManager.CheckConnections | Peer/heartbeat.py:42-54 | the whole list is scanned before any removal; the final state is the scan's table followed by the disconnection of the reported addresses, in the order reported |
| Rendezvous.EnumeratesSize | RendezvousServer/server.py:13 | iterating the set visits as many entries as the set has members |
| Rendezvous.IterationOrder | RendezvousServer/server.py:13 | the comprehension visits each registered client exactly once, in some order |
| Rendezvous.EmptyReply | RendezvousServer/server.py:13 | with no clients the reply is `""`, which decodes to no address |
| Rendezvous.ReplyDecodes | RendezvousServer/server.py:13 | a nonempty listing has one line per entry, and its lines decode to exactly the listed addresses |
| Rendezvous.ReplyListsClients | RendezvousServer/server.py:13-15 | whatever the iteration order, the reply is empty exactly when nobody was registered; it has one line per prior client; an address decodes from a line exactly when it was registered before this message |
| Rendezvous.ReplyExcludesNewcomer | RendezvousServer/server.py:13-15 | a sender is absent from its own reply exactly when it was not registered before; a repeated sender appears in it |
| Rendezvous.Server.constructor | RendezvousServer/server.py:7-8 | the server starts with no clients and has sent nothing |
| Rendezvous.Server.DatagramReceived | RendezvousServer/server.py:10-15 | anything but `ready` changes nothing and sends nothing; `ready` sends the sender one reply enumerating the prior clients, then adds the sender; the set only grows, and a repeated `ready` leaves it unchanged |

## Left out

- UTF-8 encoding and decoding: datagrams are strings.
- The Twisted reactor: `callLater` rescheduling, `start`/`stop` and threads are not modelled. This includes `callInThread(send_message)`, the blocking `input()` loops, and `startProtocol`'s `"ready"` write.
- Peer.send_message and Client.send_message: these interactive loops read typed input and are not modelled. Only the flag recording that the thread was started is kept.
- Logging and the prints: `log_message` and `print` are no-ops. So `Gameplay()` is built without the logger the Python constructor requires. In Python that call raises TypeError; here a peer owns a working gameplay object.
- Game.HandleInput: the Python method is an instance method; it reads no field, so it is a module-level function.
- The clock: `time()` becomes the `now` parameter of CheckConnections and RecordHeartbeat; wall-clock floats are exact reals.
- Heartbeat.ScanReportsExpired and Heartbeat.ScanReportsExpiredFrom: both require a non-negative timeout. With a negative timeout, an address listed twice and first stamped in this run would be reported on its second occurrence.
- Heartbeat.HeartbeatManager.CheckConnections: the first loop builds the `disconnected` list as the source builds `disconnected_peers`, but it stamps a local copy of the table, which is written back once after that loop. Within one call this is the same, unless another thread reads the table meanwhile, and threads are not modelled.
- Heartbeat.HeartbeatManager.NotifyDisconnectionToPeers: `Peer.__init__` never sets `logger`, so in Python the `self.peer.logger.log_message` call at Peer/heartbeat.py:65 raises AttributeError. That happens after the removal and the `del`, and before any notice is written. In `check_connections` that exception ends the second loop after the first reported address and skips the rescheduling at Peer/heartbeat.py:56. The model treats logging as a no-op: every reported address is disconnected and everyone still listed is notified.
- Wire.CrowdedReplyRejected: this lemma and both CrowdedReplyTeachesNothing lemmas require every client's host to be non-empty (and plain). With an empty second host the port piece is `port1\n` after cleaning, `int()` accepts it because it strips white space, and the first client is learnt. A host that Twisted reports for a received datagram is never empty, so the server never registers such a client.
- PeerNode.Peer.HandleDatagram: addresses appended by the parsing loop are stored once when the loop ends, not one by one. The resulting state is the same, however the loop ends. It differs only for a concurrent reader such as the send thread, which is not modelled.
- ClientNode.Client.DatagramReceived: same as above.
- `int()` with non-ASCII digits or white space, and `lower()` beyond ASCII, are not modelled.
- PyStr.ParseInt: CPython's limit on decimal conversions (4300 digits by default, since 3.11 and 3.10.7) is not modelled. There `int()` of a longer string raises ValueError and `str()` of a larger integer raises too; here both accept any length. So a server reply carrying a port of 4301 or more digits is learnt by the model but rejected by Python. Real ports have at most five digits. PyStr.IntToString and PyStr.ParseIntToString share this gap.
- Wire.ParseRender: Python's `repr` of a host is modelled only for plain hosts (printable ASCII without quote, backslash, deleted characters, comma or `!`). The lemmas about rendering require that.
- Peer/UI.py, Peer/logger.py and tasks.py: user interface, file I/O and build scripts. They are outside the modelled core.
