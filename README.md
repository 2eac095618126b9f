# DDX connection bookkeeping, modelled in Dafny

DDX is a daemon and a management GUI that talk DDX-RPC, a JSON-RPC 2.0 dialect, over
newline-delimited TCP connections. This project models the sequential bookkeeping around those
connections and proves what the code and its doc comments promise about it:

- `RemDevCore` (remdev.dfy) is the connection core `RemDev`. It covers the correlation table of
  outgoing requests, the request deadlines (`RequestRef::valid`) and the three registration flags.
  It also covers the lifecycle (`close`, which this model makes idempotent with one disconnect
  notification), the send side (`sendRequest`, `sendResponse`, `sendError`, `sendNotification`), matching incoming
  responses, and `timeoutPoll`.
- `JsonRpc` (json_rpc.dfy) is the message envelope, following sections 4, 4.1, 5 and 5.1 of the
  JSON-RPC 2.0 specification. It includes the error verification that every failed `Response`
  must pass.
- `Sockets` (socket.dfy) is the slice of Qt's sockets the code relies on: a byte buffer,
  `canReadLine`, both `readLine` forms, host addresses and the error filter.
- `NetDevice` (netdev.dfy) is `NetDev`. It cuts the byte stream into lines once encrypted, makes
  the keep-alive decision, and maps socket events to connection events.
- `DeviceManager` (devmgr.dfy) is `DevMgr`. It keeps the device list, hands out provisional
  names, and uses the `closing` flag that mutes `removeDevice` during `closeAll`.
- `NetworkCore` (network.dfy) is the daemon's `Network` listener. It covers the bind choice,
  draining the pending connections, the in-place filters of `handleDisconnection`, the `exit`
  command in `handleData`, and the `network:` log prefix.
- `PathCore` (path.dfy) is `Path`: default module names and alert composition.
- `UnitTable` (unitmanager.dfy) is `UnitManager`'s table from class name to unit.
- `Decimal` (decimal.dfy) is `QString::number`, with its parse-back inverse. `Wrappers` holds
  `Option`.

Objects whose fields the code updates in place are classes, with `modifies` clauses. Loops in
the source are loops here, proved against specification functions (`Keep`, `Lines`, `Table`,
`Survivors`, `DeviceSaid`, ...), and the properties of those functions are proved as lemmas.
Signals the code emits are recorded in sequence fields: `outbox`, `delivered`, `disconnects`,
`logLines` and `logs`, `quits`, `alerts`, `closeCalls`. The clock is an integer parameter `now`.

Only the header of `RemDev` is part of this model; `remdev.cpp` is not. The bodies of the
`RemDev` methods are this model's own, written to meet what the header's doc comments state.
Examples are the `-1` of `sendRequest` on a closing connection, and `timeoutPoll` removing
expired requests and giving each live handler an error. The registration timeout closes the
connection and cannot be disabled. Where the header is silent, the bodies make choices of their
own; those are listed under "Left out" at `RemDevCore.RemDev.Close`.

Two behaviours of the code are worth noting:

- A socket error other than `RemoteHostClosedError` is only logged, in both `NetDev` and
  `Network`. It does not close the connection.
- A remote disconnect closes with `UnknownReason` only.

## Model

| member | source | states |
|---|---|---|
| JsonRpc.VerifyError | DDX-testgui/remdev.h:172-175 | An error payload verifies exactly when it is an object whose `code` passes `IsInt()` (32-bit) and whose `message` is a string; the verified parts are those members |
| JsonRpc.VerifyErrorObject | DDX-testgui/remdev.h:172-175 | An error object built from a 32-bit code, a message and optional data verifies, giving those parts back |
| JsonRpc.WideCodeRejected | DDX-testgui/remdev.h:172-175 | An error object whose code lies outside the 32-bit range never verifies |
| JsonRpc.RequestOf | DDX-testgui/remdev.h:140-148 | Exactly request and notification messages reach a handler as a `Request`, with their method name and params |
| JsonRpc.IsRequestIffIdPresent | DDX-testgui/remdev.h:121-127 | `isRequest` is true exactly for a request message and false for a notification. This follows the code at line 126, `(bool) id`, and the method's name; the doc comment at line 123 says the opposite ("True if notification") |
| JsonRpc.ResponseFrame | DDX-testgui/remdev.h:238-247 | `sendResponse(req, result)` writes a frame exactly when `req` is a request; the frame is a success response echoing the request's id, and its result is `true` when none is given |
| JsonRpc.RequestErrorFrame | DDX-testgui/remdev.h:257-268 | `sendError(req, ...)` writes a frame exactly when `req` is a request; the frame is exactly the error response that echoes its id and carries the error object built from `code`, `message` and `data` |
| JsonRpc.ErrorFrame | DDX-testgui/remdev.h:288-297 | `sendError(id, code, msg, data)` writes an error response carrying the error object; a missing id is sent as `null` |
| JsonRpc.ReplyEchoesId | DDX-testgui/remdev.h:238-247 | Answering a received request sends back the very id it carried, with result `true` when none is given |
| JsonRpc.NotificationGetsNoReply | DDX-testgui/remdev.h:238-268 | Answering a notification, with a result or with an error, writes nothing |
| JsonRpc.ErrorFrameVerifies | DDX-testgui/remdev.h:288-297 | The error object of an error frame with a 32-bit code passes the receiver's verification unchanged |
| JsonRpc.ResponseOf | DDX-testgui/remdev.h:167-192 | A result becomes a successful `Response` carrying it; an error becomes a failed `Response` carrying that error object exactly when it verifies; either way the `Response` carries the local request id and method name and is well formed |
| RemDevCore.SetFlagsBits | DDX-testgui/remdev.h:365-371 | Setting registration flags, in any order, turns on exactly the named flags and leaves every other bit alone |
| RemDevCore.RegisteredIffAllFlags | DDX-testgui/remdev.h:365-371 | From `UnregisteredState`, `RegisteredState` is reached exactly when all three flags have been set |
| RemDevCore.NotLiveIff | DDX-testgui/remdev.h:443-454 | A request is invalid exactly when its handler is gone, or when `checkTime` is non-zero, a deadline exists and the deadline is before `checkTime` |
| RemDevCore.NewRequestRef | DDX-testgui/remdev.h:433-440 | A new entry keeps its handler, method and issue time; a timeout of 0 gives no deadline, and any other puts the deadline exactly `timeout` after the issue time |
| RemDevCore.IsLive | DDX-testgui/remdev.h:443-454 | A valid request always has a live handler; with a `checkTime` of 0 or no deadline, validity is exactly the handler being alive |
| RemDevCore.NewRequestLifetime | DDX-testgui/remdev.h:433-454 | A timeout of 0 gives no deadline and never expires; otherwise the deadline is issue time plus timeout, and the request stays valid up to and including it; a dead handler is never valid |
| RemDevCore.SweepStep | DDX-testgui/remdev.h:335-340 | Visiting one id of the table removes it exactly when it is doomed, and notifies it exactly when its handler is also alive |
| RemDevCore.SweepDone | DDX-testgui/remdev.h:335-340 | Once every id has been visited, the table holds exactly the surviving entries and exactly the doomed live handlers were notified |
| RemDevCore.DeliversOnceEachExtend | DDX-testgui/remdev.h:335-340 | Notifying one more id adds exactly one timeout error, for that id's entry |
| RemDevCore.DeliversOnceEachAppend | DDX-testgui/remdev.h:335-345 | Two sweeps over disjoint id sets together notify each id of the union exactly once |
| RemDevCore.TimeoutResponseWellFormed | DDX-testgui/remdev.h:516-523 | A simulated timeout error for a 32-bit code is a failed `Response` for that id that carries a verified error |
| RemDevCore.PollNotifiesEveryLiveHandler | DDX-testgui/remdev.h:329-349 | Across the request sweep and the registration-timeout close, every entry with a live handler is notified, and no entry twice |
| RemDevCore.RemDev.constructor | DDX-testgui/remdev.h:469-493 | A new connection has an empty table, `lastId` 0, no flags, is neither registered nor closed, carries the given `cid`, and has its registration deadline at connect time plus the timeout |
| RemDevCore.RemDev.Log | DDX-testgui/remdev.h:402-409 | One line is appended, tagged with the connection's `cid` and marked as an alert exactly when `isAlert` is set |
| RemDevCore.RemDev.SendRequest | DDX-testgui/remdev.h:220-236 | On a closing connection returns -1 and changes nothing; otherwise returns the next id, which is larger than every outstanding id, records the request under it and writes one request frame carrying it |
| RemDevCore.RemDev.SendResponse | DDX-testgui/remdev.h:238-247 | Writes exactly the frame `ResponseFrame` gives, so nothing for a notification |
| RemDevCore.RemDev.SendResponseTo | DDX-testgui/remdev.h:249-255 | `sendResponse(id, result)` writes one success response to the remote id, with result `true` when none is given |
| RemDevCore.RemDev.SendError | DDX-testgui/remdev.h:257-268 | Writes exactly the frame `RequestErrorFrame` gives: for a request, the one error response carrying its id, `code`, `message` and `data`; for a notification, nothing |
| RemDevCore.RemDev.SendErrorTo | DDX-testgui/remdev.h:288-297 | Writes one error frame, with `null` for a missing id |
| RemDevCore.RemDev.SendNotification | DDX-testgui/remdev.h:299-306 | Writes one notification frame and leaves the correlation table alone |
| RemDevCore.RemDev.SetRegistrationFlag | DDX-testgui/remdev.h:365-385 | Sets one flag; `registered` holds exactly when the state is `RegisteredState` |
| RemDevCore.RemDev.HandleResponse | DDX-testgui/remdev.h:167-192 | A response whose id matches an entry removes it, and queues the result or the verified error to a live handler; a response that matches nothing changes neither table nor deliveries and appends exactly one log line, tagged with the connection's id |
| RemDevCore.RemDev.Consume | DDX-testgui/remdev.h:167-192 | A matched response removes exactly its entry and queues one `ResponseOf` result to a live handler, nothing to a dead one |
| RemDevCore.RemDev.Sweep | DDX-testgui/remdev.h:335-340 | The table becomes exactly its survivors, and each dropped entry with a live handler gets exactly one timeout error |
| RemDevCore.RemDev.SweepNext | DDX-testgui/remdev.h:335-340 | One step of the sweep keeps the sweep's invariant for the next id |
| RemDevCore.RemDev.Terminate | DDX-testgui/netdev.cpp:100-104 | The transport is disconnected, whatever the reason or side |
| RemDevCore.RemDev.Close | DDX-testgui/remdev.h:320-327 | The first call empties the table, gives each live handler one timeout error, terminates the transport and emits one disconnect notification; later calls change nothing. The header promises the closing; the rest is this model's choice, listed under Left out |
| RemDevCore.RemDev.TimeoutPoll | DDX-testgui/remdev.h:329-349 | Removes every request that is no longer valid at `now`, each live handler hearing once; a connection unregistered past its deadline is closed with `RegistrationTimeout`, which disconnects a transport that was still open; an already-closed connection keeps its one notification and its transport state; otherwise the transport is left alone |
| Sockets.LocalPeers | DDX-testgui/netdev.cpp:82-84 | A peer is local exactly when it is 127.0.0.1 or ::1 |
| Sockets.LineLength | DDX-testgui/netdev.cpp:113-116 | A line read stops right after the first newline, or takes the whole buffer when there is none |
| Sockets.LinesStep | DDX-testgui/netdev.cpp:113-116 | Reading one line from a buffer that holds one takes exactly its first line |
| Sockets.LinesConcat | DDX-testgui/netdev.cpp:113-119 | The lines of a buffer followed by its rest give the buffer back |
| Sockets.LinesComplete | DDX-testgui/netdev.cpp:113-119 | Every line taken from a buffer ends with its newline and holds no other |
| Sockets.RestHasNoLine | DDX-testgui/netdev.cpp:113-119 | What is left after the lines holds no newline |
| Sockets.LinesPartition | DDX-testgui/netdev.cpp:113-119 | Splitting a buffer into lines loses nothing: lines and rest rebuild it, every line is complete, and the rest has no newline |
| Sockets.Socket.ReadLine | DDX-testgui/netdev.cpp:114-116 | `readLine(data, maxSize)` reads up to the first newline but never more than `maxSize - 1` bytes, so never more than is available; a `maxSize` below 2 reads nothing and returns -1 |
| Sockets.Socket.ReadWholeLine | DDX-daemon/network.cpp:87 | `readLine()` takes up to and including the first newline; what it returns followed by what stays is the old buffer |
| Sockets.Socket.DisconnectFromHost | DDX-testgui/netdev.cpp:103 | The socket becomes unconnected |
| NetDevice.NetDev.constructor | DDX-testgui/netdev.cpp:23-27 | A new device has handed on no items, and its connection runs over its socket |
| NetDevice.NetDev.ConfigureSocket | DDX-testgui/netdev.cpp:81-87 | Low delay is always set; keep-alive is turned on exactly when the peer is not the loopback address of its own family |
| NetDevice.NetDev.HandleData | DDX-testgui/netdev.cpp:111-120 | Before encryption nothing is read; afterwards every complete line is handed on once, in arrival order, no complete line is left, and the items handed on followed by what stays rebuild the old buffer |
| NetDevice.NetDev.HandleDisconnection | DDX-testgui/netdev.cpp:122-126 | Logs `Remote disconnected` and closes with `UnknownReason` from the remote side; an open connection emits exactly that notification, its socket ends unconnected, and each live handler gets exactly one timeout error after the responses already delivered; an already-closed connection keeps its notification, deliveries and socket state |
| NetDevice.NetDev.HandleNetworkError | DDX-testgui/netdev.cpp:128-135 | `RemoteHostClosedError` logs nothing; any other error logs exactly one line naming it |
| DeviceManager.ProvisionalNameInjective | DDX-testgui/devmgr.cpp:52-53 | Different counter values give different `Unknown<n>` names |
| DeviceManager.RemoveFirst | DDX-testgui/devmgr.cpp:59 | `removeOne` leaves a list without `x` unchanged, and otherwise takes out exactly one copy of `x` |
| DeviceManager.FirstIndex | DDX-testgui/devmgr.cpp:59 | The first occurrence of `x`: it holds `x` and nothing before it does |
| DeviceManager.RemoveFirstSplices | DDX-testgui/devmgr.cpp:56-61 | `removeOne` removes exactly the first occurrence, and the entries before and after it keep their order |
| DeviceManager.DevMgr.constructor | DDX-testgui/devmgr.cpp:22-29 | A new registry has no devices, counter 0 and `closing` clear |
| DeviceManager.DevMgr.AddDevice | DDX-testgui/devmgr.cpp:47-54 | The device joins the end of the list; the counter goes up by one and the name returned is `Unknown` followed by it, so the first is `Unknown1` and no name is returned twice |
| DeviceManager.DevMgr.RemoveDevice | DDX-testgui/devmgr.cpp:56-61 | While closing the list is unchanged; otherwise the first occurrence of the device leaves it |
| DeviceManager.DevMgr.CloseNext | DDX-testgui/devmgr.cpp:39-41 | One turn of `closeAll` closes the `i`-th device once and leaves the list as it is |
| DeviceManager.DevMgr.CloseEach | DDX-testgui/devmgr.cpp:39-41 | The loop closes every listed device, in list order, leaving the list as it is: one still open notifies with `reason`, and none loses a delivery |
| DeviceManager.DevMgr.CloseAll | DDX-testgui/devmgr.cpp:36-45 | Each entry of the list at entry is closed once, in list order; one still open notifies with `reason`; its queued frames, log and deliveries so far are kept; the list ends empty and `closing` clear |
| NetworkCore.LogLineSpec | DDX-daemon/network.cpp:152-157 | Every log line starts with `network:`, and dropping that prefix gives the message back |
| NetworkCore.Trim | DDX-daemon/network.cpp:87 | `trimmed()` never lengthens a string, and leaves one that neither starts nor ends with whitespace unchanged |
| NetworkCore.TrimIdempotent | DDX-daemon/network.cpp:87 | Trimming an already trimmed line changes nothing |
| NetworkCore.TrimSpec | DDX-daemon/network.cpp:87 | `trimmed()` cuts only whitespace, from both ends, and keeps the rest in one piece, which is empty or starts and ends with a non-space |
| NetworkCore.ExitCommand | DDX-daemon/network.cpp:87-89 | `exit` padded with whitespace, such as `exit\r\n`, trims to the exit command |
| NetworkCore.KeepFirstExactly | DDX-daemon/network.cpp:118-136 | Filtering a prefix keeps exactly its entries not in `UnconnectedState`; without repetitions the others are gone and none is repeated |
| NetworkCore.KeepExactly | DDX-daemon/network.cpp:118-136 | The filter keeps exactly the entries not in `UnconnectedState`; without repetitions the unconnected ones are gone and none is repeated |
| NetworkCore.KeepFirstNames | DDX-daemon/network.cpp:119-128 | Filtering a prefix of entries and taking names equals filtering the names |
| NetworkCore.KeepNames | DDX-daemon/network.cpp:119-128 | Filtering the hash's entries and taking their names equals filtering the names |
| NetworkCore.KeepKeepsApart | DDX-daemon/network.cpp:118-136 | Filtering both collections keeps names unique, sockets unrepeated and pending connections out of the list |
| NetworkCore.FilterStep | DDX-daemon/network.cpp:121-135 | Removing an unconnected entry without advancing, or advancing past a connected one, keeps the filter's invariant |
| NetworkCore.FilterDone | DDX-daemon/network.cpp:121-135 | When the index reaches the end, the collection is exactly the filtered one |
| NetworkCore.ExitIndexSpec | DDX-daemon/network.cpp:85-94 | `ExitIndex` is the first socket whose next line trims to `exit`: none before it says so, and it does |
| NetworkCore.ExitStep | DDX-daemon/network.cpp:85-94 | The visit stops at the first socket that says exit, and only there |
| NetworkCore.VisitedAll | DDX-daemon/network.cpp:85-94 | A visit with no exit visits every socket |
| NetworkCore.ArrivalLogs | DDX-daemon/network.cpp:100-106 | An arrival always logs `Connection found`; it warns about the state exactly when not connected and about the peer exactly when it is not IPv4 loopback |
| NetworkCore.Network.constructor | DDX-daemon/network.cpp:21-34 | A new listener has no sockets, is not listening, and has logged and requested nothing. The server's queue of waiting connections is given here, whole, and no method adds to it |
| NetworkCore.Network.Log | DDX-daemon/network.cpp:152-157 | Each message is emitted with the `network:` prefix |
| NetworkCore.ListenAddress | DDX-daemon/network.cpp:55-57 | The server binds to any address exactly when external management is allowed, and otherwise to 127.0.0.1 |
| NetworkCore.Network.Init | DDX-daemon/network.cpp:46-66 | Listens on loopback, or on any address when external management is allowed; on failure logs the reason, requests a quit with `E_TCP_SERVER_FAILED` and goes no further |
| NetworkCore.Network.HandleData | DDX-daemon/network.cpp:76-95 | Logs `Can read data` per registered socket with a line, then reads, trims and logs one line per unregistered socket up to the first `exit`, which queues one quit; later sockets are untouched |
| NetworkCore.Network.ReportReady | DDX-daemon/network.cpp:79-84 | One `Can read data` line per registered socket holding a complete line, in order |
| NetworkCore.Network.ReportOne | DDX-daemon/network.cpp:81-83 | One turn of the first loop extends the log by that socket's line, if any |
| NetworkCore.Network.ReadUnregistered | DDX-daemon/network.cpp:85-94 | Exactly the sockets up to the first `exit` have one line read and logged; the rest keep their buffers; a quit is queued exactly when some line says `exit` |
| NetworkCore.Network.ReadingDone | DDX-daemon/network.cpp:85-94 | When the second loop stops, at the end or after an `exit`, its result is exactly the one `ReadUnregistered` promises |
| NetworkCore.Network.ReadNext | DDX-daemon/network.cpp:86-93 | One turn of the second loop keeps its invariant: the next socket is read, logged and, on `exit`, quits |
| NetworkCore.Network.ReadFrom | DDX-daemon/network.cpp:86-92 | A socket with a line loses exactly that line, logs it cut at its first NUL and trimmed, and queues a quit exactly when that text is `exit` |
| NetworkCore.UntilNulSpec | DDX-daemon/network.cpp:87 | Converting the line read to a `QString` keeps the longest prefix without a NUL byte |
| NetworkCore.UntilNulStops | DDX-daemon/network.cpp:87 | Whatever follows a NUL byte in a line is lost |
| NetworkCore.ExitBeforeNul | DDX-daemon/network.cpp:87-89 | `exit` padded with whitespace and followed by a NUL byte is the exit command whatever comes after, so `exit\0x\n` quits |
| NetworkCore.Network.HandleConnection | DDX-daemon/network.cpp:97-116 | Every pending connection joins the end of the unregistered list, in order, until none is left; no socket's state changes; the data rounds add only plain quit requests; the log ends with the children count |
| NetworkCore.Network.AcceptNext | DDX-daemon/network.cpp:99-114 | One turn of the drain loop admits one more connection, in order, and keeps the loop's invariant |
| NetworkCore.Network.LogArrival | DDX-daemon/network.cpp:100-106 | Logs exactly the arrival lines for the socket's state and peer |
| NetworkCore.Network.Admit | DDX-daemon/network.cpp:99-107 | The next pending connection leaves the queue, is logged, and joins the end of the unregistered list |
| NetworkCore.Network.Accept | DDX-daemon/network.cpp:99-113 | The next connection leaves the queue, joins the end of the unregistered list and is logged; when it already holds bytes, `handleData` then runs over all the unregistered sockets, reading and logging their lines up to the first `exit` as `ReadAll` states; otherwise no buffer, log line or quit request changes further; at most one quit is queued |
| NetworkCore.Network.HandleDisconnection | DDX-daemon/network.cpp:118-141 | Both collections keep exactly their sockets not in `UnconnectedState`, in order, and none that is unconnected remains; the count of connections left is logged |
| NetworkCore.Network.DropClosed | DDX-daemon/network.cpp:119-136 | Both filters run, keeping the collections' uniqueness conditions, and leave no unconnected socket |
| NetworkCore.Network.DropRegisteredStep | DDX-daemon/network.cpp:121-127 | Erasing an unconnected entry or stepping past a connected one keeps the filter's invariant |
| NetworkCore.Network.DropRegistered | DDX-daemon/network.cpp:119-128 | The hash keeps exactly its connected entries, in order, and no unconnected one |
| NetworkCore.Network.DropUnregisteredStep | DDX-daemon/network.cpp:130-135 | Removing an unconnected socket without advancing, or advancing past a connected one, keeps the filter's invariant |
| NetworkCore.Network.DropUnregistered | DDX-daemon/network.cpp:129-136 | The list keeps exactly its connected sockets, in order, and no unconnected one |
| NetworkCore.Network.HandleNetworkError | DDX-daemon/network.cpp:143-150 | `RemoteHostClosedError` logs nothing; any other error logs one line naming it |
| Decimal.NatToDecimalShape | DDX-daemon/path.cpp:80 | `QString::number(i)` is a non-empty digit string with no superfluous leading zero |
| Decimal.ParseNatToDecimal | DDX-daemon/path.cpp:80 | Reading the decimal rendering of `n` back gives `n` |
| Decimal.NatToDecimalInjective | DDX-testgui/devmgr.cpp:52 | Different numbers render differently |
| PathCore.Candidate | DDX-daemon/path.cpp:79-80 | The `i`-th default name begins with the kind, and what follows is digits that read back as `i` |
| PathCore.CandidateInjective | DDX-daemon/path.cpp:77-81 | Different numbers give different default names for the same kind |
| PathCore.ComposeAlert | DDX-daemon/path.cpp:85-91 | The composed alert is the path's name, then `:` and the module's name when a module is given, then `: ` and the message |
| PathCore.AlertLosesContext | DDX-daemon/path.cpp:85-92 | The bare message never equals the composed alert |
| PathCore.Path.constructor | DDX-daemon/path.cpp:24-32 | A new path is neither ready nor running, and has no modules and no alerts |
| PathCore.Path.GetDefaultModuleName | DDX-daemon/path.cpp:73-83 | Returns the kind followed by the smallest `i >= 1` whose name no module has; with no modules, the kind followed by `1` |
| PathCore.Path.AlertAsWritten | DDX-daemon/path.cpp:85-93 | As written, `alert` emits the bare message |
| PathCore.Path.Alert | DDX-daemon/path.cpp:85-93 | As intended, `alert` emits the composed text, which starts with the path's name |
| UnitTable.TableKeys | DDX-daemon/unitmanager.cpp:26-29 | A class name is a key of the table exactly when some registered unit has it |
| UnitTable.TableLatest | DDX-daemon/unitmanager.cpp:26-29 | Each key maps to the last registered unit with that class name |
| UnitTable.UnitManager.constructor | DDX-daemon/unitmanager.cpp:22-31 | The loop inserts every unit under its class name, in order, giving exactly the table `Table` describes |
| UnitTable.UnitManager.DoesModuleExist | DDX-daemon/unitmanager.cpp:38-40 | True exactly when some registered unit has that class name; it reads the table and changes nothing |

## Left out

- TLS: the handshake, the SSL configuration and `handleEncryptionErrors` are not modelled. Encryption is the boolean `Socket.encrypted`.
- The inbound-descriptor branch of `NetDev::sub_init` is not modelled: adopting the descriptor, queueing the pending connection and connecting to the listener's slots. In that branch the log call lacks its semicolon and the code connects to `Network::` slots. The empty outbound branch is not modelled either. Only the option-setting part, `ConfigureSocket`, is.
- JSON text and RapidJSON are not modelled: serialisation, parsing, documents and allocators. A message is an abstract `Message` value, and objects are maps, so duplicate keys cannot arise.
- Threads, mutexes, queued connections, `deleteLater` and `moveToThread` are not modelled. Everything runs sequentially. Handler liveness (`QPointer`) is a boolean in each `RequestRef`, and a queued quit is a `QueuedQuit` record.
- The clock and the settings store are parameters: `now`, `port`, `allowExternal`, and the listen outcome with its error string.
- The values in `constants.h` are not part of this model. `E_REQUEST_TIMEOUT` is a constructor parameter (`requestTimeoutCode`), and `E_TCP_SERVER_FAILED` is the symbolic `TcpServerFailed`.
- RemDevCore.RemDev.SendError: the code-only `sendError(req, code)` overload is not modelled. Its five message texts are listed in `remdev.h`, but the `E_*` code values it dispatches on are in `constants.h`, which is not part of this model. The header does not say what it sends for any other code.
- `remdev.cpp` is not part of this model. Registration messages, `handleItem`, `handleRegistration`, `handleDisconnect`, `sendDocument`, `logError`, `printReqs` and the role bitmask are therefore not modelled. The method bodies are this model's own, written to meet the header's promises.
- RemDevCore.RemDev.Close: the header promises only that `close` closes the connection and schedules the object's deletion. The following are this model's own choices about `remdev.cpp`: a second call changes nothing; exactly one disconnect notification is emitted; the correlation table is emptied; every live handler gets one "Request timed out" error. The same goes for the ids of `RemDevCore.RemDev.SendRequest` counting up from 1.
- RemDevCore.RemDev.SendRequest: `lastId` is an unbounded integer, so wrap-around after 2^31 requests is not modelled.
- DeviceManager.DevMgr.AddDevice: `unregCt` is an unbounded natural number, so wrap-around of the `int` counter after 2^31 devices is not modelled; "no name is returned twice" holds only without it.
- NetworkCore.Network.ReadFrom: bytes are taken as characters one for one. The UTF-8 decoding done by `QString(QByteArray)` is not modelled, so a line such as `exit` followed by an encoded U+00A0 (which `trimmed` would strip once decoded) does not quit in the model. The stop at the first NUL byte is modelled by `UntilNul`; that is Qt 5's behaviour, and the sources do not name the Qt version (Qt 6 keeps the bytes after a NUL).
- NetworkCore.Network.constructor: the server's pending queue is a parameter fixed at construction. `QTcpServer` filling it over time, as connections arrive after `init`, is not modelled.
- NetworkCore.TrimSpec: `QString::trimmed` also strips Unicode whitespace. The model strips ASCII whitespace only (space, tab, line feed, vertical tab, form feed, carriage return).
- NetworkCore.Network.HandleConnection: the number of the server's children is a parameter, because Qt's object tree is not modelled. The contract states that the log grows and ends with the children line, and not the lines in between. The per-arrival lines are stated by `Network.Admit`.
- NetworkCore.Network.HandleConnection: across several arrivals with data, the contract does not say which buffers lost which line. `Network.Accept` states this for each round. Composing the rounds would need a specification of repeated `handleData` runs over a growing list.
- RemDevCore.RemDev.HandleResponse: a response whose error object fails verification removes the entry and delivers nothing, so the requester's handler never hears back, not even through a later timeout. `remdev.cpp` decides what happens here and is not part of this model. The header promises only that every failed `Response` delivered carries a verified error.
- RemDevCore.RemDev.Log: the line goes to the device manager's log panel through a signal, which is not modelled. Where `cid` comes from is decided in `remdev.cpp`, so here it is a constructor parameter.
- NetworkCore.Network.HandleData: `return` after queueing the quit is modelled as ending the loop. Nothing runs after the loop, so the effect is the same.
- The `sockets` hash is a sequence of (name, socket) entries in iteration order. Qt's hash order itself is not modelled.
- `UnitManager::constructModule` is not modelled, because it builds a module through `QMetaObject::newInstance` reflection. `registerModules()` is the constructor's `registered` parameter, and the unit's type is an identifier.
- `unitmanager.h`, `path.h`, `network.h`, `netdev.h` and `devmgr.h` are not part of this model. Field types are inferred from their use.
- `Path` is only partly modelled:
  - The destructor, `init` (a commented-out block) and `start` (empty) are not modelled.
  - `findModule` is membership in `modules`. The source stub always fails, which corresponds to `modules` being empty.
  - `name` is never set by the path, so it stays empty.
- `DDX-daemon/data.h` and `DDX-testgui/mainwindow.h` are not modelled. They hold plain data declarations and the GUI.
- DeviceManager.DevMgr.AddDevice: connecting the device's log signal to the log panel is not modelled.
- The `Network` destructor and `shutdown` are not modelled. They close the server and delete sockets through Qt.

## Findings

| source | as written | input that shows it | evidently intended | confidence | as-written member | corrected member |
|---|---|---|---|---|---|---|
| DDX-daemon/path.cpp:85-93 | builds the composed text in `out`, then emits `msg` | any alert, such as path name `p`, no module and message `m`: `m` is emitted instead of `p: m` (`AlertLosesContext`: the two are never equal) | emit the composed text | not executed | PathCore.Path.AlertAsWritten | PathCore.Path.Alert |
