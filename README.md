# GoChat server core in Dafny

This project models the session engine of GoChat, a line-based chat server
written in Go (`src/server/user.go`, `src/server/server.go`). Clients connect
over TCP. Each connection is registered under a display name. Clients then
send one of four kinds of line: `who`, `rename|<name>`, `to|<name>|<text>`,
or free text that is broadcast to everyone.

The model is a sequential state machine. Each method is one atomic step of
the Go program.

- `protocol.dfy`, module `Protocol`, holds the pure part:
  - `Split` and `Join` on `|`, with the semantics of Go's `strings.Split` and `strings.Join` for a one-byte separator;
  - `Parse`, which classifies a line in the same order and with the same length tests as `User.HandleMessage`, lengths being UTF-8 byte counts (`ByteLen`), as Go's `len` gives them;
  - the exact text of every line the server writes;
  - lemmas that characterise `Parse` independently of `Split`, and the round trip from the client's line builders.
- `chat.dfy`, module `Chat`, holds the state:
  - `Server` has the registry `onlineMap: map<string, User>` and `message`, the lines sent on the broadcast channel and not yet relayed;
  - `User` has `name`, the constant `addr`, the mailbox `ch` (the Go channel `Ch`), `conn` (every string written to the connection, in order), `open` (false once the server closed the connection) and `reading` (false once the session's reader goroutine has returned after a zero-byte read).
- `Server.Valid()` is the registry invariant. Every key `k` maps to an open session whose `name` is `k`. All mutating methods preserve it. It makes the registry injective, which is why one relay pass delivers a line to each registered mailbox exactly once.
- Module `Scenarios` (in `chat.dfy`) composes the steps on two sessions with arbitrary distinct addresses, using only the step contracts:
  - joins and their announcements;
  - a rename to a free name;
  - `who`;
  - a delivered private message and one to an unknown name;
  - a sequence showing that `Offline` deletes by name. An evicted session's later zero-byte read removes another session that has taken the evicted session's name in the meantime.

Strings are `seq<char>`, one element per code point. In ASCII text one
element is one byte of the Go string. `ByteLen` gives the length of a
string's UTF-8 encoding, and `Parse` uses it for the source's `len` tests. So
`to|张`, which is four code points but six bytes, is a private message to `张`,
as in Go. For a line that starts with `rename|` the byte test and the
code-point test agree (`ByteLenAfterPrefix`). The reply texts,
including the Chinese ones, are literal constants written as code points.
Each constant stands for its UTF-8 byte sequence: `"已上线"` has three
elements here and nine bytes in Go. Lengths of these constants are therefore
not byte counts. Equalities between them and client text, as in
`PublicLineMimicsWhoEntry`, read as equalities of byte sequences.

The Go panic in `strings.Split(msg, "|")[2]` is modelled as an outcome.
`HandleMessage` and `Server.Receive` return `crashed == true` on a `to|`
line whose target is registered but which has no third segment. The step
itself writes nothing and changes nothing; in the Go program the panic ends
the server (see "Left out").

The model follows the code, including these behaviours a reader might not expect:
- broadcast lines have no space after the colon (`[addr]name:text`);
- `rename|` on its own is public chat;
- `rename||x` renames to the empty string;
- renaming to one's own current name is reported as "name in use";
- a `to|` line with a registered target and no text segment panics rather than reporting a format error;
- idle eviction does not announce the departure; the announcement comes from `Offline` when the closed connection then reads zero bytes;
- the join announcement goes to every registered session, the new one included.

## Model

| member | source | states |
|---|---|---|
| `Protocol.IndexOf` | src/server/user.go:70 | the result is the position of the first occurrence of the separator |
| `Protocol.Split` | src/server/user.go:70 | at least one piece; at least two exactly when the separator occurs; no piece contains the separator |
| `Protocol.SplitCons` | src/server/user.go:86 | a separator-free word followed by the separator is split off as the first piece |
| `Protocol.SplitHead` | src/server/user.go:70 | piece [0] is exactly the first segment: a prefix that runs to the first separator or to the end |
| `Protocol.JoinSplit` | src/server/user.go:70 | joining the pieces with the separator gives the line back |
| `Protocol.SplitJoin` | src/server/user.go:86 | splitting a join of separator-free pieces gives the pieces back |
| `Protocol.FirstIndex` | src/server/user.go:86 | in `w + sep + rest` with `w` separator-free, the first separator is at `|w|` |
| `Protocol.Parse` | src/server/user.go:60-106 | a line classified as public chat carries the whole line as its text |
| `Protocol.ByteLen` | src/server/user.go:84 | Go's `len` of the UTF-8 encoding: between one and four bytes per code point |
| `Protocol.ByteLenConcat` | src/server/user.go:84 | the byte length of a concatenation is the sum of the byte lengths |
| `Protocol.ByteLenAfterPrefix` | src/server/user.go:68 | after an ASCII prefix `p`, a line is longer than `|p|` bytes exactly when it has more than `|p|` code points |
| `Protocol.ParseRenameIff` | src/server/user.go:68-70 | a line is a rename to `n` iff it has more than 7 code points (equivalently bytes), starts with `rename|`, and `n` is the first segment after that prefix |
| `Protocol.ParseToIff` | src/server/user.go:84-97 | a line is `To(t, c)` iff it is longer than 4 bytes and starts with `to|`; `t` is the next segment; `c` is absent iff the line ends after `t`, and otherwise is the segment after that |
| `Protocol.ParseShortLines` | src/server/user.go:61-105 | `who` is the listing; `who `, the empty line, `rename|` and `to|a` fall through to public chat |
| `Protocol.ParseRenameEmpty` | src/server/user.go:68-70 | `rename\|\|x` renames to the empty string |
| `Protocol.ParseToWithoutContent` | src/server/user.go:84-97 | `to\|ab` names target `ab` and has no content segment |
| `Protocol.ParseToEmptyTarget` | src/server/user.go:84-90 | `to\|\|hi` has an empty target segment |
| `Protocol.ContentIsThirdSegment` | src/server/user.go:97-102 | in `to\|t\|c\|rest` the content is `c` alone; later segments are dropped |
| `Protocol.ParseToWideTarget` | src/server/user.go:84-97 | `to\|张` (six bytes) is a private message to `张` with no content |
| `Protocol.StripLast` | src/server/server.go:74 | the dispatched line plus the chunk's last byte is the chunk |
| `Protocol.ClientRenameLine` | src/client/client.go:62 | the client's `rename\|n\n` arrives as a rename to `n` when `n` is non-empty and `\|`-free, and as public chat `rename\|` when `n` is empty |
| `Protocol.ClientPrivateLine` | src/client/client.go:114 | the client's `to\|r\|m\n\n` arrives as `To(r, m + "\n")` |
| `Protocol.BroadcastLine` | src/server/server.go:50 | the broadcast format `[addr]name:msg`, no space after the colon |
| `Protocol.BroadcastLineFields` | src/server/server.go:50 | the address sits between the brackets, the name runs from there to the colon, the text is the rest |
| `Protocol.BroadcastLineAddress` | src/server/server.go:50 | a broadcast line determines its address, and the remainder `name:msg`, when the address has no `]`; this covers default names `host:port` |
| `Protocol.BroadcastLineInjective` | src/server/server.go:50 | a broadcast line determines address, name and text when the address has no `]` and the name has no `:`; a session still named `host:port` is not covered |
| `Protocol.WhoLine` | src/server/user.go:64 | one `who` entry: `[addr]name:在线...` and a newline |
| `Protocol.PrivateLine` | src/server/user.go:102 | what the target of a private message receives: `sender: content` and a newline |
| `Protocol.PrivateLineFields` | src/server/user.go:102 | the sender is the prefix up to `: `, the content follows it, and the line ends with a newline |
| `Protocol.RenamedReply` | src/server/user.go:82 | the reply to a successful rename: the fixed prefix, the new name, a newline |
| `Protocol.RenamedReplyFields` | src/server/user.go:82 | the new name sits between the fixed prefix and the final newline |
| `Chat.WithNewlines` | src/server/user.go:112-113 | one output line per queued message, each the message followed by `\n` |
| `Chat.PublicLineMimicsWhoEntry` | src/server/user.go:64 | a public chat line `在线...` from a session reaches every connection as exactly that session's `who` entry, so a reader cannot tell chat from the listing |
| `Chat.OnlineLines` | src/server/user.go:63-66 | one `who` entry per visited key, naming that key and its session's address |
| `Chat.ListedEntry` | src/server/user.go:63-66 | every registry entry has its line in a `who` reply, whatever the visiting order |
| `Chat.OnlineLinesSnoc` | src/server/user.go:63-66 | visiting one more key appends exactly its entry |
| `Chat.RegisteredUnderOwnName` | src/server/user.go:38 | under the registry invariant a registered session sits under its current name and under no other key |
| `Chat.User.constructor` | src/server/user.go:18-33 | name and address both start as the remote address; empty mailbox and output; connection open; reader running |
| `Chat.User.SendMsg` | src/server/user.go:56-58 | the message is appended to the connection's output if the server has not closed it, and lost otherwise |
| `Chat.User.ListenMessage` | src/server/user.go:110-115 | the mailbox is emptied and its messages are written in order, each followed by `\n` |
| `Chat.User.Online` | src/server/user.go:35-43 | the registry maps the current name to the user and nothing else changes; exactly one line `[addr]name:已上线` is sent to the relay; the invariant is kept |
| `Chat.User.Offline` | src/server/user.go:45-53 | the key equal to the current name is removed (nothing if absent) and nothing else changes; exactly one line `[addr]name:已下线` is sent; the invariant is kept |
| `Chat.User.SendOnlineList` | src/server/user.go:61-67 | the caller receives one `who` entry per registry key, each key exactly once, in an order left open |
| `Chat.User.HandleMessage` | src/server/user.go:60-107 | per command, via `Dispatched` and its four parts `Listed`, `Renamed`, `Messaged` and `Published`: the replies to the caller, the private line to the target, the registry and name after a rename or a refused rename, the broadcast line, exactly when the panic happens; no other session gets output; the invariant is kept |
| `Chat.Server.Valid` | src/server/user.go:38 | the registry invariant: every key maps to an open session whose name is that key; `Online` and a rename (src/server/user.go:76-78) keep it, and `RegisteredUnderOwnName` derives that each session sits under one key only |
| `Chat.Server.constructor` | src/server/server.go:24-31 | stores ip and port; empty registry; empty broadcast channel |
| `Chat.Server.BroadCast` | src/server/server.go:49-52 | exactly one line `"[" + addr + "]" + name + ":" + msg` is sent, with the sender's current name |
| `Chat.Server.RelayOne` | src/server/server.go:37-44 | the oldest channel line is appended once to the mailbox of every registered session; the frame allows no other mailbox and not the registry to change |
| `Chat.Server.ListenMessager` | src/server/server.go:35-46 | every pending line is relayed in arrival order: each registered mailbox gains exactly the pending lines, oldest first |
| `Chat.Server.Accept` | src/server/server.go:55-57 | a fresh session named by its address is registered and its join line is sent |
| `Chat.Server.Receive` | src/server/server.go:63-79 | only a session whose reader is still running is handled; a zero-byte read takes the user offline, dispatches nothing (no registered session's output changes) and ends the reader, so that session is never handled again; otherwise the chunk minus its last byte is dispatched with `HandleMessage`'s effect |
| `Chat.Server.Evict` | src/server/server.go:90-98 | the kick notice is written; the key equal to the user's name is deleted and nothing else is; the connection is closed; nothing is broadcast; the user is no longer registered |

## Left out

- Goroutines, unbuffered channel hand-off, and `sync.RWMutex`. Each step is atomic. Two reads of the registry happen without the lock (`src/server/user.go:72`, `:92`) and the eviction deletes without it (`src/server/server.go:96`). These races are not modelled. The blocking send on the unbuffered `Message` channel is modelled as a FIFO queue.
- The `time.Timer`, the `isLive` channel and the one-minute reset rule (`src/server/server.go:59-99`). Only the eviction's effect on the registry and the user's output is modelled (`Server.Evict`). A send on `isLive` after it has been closed would panic; that race is not modelled.
- Closing `user.Ch`. A later receive on the closed channel yields empty strings, and the mailbox drain then writes to the closed connection. Those writes are lost, and `SendMsg` already drops writes to a closed connection, so nothing observable is missing.
- `Start`: `net.Listen`, the accept loop and logging (`src/server/server.go:105-129`). Also how `conn.Read` cuts the byte stream into chunks. `Receive` takes one chunk as given. A read that returns data with an error is dispatched like any other, and the error's log line is left out.
- The panic in `HandleMessage` (`src/server/user.go:97`) happens in the reader goroutine, and nothing recovers it. It ends the whole server process and every connection closes. The model only flags the step with `crashed == true`. It does not forbid later steps, and it does not close the other connections.
- The order in which Go iterates a map, for `who` and for the relay. `who`'s order is an unconstrained enumeration of the keys. The relay's contract is per mailbox, which does not depend on order.
- The client program `src/client/client.go`: its menu, flag parsing, dialing and output copying. Its two line builders appear only as inputs in `ClientRenameLine` and `ClientPrivateLine`.
- Socket bytes and encodings. Reply texts are literal constants appended to `conn`.
- Protocol.StripLast: drops the chunk's last code point, where `src/server/server.go:74` drops its last byte. The two agree when the chunk ends in an ASCII byte, as every line the client sends does with its `\n`. A chunk that ends inside a multi-byte character leaves invalid UTF-8 in Go, which `seq<char>` cannot represent.
