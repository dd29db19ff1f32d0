# P2P-Chat: a verified model of the peer, rendezvous and reactor logic

P2P-Chat is a small Java chat application. Every peer runs a non-blocking
TCP reactor (`netlib.Server`) that accepts other peers, and can dial one
peer through a client reactor (`netlib.Connection`). Peers exchange framed
strings: an opcode byte (0x1A MESSAGE, 0x1B NAME), a 4-byte big-endian
length, then the UTF-16 code units of the string, two big-endian bytes
each. A rendezvous server (`HybridCentralPoint`, port 9118) keeps an
insertion-ordered table of the peers that announced themselves
(REGISTER, 0x1B + port) and answers LIST (0x1A) with the whole table
packed into a 1024-byte reply. The Swing window (`P2PChat`) keeps two
lists: the chat participants and the known `host:port` entries. It also
parses `/nick` and `/kick` commands and makes nicknames unique by
appending underscores.

The project models this core in Dafny, one module per file:

| file | module | models |
|---|---|---|
| wire.dfy | `Wire` | Java `byte`/`int`/`char`, the big-endian layouts of `putInt`/`putChar`, and the runtime exceptions the code lets escape |
| bytebuffer.dfy | `Buffers` | `java.nio.ByteBuffer` as a class over an `array<byte>`, with position, limit, under- and overflow |
| netlib.dfy | `Netlib` | channels, selection keys, `ChangeRequest`, and the partial-write drain of an outbound queue |
| server.dfy | `NetServer` | `Server`: per-channel queues, change requests, `send`/`write`/`read`/`close`/`accept` |
| connection.dfy | `NetConnection` | `Connection`: its constructors, `send`/`write`/`read`/`finishConnection` and its change-request pass |
| centralpoint.dfy | `CentralPoint` | `HybridCentralPoint`: the request stream, the peer table and the LIST reply |
| codec.dfy | `PeerCodec` | `putString`/`getString`/`mkbuffer` and the byte layouts of `acknowledgeSelf`/`discoverPeers` |
| peer.dfy | `PeerEngine` | `Peer`: the children list, the frame loop of `handleRead`, fan-out in `send`, `kick` |
| chat.dfy | `ChatWindow` | `P2PChat`: participants and peer-list bookkeeping, command parsing, `host:port` |

Classes whose fields the Java code updates in place (`ByteBuffer`,
`Server`, `Connection`, `HybridCentralPoint`, `Peer`, the chat `Window`)
are Dafny classes. Each of their methods states the new value of every
field it may modify; the exceptions are named under "Left out". The
ghost record of the bytes handed to each socket (`queued`) is not
repeated: `Valid()` fixes it as the bytes written followed by the bytes
still queued.
Each loop is a `while` loop checked against a specification function:
- the queue drain against `Drain`;
- the request loop against `Process`;
- the frame loop against `DecodeFrames`;
- the underscore loop against `Disambiguate`.

Lemmas about those functions state what the code promises: round trips,
FIFO order, and which entries change.

Conventions:
- The reactors' listener callbacks appear as boolean parameters: the
  answer of `handleRead`, `handleWrite` and so on.
- The socket's free send space is a parameter `room`.
- An exception that escapes a handler is an `Outcome.Raised(fault)` or a
  `Result.Err(fault)`.
- The peer's calls into the chat window are recorded in order as
  `notices`.

## Model

| member | source | states |
|---|---|---|
| Wire.Int32Wrap | src/centralpoint/HybridCentralPoint.java:87 | the count `putInt(m_peers.size())` writes: the table size itself below 2^31, otherwise the Java `int` congruent to it modulo 2^32 |
| Wire.Int32RoundTrip | src/p2pchat/Peer.java:195-202 | `getInt` reads back exactly the `int` that `putInt` wrote |
| Wire.Int32BytesRoundTrip | src/p2pchat/Peer.java:143 | any 4 bytes read as an `int` re-encode to the same 4 bytes, so the layout is a bijection |
| Wire.Int32BytesInjective | src/centralpoint/HybridCentralPoint.java:94 | two different ports never produce the same 4 bytes |
| Wire.ReadInt32 | src/p2pchat/Peer.java:202 | reading an `int` fails with BufferUnderflow exactly when fewer than 4 bytes remain; otherwise it yields the value whose layout is the first 4 bytes |
| Wire.UnitsRoundTrip | src/p2pchat/Peer.java:196-208 | decoding the 2-byte big-endian code units written by the `putChar` loop gives back the original string |
| Buffers.ByteBuffer.Allocate | src/p2pchat/Peer.java:215 | a fresh buffer of the given capacity, all zeros, position 0, limit = capacity |
| Buffers.ByteBuffer.Wrap | src/netlib/Server.java:188 | a buffer over exactly the given bytes, all of them unread |
| Buffers.ByteBuffer.Flip | src/netlib/Server.java:138 | after flip the unread bytes are exactly those written before it; `Server.read` relies on it |
| Buffers.ByteBuffer.Get | src/p2pchat/Peer.java:278 | succeeds exactly when a byte remains, returns the next unread byte and advances by one; otherwise raises BufferUnderflow and leaves the position |
| Buffers.ByteBuffer.GetInt | src/p2pchat/Peer.java:202 | the result is `ReadInt32` of the unread bytes; the position advances by 4 only on success |
| Buffers.ByteBuffer.GetChar | src/p2pchat/Peer.java:208 | succeeds exactly when 2 bytes remain and yields the big-endian code unit; otherwise raises BufferUnderflow |
| Buffers.ByteBuffer.PutBytes | src/centralpoint/HybridCentralPoint.java:93 | succeeds exactly when the bytes fit; then they overwrite the array at the position and nothing else changes; otherwise nothing changes |
| Buffers.ByteBuffer.Put | src/p2pchat/Peer.java:216 | as `PutBytes` for one byte |
| Buffers.ByteBuffer.PutInt | src/p2pchat/Peer.java:195 | as `PutBytes` for the 4-byte big-endian layout of the int |
| Buffers.ByteBuffer.PutChar | src/p2pchat/Peer.java:197 | as `PutBytes` for the 2-byte big-endian layout of the char |
| Netlib.TypeCode | src/netlib/ChangeRequest.java:13-14 | REGISTER is code 1 and CHANGEOPS code 2, and each code belongs to one request type only |
| Netlib.WithInterest | src/netlib/Server.java:83-84 | `interestOps` changes the interest of that one key; the set of keys, that key's validity and every other key stay the same |
| Netlib.Cancelled | src/netlib/Server.java:206 | `cancel` invalidates that one key and leaves its interest and every other key alone |
| Netlib.RemoveFirstOn | src/netlib/Server.java:207-216 | the close loop leaves the request list unchanged when no request names the channel, and otherwise removes exactly one request |
| Netlib.RemoveFirstOnSplits | src/netlib/Server.java:208-214 | the request removed is the first one on the channel; everything before and after it stays, in order |
| Netlib.RemoveFirstOnCounts | src/netlib/Server.java:207-216 | the requests on the closed channel drop by one (if there were any), and every other channel keeps all its requests |
| Netlib.Drain | src/netlib/Server.java:159-167 | after the write loop the queue is empty or its head still has bytes; the count reported is the head's remaining bytes, 0 after a full drain |
| Netlib.DrainWritesPrefix | src/netlib/Server.java:159-167 | the bytes sent are the first min(room, queued) queued bytes in FIFO order, and the queue afterwards holds exactly the rest |
| Netlib.DrainKeepsSuffix | src/netlib/Server.java:159-167 | the queue afterwards is a suffix of the old one: its head is the unwritten tail of one old buffer, and all later buffers are untouched |
| Netlib.DrainEmptiesWhenRoom | src/netlib/Server.java:159-170 | when the socket has room for every queued byte, the queue empties and the count reported is 0 |
| Netlib.ResumeAfterPartialWrite | src/netlib/Server.java:159-167 | a write with room r1 followed by one with room r2 sends exactly the bytes one write with room r1+r2 would: a partial write loses and repeats nothing |
| NetServer.ApplyChanges | src/netlib/Server.java:77-88 | the change-request pass never adds or removes keys and never changes a key's validity |
| NetServer.ApplyChangesNeedsValidKeys | src/netlib/Server.java:82-84 | a pass completes only if every CHANGEOPS request names a registered, valid key (else `keyFor` is null or the key is cancelled and the pass throws) |
| NetServer.ApplyChangesLastWins | src/netlib/Server.java:77-88 | after a completed pass a channel's interest is that of the last CHANGEOPS request on it, or the old one if there is none |
| NetServer.RemoveFirstOnKeepsLater | src/netlib/Server.java:207-216 | `close` removes only the first request on the channel: any later request on it survives |
| NetServer.CloseLeavesStaleRequest | src/netlib/Server.java:195-217 | two queued OP_WRITE requests for a channel that is then closed make the next change-request pass fail on the cancelled key |
| NetServer.DrainQueue | src/netlib/Server.java:159-167 | the write loop over a queue computes `Drain`: same remaining queue, bytes sent and count |
| NetServer.Server.constructor | src/netlib/Server.java:40-46 | a server with no queues, no change requests, no keys and no closed channels |
| NetServer.Server.Accept | src/netlib/Server.java:112-123 | registers the accepted channel for OP_READ; if `handleConnection` refuses, the channel is closed and its key cancelled |
| NetServer.Server.Send | src/netlib/Server.java:177-193 | appends the data to the tail of that channel's queue, creating the queue if absent, leaves other queues alone, and adds exactly one CHANGEOPS/OP_WRITE request |
| NetServer.Server.Close | src/netlib/Server.java:195-217 | does nothing if `handleConnectionClose` refuses; otherwise cancels the key, removes only the first request on the channel and keeps its queue; with no key it throws NullPointerException |
| NetServer.Server.Read | src/netlib/Server.java:125-142 | closes the channel exactly when the read fails, reaches end of stream or `handleRead` returns false; on data, `handleRead` gets a flipped buffer whose unread bytes are exactly the (at most 1024) bytes received |
| Netlib.ReadInto | src/netlib/Server.java:129-132 | `allocate(1024)` then `read`: the first min(n, 1024) bytes received sit before the cursor, and zeros follow them up to the limit 1024 |
| NetServer.Server.Write | src/netlib/Server.java:144-175 | without a queue nothing happens and `handleWrite` is not called; otherwise the queue is drained as `Drain` says, interest becomes OP_READ exactly when it empties, the unwritten count is reported, and a false answer closes the channel |
| NetServer.Server.ApplyChangeRequests | src/netlib/Server.java:77-88 | the keys become `ApplyChanges` of the requests, and the list is cleared when the pass completes |
| NetConnection.DrainPending | src/netlib/Connection.java:158-167 | the write loop over `pendingData`: a raw `byte[]` at the head raises ClassCastException, a null channel raises NullPointerException, otherwise it drains as `Drain` with the head left non-empty |
| NetConnection.DrainPendingConserves | src/netlib/Connection.java:158-167 | bytes sent followed by bytes still pending are exactly the bytes pending before, even when the loop throws |
| NetConnection.DrainPendingIsDrain | src/netlib/Connection.java:158-167 | on a queue of buffers and a connected channel, the client's write loop is the server's `Drain` |
| NetConnection.ApplyConnectionChanges | src/netlib/Connection.java:81-96 | the pass only adds keys, and each key it adds comes from a REGISTER request |
| NetConnection.ConnectionChangesLastWins | src/netlib/Connection.java:81-96 | after a completed pass a channel's interest is the ops of the last request (REGISTER or CHANGEOPS) on it, in queue order |
| NetConnection.Connection.Dial | src/netlib/Connection.java:35-42 | queues exactly one REGISTER/OP_CONNECT request and leaves `channel` null |
| NetConnection.Connection.Adopt | src/netlib/Connection.java:44-53 | sets `channel`, queues exactly one REGISTER/OP_WRITE request, and has no listener |
| NetConnection.Connection.Send | src/netlib/Connection.java:179-185 | appends the raw array to the tail of `pendingData` and queues no change request |
| NetConnection.Connection.ApplyChangeRequests | src/netlib/Connection.java:81-96 | the keys become `ApplyConnectionChanges` of the requests, and the list is cleared when the pass completes |
| NetConnection.Connection.FinishConnection | src/netlib/Connection.java:120-134 | a failed connect cancels the key without a callback; a successful one sets interest to OP_WRITE before `handleConnection`, whose refusal closes the channel and cancels the key; a null channel or listener throws |
| NetConnection.Connection.Read | src/netlib/Connection.java:136-152 | closes the channel and cancels the key exactly when the read fails, reaches end of stream or `handleRead` returns false; with a channel and a listener, `handleRead` gets the unflipped buffer, whose unread bytes are the 1024 - n zeros after the n bytes received |
| NetConnection.Connection.ReadFlipped | src/netlib/Connection.java:136-152 | corrected `read`: the same closing rule, and `handleRead` gets exactly the bytes received, as `Server.read` gives them |
| NetConnection.Connection.Write | src/netlib/Connection.java:154-177 | drains `pendingData` as `DrainPending`; interest becomes OP_READ exactly when it empties; the unwritten count goes to `handleWrite`, whose refusal closes the channel and cancels the key |
| NetConnection.DrainPendingQueue | src/netlib/Connection.java:159-167 | the loop computes `DrainPending` |
| CentralPoint.EntryBytes | src/centralpoint/HybridCentralPoint.java:93-94 | one entry of a LIST reply: the 4 address bytes, then the port as a big-endian int |
| CentralPoint.EntriesBytesAt | src/centralpoint/HybridCentralPoint.java:89-95 | entry i of the table sits at bytes 8i..8i+8 of the entries, in insertion order |
| CentralPoint.ListReply | src/centralpoint/HybridCentralPoint.java:86-97 | a reply exists exactly when the table has at most 127 entries; it is always the whole 1024-byte array and starts with the table size |
| CentralPoint.ListReplyLayout | src/centralpoint/HybridCentralPoint.java:86-97 | in the reply, entry i's address is at 4+8i and its port at 8+8i, and every byte after the last entry is zero |
| CentralPoint.ProcessOkIffWellFormed | src/centralpoint/HybridCentralPoint.java:81-115 | handling a buffer returns true exactly when every opcode is LIST or REGISTER, every REGISTER has its 4 bytes, and every LIST reply fits |
| CentralPoint.ProcessOnlyAppends | src/centralpoint/HybridCentralPoint.java:99-105 | handling never changes or removes existing entries and only appends entries carrying the caller's address, with no deduplication |
| CentralPoint.ProcessConcat | src/centralpoint/HybridCentralPoint.java:81-109 | requests in one buffer are handled left to right: handling a+b is handling a, then b on the resulting table |
| CentralPoint.RegisterAppends | src/centralpoint/HybridCentralPoint.java:99-105 | REGISTER with a port appends exactly one (caller address, port) entry at the end, then handles the rest |
| CentralPoint.ListKeepsTable | src/centralpoint/HybridCentralPoint.java:85-98 | LIST never changes the table; it queues the encoded reply when at most 127 entries, and otherwise returns false |
| CentralPoint.PutEntry | src/centralpoint/HybridCentralPoint.java:93-94 | writing one entry into the zeroed reply succeeds exactly when 8 bytes fit and puts the entry bytes right after what was written |
| CentralPoint.EncodeList | src/centralpoint/HybridCentralPoint.java:86-95 | the `putInt` then `put`/`putInt` loop builds exactly `ListReply`: overflow beyond 127 entries, the 1024-byte array otherwise |
| CentralPoint.HybridCentralPoint.constructor | src/centralpoint/HybridCentralPoint.java:65-69 | an empty table over a fresh server |
| CentralPoint.HybridCentralPoint.HandleWrite | src/centralpoint/HybridCentralPoint.java:72-75 | always returns true |
| CentralPoint.HybridCentralPoint.HandleConnection | src/centralpoint/HybridCentralPoint.java:119-122 | always returns true |
| CentralPoint.HybridCentralPoint.HandleConnectionClose | src/centralpoint/HybridCentralPoint.java:125-128 | always returns true |
| CentralPoint.HybridCentralPoint.ServeList | src/centralpoint/HybridCentralPoint.java:85-98 | queues exactly the LIST reply on the caller's channel when it fits, else queues nothing; the table, keys, closed channels, `accepting` and the bytes already written are unchanged |
| CentralPoint.HybridCentralPoint.ServeRequest | src/centralpoint/HybridCentralPoint.java:82-108 | one request consumes at least one byte and does what `Process` says for it |
| CentralPoint.HybridCentralPoint.HandleRead | src/centralpoint/HybridCentralPoint.java:78-116 | the table afterwards and the result are those of `Process` over the unread bytes, and exactly its replies are queued, in order, on the caller's channel; the listening socket and the bytes already written are untouched, and a full read leaves the cursor at the limit |
| PeerCodec.FrameLayout | src/p2pchat/Peer.java:193-220 | `mkbuffer(op, s, n)` is 2n+5 bytes: the opcode, n as 4 big-endian bytes, then character i at bytes 5+2i..7+2i |
| PeerCodec.DecodeString | src/p2pchat/Peer.java:200-211 | a successful read consumes 4 bytes for null (length 0) and 4+2n bytes for a string of n > 0 units |
| PeerCodec.StringRoundTrip | src/p2pchat/Peer.java:193-211 | `getString` reads back what `putString` wrote, consuming exactly its 4+2n bytes, and yields null for the empty string |
| PeerCodec.TruncatedStringUnderflows | src/p2pchat/Peer.java:202-208 | a declared length longer than the remaining bytes makes `getString` raise BufferUnderflow |
| PeerCodec.PutString | src/p2pchat/Peer.java:193-198 | writes the length and the code units right at the position, advancing it by 4+2n |
| PeerCodec.PutUnits | src/p2pchat/Peer.java:196-197 | the `putChar` loop writes each code unit as 2 big-endian bytes, in order |
| PeerCodec.MkBuffer | src/p2pchat/Peer.java:213-220 | a fresh buffer of 2n+5 bytes holding exactly the frame |
| PeerCodec.GetString | src/p2pchat/Peer.java:200-211 | succeeds exactly when `DecodeString` does, returning its text and advancing by its size; otherwise raises the same exception |
| PeerCodec.ReadUnits | src/p2pchat/Peer.java:206-208 | the `getChar` loop succeeds exactly when 2n bytes remain and yields their code units in order |
| PeerCodec.AcknowledgeBytes | src/p2pchat/Peer.java:103-104 | `acknowledgeSelf` sends 5 bytes: 0x1B, then the port as a big-endian int |
| PeerCodec.DiscoverRequest | src/p2pchat/Peer.java:130 | `discoverPeers` sends the single byte 0x1A |
| PeerCodec.DecodePeerList | src/p2pchat/Peer.java:133-155 | a list is returned only for a reply of at least 4 bytes whose count is positive |
| PeerCodec.Without | src/p2pchat/Peer.java:145-146 | the kept entries are entries of the reply and none has the local address |
| PeerCodec.EntriesRoundTrip | src/p2pchat/Peer.java:138-153 | decoding the entries a LIST reply encodes gives back the table in order, without the entries on the local address |
| PeerCodec.DiscoverRoundTrip | src/p2pchat/Peer.java:133-155 | decoding the central point's LIST reply gives null for an empty table and otherwise the table in insertion order minus the local address |
| PeerCodec.AcknowledgeRegisters | src/p2pchat/Peer.java:103-104 | the central point answers the bytes of `acknowledgeSelf` by appending exactly one (caller, port) entry and returning true |
| PeerCodec.DiscoverPeers | src/p2pchat/Peer.java:133-155 | the read loop computes `DecodePeerList` |
| PeerEngine.FindChild | src/p2pchat/Peer.java:286-293 | the index of the first child on the channel, or none exactly when no child is on it |
| PeerEngine.LocateChild | src/p2pchat/Peer.java:286-293 | the iterator loop finds `FindChild` |
| PeerEngine.WithoutChild | src/p2pchat/Peer.java:331-339 | removes one child exactly when some child is on the channel |
| PeerEngine.WithoutChildCounts | src/p2pchat/Peer.java:331-339 | removes at most one child on the closed channel and keeps every child on other channels |
| PeerEngine.WithoutChildSplits | src/p2pchat/Peer.java:331-339 | the child removed is the first on the channel; the others keep their order |
| PeerEngine.FrameStep | src/p2pchat/Peer.java:278-312 | one request consumes at least one byte, and keeps the number of children and each child's channel |
| PeerEngine.DecodeFrames | src/p2pchat/Peer.java:277-313 | the frame loop never adds, removes or reorders children |
| PeerEngine.MessageFrameDelivers | src/p2pchat/Peer.java:281-296 | a MESSAGE frame shows its text under the name of the first child on the channel (null if none), changes no child, then the rest is handled |
| PeerEngine.NameFrameRenames | src/p2pchat/Peer.java:297-309 | a NAME frame renames only the first child on the channel and reports the change; with no such child nothing changes |
| PeerEngine.TruncatedFrameRaises | src/p2pchat/Peer.java:202-208 | any strict prefix of a MESSAGE or NAME frame raises BufferUnderflow and shows nothing |
| PeerEngine.SendEach | src/p2pchat/Peer.java:259-262 | queues the data on every listed channel in order, with one OP_WRITE request each; keys, closed channels, `accepting` and the bytes already written stay as they were |
| PeerEngine.FanoutQueues | src/p2pchat/Peer.java:259-262 | each channel's queue gains one copy of the data per occurrence in the list; unlisted channels keep their queue |
| PeerEngine.FindNamed | src/p2pchat/Peer.java:167-170 | the index of the first child with that name, or none exactly when there is none |
| PeerEngine.KickOutcome | src/p2pchat/Peer.java:165-175 | `kick` as written removes at most one child |
| PeerEngine.KickMissesLastNamesake | src/p2pchat/Peer.java:165-175 | with two children of that name, the last one stays connected and no exception is raised |
| PeerEngine.KickThrowsWhenTwoFollow | src/p2pchat/Peer.java:165-175 | kicking a child with two children after it throws ConcurrentModificationException |
| PeerEngine.KickAllRemovesNamesakes | src/p2pchat/Peer.java:165-175 | closing each named child's channel in turn removes exactly the children with that name, keeping the others in order |
| PeerEngine.Peer.constructor | src/p2pchat/Peer.java:75-86 | a peer with the given name and port, no children and no connection, over a fresh server |
| PeerEngine.Peer.Connect | src/p2pchat/Peer.java:88-95 | keeps a connected connection; otherwise dials a fresh one with the peer as listener, no keys, nothing queued and a single REGISTER/OP_CONNECT request |
| PeerEngine.Peer.Send | src/p2pchat/Peer.java:249-267 | the data goes to `conn` if there is one, and to every child in order (null target) or to the target alone; nothing else of the server or the connection changes |
| PeerEngine.Peer.SendMessage | src/p2pchat/Peer.java:183-191 | an empty message sends nothing; otherwise one MESSAGE frame goes to every child and to `conn` |
| PeerEngine.Peer.SendName | src/p2pchat/Peer.java:222-236 | an empty name sends nothing and keeps the name; otherwise one NAME frame goes to every child, `conn` gets one copy per child, and the name changes |
| PeerEngine.Peer.SendToEachChild | src/p2pchat/Peer.java:232-234 | the loop queues the frame on every child's channel, in order, and on `conn` once per child |
| PeerEngine.Peer.SetName | src/p2pchat/Peer.java:177-181 | sends nothing when the name is unchanged or empty; otherwise one NAME frame goes to every child, `conn` gets one copy per child, and the name changes |
| PeerEngine.Peer.HandleWrite | src/p2pchat/Peer.java:269-273 | always returns true |
| PeerEngine.Peer.HandleRead | src/p2pchat/Peer.java:275-316 | the children and the chat-window calls afterwards are those of `DecodeFrames`; it returns true unless a string read raises |
| PeerEngine.Peer.HandleFrame | src/p2pchat/Peer.java:278-312 | one pass of the loop does `FrameStep`, and nothing at all when it raises |
| PeerEngine.Peer.ReceiveMessage | src/p2pchat/Peer.java:282-296 | shows the decoded text under the sender found by channel and leaves the children unchanged |
| PeerEngine.Peer.ReceiveName | src/p2pchat/Peer.java:298-309 | renames the first child on the channel to the decoded name and reports the old and new name; with no such child nothing changes |
| PeerEngine.Peer.HandleConnection | src/p2pchat/Peer.java:318-327 | appends exactly one child on the channel, named "unnamed" by the window, queues one NAME frame with the local name on that channel and one copy on `conn`, and returns true |
| PeerEngine.Peer.HandleConnectionClose | src/p2pchat/Peer.java:329-343 | removes at most the first child on the channel, reports it, always shows "Unable to find disconnected peer!", and returns true |
| PeerEngine.Peer.CloseChild | src/p2pchat/Peer.java:171-172 | reports the child, closes its channel through the server (cancelling its key and dropping the first change request on it) and so removes the first child on it; with no key it throws NullPointerException; the queues stay as they were |
| PeerEngine.Peer.Kick | src/p2pchat/Peer.java:165-175 | does what `KickOutcome` says: the first child with that name is closed, with its key and its first change request, and later ones are missed or the iterator throws; the queues stay as they were |
| PeerEngine.Peer.KickAll | src/p2pchat/Peer.java:165-175 | when every named child has a key, exactly the children with that name are removed, keeping the others in order; otherwise NullPointerException |
| PeerEngine.Peer.CloseAll | src/p2pchat/Peer.java:171-172 | closing a list of channels completes exactly when all have keys, and removes their children |
| PeerEngine.ZerosSkipped | src/p2pchat/Peer.java:275-316 | `handleRead` skips any run of zero bytes without showing anything |
| PeerEngine.DialerMissesReply | src/netlib/Connection.java:136-152 | as written, after `connect` and `finishConnection` (whose `handleConnection` adds the "unnamed" child), whatever the dialled peer sends, the dialling peer's `handleRead` shows nothing: only the connection notice is shown |
| PeerEngine.DialerShowsReply | src/netlib/Connection.java:136-152 | corrected, after the same connection notice, a MESSAGE frame from the dialled peer is shown with its text under the child's name "unnamed" |
| ChatWindow.IntToString | src/p2pchat/P2PChat.java:465 | the decimal form of a port ends with a digit |
| ChatWindow.ParseInt | src/p2pchat/P2PChat.java:388 | `Integer.parseInt` accepts only text that ends with a digit |
| ChatWindow.DigitsRoundTrip | src/p2pchat/P2PChat.java:388 | the decimal digits of n read back as n |
| ChatWindow.ParseIntRoundTrip | src/p2pchat/P2PChat.java:375-388 | parsing the decimal form of a port gives back the port |
| ChatWindow.SplitHostPort | src/p2pchat/P2PChat.java:386-388 | the host split off at the first `:` never contains `:` |
| ChatWindow.HostPortRoundTrip | src/p2pchat/P2PChat.java:386-388 | splitting `host + ":" + port` at its first `:` recovers the host and port, for any host without `:` |
| ChatWindow.DisambiguateIsLeastFree | src/p2pchat/P2PChat.java:446-448 | the loop ends on the new name plus k >= 0 underscores, which is neither listed nor the local name, and every shorter candidate was taken |
| ChatWindow.FreeNameKept | src/p2pchat/P2PChat.java:446 | a name that is free is kept unchanged |
| ChatWindow.IndexOf | src/p2pchat/P2PChat.java:431 | `indexOf` of a list model, and `indexOf(":")` of a peer-list entry (line 386), is the first index of the element, or -1 exactly when it is absent |
| ChatWindow.ParseCommand | src/p2pchat/P2PChat.java:315-345 | the command parsing computes `Interpret` |
| ChatWindow.JoinArgument | src/p2pchat/P2PChat.java:323-325 | the token-joining loop computes each token followed by one space |
| ChatWindow.JoinPieces | src/p2pchat/P2PChat.java:323-325 | joining the space-separated pieces of a text, each followed by a space, gives the text plus one space |
| ChatWindow.CommandArgument | src/p2pchat/P2PChat.java:319-325 | for `word rest` with `rest` not ending in a space, the command is `word` and the joined argument is `rest + " "` |
| ChatWindow.NickKeepsSpacesAddsOne | src/p2pchat/P2PChat.java:318-327 | `/nick rest` sets the name to `rest` with its inner spaces kept and one trailing space added |
| ChatWindow.KickArgumentEndsWithSpace | src/p2pchat/P2PChat.java:330-334 | the name `/kick` looks up always ends with a space |
| ChatWindow.KickNeverMatchesPeerList | src/p2pchat/P2PChat.java:330-337 | as written, `/kick` never finds its name among `host:port` entries, so it never kicks |
| ChatWindow.KickFindsParticipant | src/p2pchat/P2PChat.java:330-337 | looked up among the participants, `/kick rest` finds a peer named by `/nick rest` |
| ChatWindow.Window.constructor | src/p2pchat/P2PChat.java:80-81 | both lists and the transcript start empty |
| ChatWindow.Window.AppendText | src/p2pchat/P2PChat.java:412-418 | appends `<sender> text`, with "unknown" for a null sender; the lists are unchanged |
| ChatWindow.Window.PeerConnected | src/p2pchat/P2PChat.java:420-427 | a null name becomes "unnamed" and is appended to the participants |
| ChatWindow.Window.PeerDisconnected | src/p2pchat/P2PChat.java:429-439 | removes the first occurrence of the name if listed, otherwise leaves the list, and reports a disconnect or a timeout |
| ChatWindow.Window.PeerNameChanged | src/p2pchat/P2PChat.java:441-459 | an unlisted old name appends the new name unchanged; a listed one is replaced in place by the name made unique for a child (one name-change request per underscore; a null name becomes "null_" first when null is listed, and throws otherwise) or kept as is for a non-child; the change is shown unless it throws |
| ChatWindow.Window.PeerAcked | src/p2pchat/P2PChat.java:461-467 | adds `host:port` to the peer list only if absent, and reports it only then |
| ChatWindow.PeerAckedKeepsNoDuplicates | src/p2pchat/P2PChat.java:463-465 | a peer list without duplicates stays without duplicates |
| ChatWindow.Window.FindPeers | src/p2pchat/P2PChat.java:365-376 | null reports "No peers were found." and keeps the list; otherwise the list becomes exactly the `host:port` of each peer in order |
| ChatWindow.Window.ConnectMenu | src/p2pchat/P2PChat.java:273-294 | an unparsable port adds nothing; a parsed port outside 0..65535 raises IllegalArgumentException once `connect` builds the socket address (Connection.java:65), which escapes the IOException handler and adds nothing; otherwise `host:port` is appended, even when `connect` failed with an IOException or the entry is already listed; nothing is shown in the chat |
| ChatWindow.Window.SendTextMessage | src/p2pchat/P2PChat.java:312-358 | `/nick` sets the name, `/kick` kicks only a listed name, other commands do nothing, and plain text is broadcast; the chat shows the name change, "Invalid command.", the help text or the local line, and nothing else |

## Left out

- Threads and `synchronized`: each reactor step is one atomic sequential step.
- `Selector.select`, `wakeup`, socket I/O and `IOException` from `close`: the socket's free space (`room`), the bytes received and the listener answers are parameters.
- Keys are never deregistered: `keyFor` keeps returning a cancelled key after the channel closes.
- DNS: `InetAddress.getByName` and `getHostName` are not modelled. Addresses are compared as 4-byte IPv4 addresses, and `discoverPeers` drops the entries whose address equals the local one.
- The blocking socket round trips of `acknowledgeSelf` and `discoverPeers`: only the bytes sent and the reply decoded.
- Swing layout, dialogs, key dispatchers and the `P2PChat.get()` singleton. `UserInfo.java`, `VoiceChatHandler.java` and `PeerNode.java` are not part of this model.
- Peer opcodes other than 0x1A and 0x1B: each is skipped one byte at a time.
- `Connection.isConnected` does not exist in the source: `PeerEngine.Peer.Connect` takes its answer as a parameter.
- `isChild`, `sendNameChangeRequest` and `publishSelf` do not exist in `Peer.java`. `isChild` is a parameter of `PeerNameChanged`, the requests are counted, and `publishSelf` is left out.
- `peerDisconnected(node)` is called with one argument while `P2PChat` declares two: the peer records the call as a notice, without the `timeout` flag.
- `sendMessage(message, selected)`, the two-argument overload used for private messages, does not exist in `Peer.java` and is not modelled.
- `disconnectFrom`, `sendAudioData` and `peerTalk` are not modelled.
- The top-level peer's null parent is not modelled; a peer's children hold no back-reference.
- Children are values (channel, name), so the window's writes to `node.peerName` are modelled only where the peer's state shows them. The "unnamed" that `peerConnected` writes (P2PChat.java:422-423) is modelled in PeerEngine.Peer.HandleConnection. The names that `peerNameChanged`'s underscore loop writes back are not (see PeerEngine.Peer.ReceiveName).
- PeerEngine.Peer.ReceiveName: keeps the received name after `peerNameChanged`, as `node.peerName = name` at Peer.java:305 does; the underscores the window added are not written back.
- PeerEngine.Peer.HandleRead: a frame split across two TCP reads raises BufferUnderflow, as it does in the source; reassembly is not modelled.
- PeerCodec.PutString: requires the frame to fit the buffer and the string to be at most 0x3FFF_FFFD units, so that the frame size 2n+5 is still a Java `int`.
- PeerCodec.ReadUnits: does not state the buffer position after a BufferUnderflow.
- PeerCodec.GetString: does not state the buffer position after a BufferUnderflow or NegativeArraySizeException.
- PeerEngine.Peer.Connect: dials through the corrected `DialAssigned` constructor; it takes no host or port, so the UnknownHostException of `getByName` and the IllegalArgumentException of an out-of-range port are modelled in ChatWindow.Window.ConnectMenu as its `attempt` parameter.
- PeerEngine.Peer.Send: queues a wrapped buffer on `conn` (the corrected `SendBuffer`). Both defects are listed under Findings.
- ChatWindow.Window.SendTextMessage: looks the `/kick` name up among the participants, the corrected rule from Findings.
- ChatWindow: Java strings are Dafny strings; digits other than ASCII `0`-`9` in `Integer.parseInt` are not modelled.
- ChatWindow.Window.SendTextMessage: always broadcasts plain text; the private message to the selected participant (P2PChat.java:350-354) is not modelled, because its `sendMessage` overload is missing from `Peer.java`.
- PeerEngine.Peer.HandleRead: assumes each window callback returns normally. The notice is recorded, but an exception thrown inside the window is not carried back: for example, `peerNameChanged` with a null name for a child throws NullPointerException when null is not listed (see ChatWindow.Window.PeerNameChanged).
- PeerEngine.Peer.ReceiveName: records `peerNameChanged` as a notice that cannot throw, for the same reason.
- PeerEngine.Peer.HandleRead: does not state where the buffer's cursor ends.
- PeerEngine.Peer.KickAll: does not state the notices, or the server's keys, closed channels and change requests after the closes; only that the queues, `accepting` and the bytes written stay as they were.
- PeerEngine.Peer.CloseAll: does not state the notices, or the server's keys, closed channels and change requests after the closes; only that the queues, `accepting` and the bytes written stay as they were.
- PeerEngine.Peer.CloseNext: the closing step of CloseAll; it states the children and the key checked, but not the notices or the server's closed channels and change requests, for the same reason.
- CentralPoint.HybridCentralPoint.HandleRead: does not state where the buffer's cursor ends when a request fails (after a full read it is at the limit).
- CentralPoint.HybridCentralPoint.ServeRequest: does not state how far the cursor moves, only that it moves.
- The `handled` answer of a read event is a parameter, independent of what the peer's `handleRead` returns for the buffer it is given.

## Findings

| source | as written | input that shows it | evidently intended | confidence | as-written member | corrected member |
|---|---|---|---|---|---|---|
| src/netlib/Connection.java:179-185 | `send` queues the raw `byte[]`, but `write` casts every element to `ByteBuffer` (line 160) | any `send(data)` followed by a write event: the cast throws ClassCastException and the data is never written | queue `ByteBuffer.wrap(data)`, as `Server.send` does | high; not executed | NetConnection.SendThenWrite | NetConnection.SendBufferThenWrite |
| src/netlib/Connection.java:35-42 | the dialing constructor never assigns `channel`: `initiateConnection` returns the socket and the result is dropped (lines 41, 60-70) | dial, then the connect event: `channel.finishConnect()` throws NullPointerException | `this.channel = this.initiateConnection()` | high; not executed | NetConnection.DialThenConnect | NetConnection.DialAssignedThenConnect |
| src/netlib/Connection.java:44-53 | the adopting constructor never sets `listener` | adopt a socket; it registers for OP_WRITE, so the first event is a write, and `listener.handleWrite` (line 173) throws NullPointerException | take the listener as the dialing constructor does | medium; not executed | NetConnection.AdoptThenWrite | NetConnection.AdoptWithListenerThenWrite |
| src/p2pchat/Peer.java:165-175 | `kick` closes a child while iterating `children`, and the close callback removes that child from the same list (lines 329-339) | children [a "x", b "x"]: b stays connected; children [a "x", b, c]: the next step throws ConcurrentModificationException | remove every child with that name | high; not executed | PeerEngine.KickThrowsWhenTwoFollow | PeerEngine.KickAllRemovesNamesakes |
| src/p2pchat/P2PChat.java:330-337 | `/kick name` looks the name, with its trailing space, up in `peerListModel`, whose entries are `host:port` and end with a digit | `/kick bob` with "bob " connected: nothing happens | look the name up among the chat participants | high; not executed | ChatWindow.KickNeverMatchesPeerList | ChatWindow.KickFindsParticipant |
| src/netlib/Connection.java:136-152 | `read` hands `readBuffer` to `handleRead` without `flip()`, unlike `Server.read` (Server.java:138) | dial a peer, which then sends one MESSAGE frame: `handleRead` reads from position n to limit 1024, only zeros, and shows nothing after the connection notice | flip the buffer before `handleRead` | high; not executed | PeerEngine.DialerMissesReply | PeerEngine.DialerShowsReply |
