/** The rendezvous server (HybridCentralPoint): a table of the peers that
    announced themselves, served over a netlib Server. A client sends a
    stream of one-byte requests:
    - 0x1A (LIST): the reply is the table, encoded into a 1024-byte buffer
      and queued on the client's channel;
    - 0x1B (REGISTER) followed by a 4-byte port: the client's address and
      that port are appended to the table. */
module CentralPoint {
  import opened Wire
  import opened Netlib
  import opened Buffers
  import NetServer

  /** Request opcodes. */
  const LIST: byte := 0x1A
  const REGISTER: byte := 0x1B

  /** The size of the buffer the LIST reply is built in and sent as. */
  const REPLY_SIZE: nat := 1024

  /** The port the central point listens on. */
  const CENTRAL_PORT: int32 := 9118

  /** One table entry: the address a peer connected from and the port it
      announced. */
  datatype PeerInfo = PeerInfo(address: IPv4, port: int32)

  /** The 8 bytes of one entry in a LIST reply. */
  function EntryBytes(p: PeerInfo): (r: seq<byte>)
    ensures |r| == 8 && r[..4] == p.address && r[4..] == Int32Bytes(p.port)
  {
    p.address + Int32Bytes(p.port)
  }

  /** The entries of a LIST reply, in table order. */
  function EntriesBytes(peers: seq<PeerInfo>): (r: seq<byte>)
    ensures |r| == 8 * |peers|
  {
    if peers == [] then [] else EntryBytes(peers[0]) + EntriesBytes(peers[1..])
  }

  lemma {:induction false} EntriesBytesSnoc(peers: seq<PeerInfo>, p: PeerInfo)
    ensures EntriesBytes(peers + [p]) == EntriesBytes(peers) + EntryBytes(p)
  {
    if peers != [] {
      assert (peers + [p])[1..] == peers[1..] + [p];
      EntriesBytesSnoc(peers[1..], p);
    } else {
      assert EntriesBytes([p]) == EntryBytes(p) + EntriesBytes([]);
    }
  }

  /** Entry `i` sits at bytes 8i to 8i+8 of the entries. */
  lemma {:induction false} EntriesBytesAt(peers: seq<PeerInfo>, i: nat)
    requires i < |peers|
    ensures EntriesBytes(peers)[8 * i..8 * i + 8] == EntryBytes(peers[i])
  {
    if i > 0 {
      EntriesBytesAt(peers[1..], i - 1);
      assert EntriesBytes(peers)[8..] == EntriesBytes(peers[1..]);
    }
  }

  /** The LIST reply for a table: the count, then each entry, then zeros
      up to REPLY_SIZE; none when the entries do not fit (a put past the
      end of the buffer throws). */
  function ListReply(peers: seq<PeerInfo>): (r: Option<seq<byte>>)
    ensures r.Some? <==> |peers| <= 127
    ensures r.Some? ==> |r.value| == REPLY_SIZE && r.value[..4] == Int32Bytes(|peers|)
  {
    if 4 + 8 * |peers| > REPLY_SIZE then None
    else Some(Int32Bytes(|peers|) + EntriesBytes(peers) + Zeros(REPLY_SIZE - 4 - 8 * |peers|))
  }

  /** The layout of a LIST reply: entry `i`'s address, then its port, at
      byte 4 + 8i; zeros after the last entry. */
  lemma {:induction false} ListReplyLayout(peers: seq<PeerInfo>, i: nat)
    requires |peers| <= 127 && i < |peers|
    ensures var r := ListReply(peers).value;
            && r[4 + 8 * i..8 + 8 * i] == peers[i].address
            && r[8 + 8 * i..12 + 8 * i] == Int32Bytes(peers[i].port)
            && forall j :: 4 + 8 * |peers| <= j < REPLY_SIZE ==> r[j] == 0
  {
    var r := ListReply(peers).value;
    var h, e, z := Int32Bytes(|peers|), EntriesBytes(peers), Zeros(REPLY_SIZE - 4 - 8 * |peers|);
    assert r == h + e + z && |h| == 4;
    assert r[4 + 8 * i..12 + 8 * i] == EntryBytes(peers[i]) by {
      EntriesBytesAt(peers, i);
      assert r[4 + 8 * i..12 + 8 * i] == e[8 * i..8 * i + 8];
    }
    var eb := EntryBytes(peers[i]);
    assert r[4 + 8 * i..8 + 8 * i] == eb[..4];
    assert r[8 + 8 * i..12 + 8 * i] == eb[4..];
    forall j | 4 + 8 * |peers| <= j < REPLY_SIZE
      ensures r[j] == 0
    {
      assert r[j] == z[j - 4 - 8 * |peers|];
    }
  }

  /** What handling one buffer of requests amounts to: the table after it,
      the replies queued on the client's channel, in order, and the answer
      returned to the Server. */
  datatype Handled = Handled(peers: seq<PeerInfo>, replies: seq<seq<byte>>, ok: bool)

  /** `handleRead` over the unread bytes `input` from a client at `caller`:
      requests are handled left to right until no byte remains. An
      unknown opcode, a REGISTER with fewer than 4 bytes after it, or a
      LIST reply that does not fit ends the handling with false; whatever
      earlier requests did stays done. */
  function Process(peers: seq<PeerInfo>, input: seq<byte>, caller: IPv4): Handled
    decreases |input|
  {
    if input == [] then Handled(peers, [], true)
    else if input[0] == LIST then
      match ListReply(peers)
      case None => Handled(peers, [], false)
      case Some(reply) =>
        var rest := Process(peers, input[1..], caller);
        Handled(rest.peers, [reply] + rest.replies, rest.ok)
    else if input[0] == REGISTER then
      if |input| < 5 then Handled(peers, [], false)  // getInt() underflows
      else Process(peers + [PeerInfo(caller, Int32Of(input[1..5]))], input[5..], caller)
    else Handled(peers, [], false)
  }

  /** The requests that `Process` accepts, stated on their own: a sequence
      of whole LIST and REGISTER requests in which every LIST finds at most
      127 entries (`n` entries before the first request). */
  ghost predicate WellFormed(input: seq<byte>, n: nat)
    decreases |input|
  {
    if input == [] then true
    else if input[0] == LIST then n <= 127 && WellFormed(input[1..], n)
    else if input[0] == REGISTER then |input| >= 5 && WellFormed(input[5..], n + 1)
    else false
  }

  /** `handleRead` answers true exactly when the buffer is well formed. */
  lemma {:induction false} ProcessOkIffWellFormed(peers: seq<PeerInfo>, input: seq<byte>, caller: IPv4)
    ensures Process(peers, input, caller).ok <==> WellFormed(input, |peers|)
    decreases |input|
  {
    if input != [] {
      if input[0] == LIST && |peers| <= 127 {
        ProcessOkIffWellFormed(peers, input[1..], caller);
      } else if input[0] == REGISTER && |input| >= 5 {
        ProcessOkIffWellFormed(peers + [PeerInfo(caller, Int32Of(input[1..5]))], input[5..], caller);
      }
    }
  }

  /** The table only grows at its end, and only by entries carrying the
      caller's address: existing entries are never changed or removed. */
  lemma {:induction false} ProcessOnlyAppends(peers: seq<PeerInfo>, input: seq<byte>, caller: IPv4)
    ensures var h := Process(peers, input, caller);
            && |peers| <= |h.peers| && h.peers[..|peers|] == peers
            && forall i :: |peers| <= i < |h.peers| ==> h.peers[i].address == caller
    decreases |input|
  {
    if input != [] {
      if input[0] == LIST && |peers| <= 127 {
        ProcessOnlyAppends(peers, input[1..], caller);
      } else if input[0] == REGISTER && |input| >= 5 {
        var peers' := peers + [PeerInfo(caller, Int32Of(input[1..5]))];
        ProcessOnlyAppends(peers', input[5..], caller);
        var h := Process(peers', input[5..], caller);
        assert h.peers[..|peers|] == h.peers[..|peers'|][..|peers|];
      }
    }
  }

  /** Requests are handled left to right: a well-formed prefix is handled
      first, and what follows it is handled on the table it leaves. */
  lemma {:induction false} ProcessConcat(peers: seq<PeerInfo>, a: seq<byte>, b: seq<byte>, caller: IPv4)
    requires WellFormed(a, |peers|)
    ensures var h1 := Process(peers, a, caller);
            var h2 := Process(h1.peers, b, caller);
            Process(peers, a + b, caller) == Handled(h2.peers, h1.replies + h2.replies, h2.ok)
    decreases |a|
  {
    var ab := a + b;
    if a == [] {
      assert ab == b;
    } else if a[0] == LIST {
      var reply := ListReply(peers).value;
      var r1 := Process(peers, a[1..], caller);
      var h2 := Process(r1.peers, b, caller);
      assert ab[0] == LIST && ab[1..] == a[1..] + b;
      assert Process(peers, a, caller) == Handled(r1.peers, [reply] + r1.replies, r1.ok) by {
        ProcessList(peers, a, caller);
      }
      assert Process(peers, a[1..] + b, caller) == Handled(h2.peers, r1.replies + h2.replies, h2.ok) by {
        ProcessConcat(peers, a[1..], b, caller);
      }
      assert Process(peers, ab, caller) == Handled(h2.peers, [reply] + (r1.replies + h2.replies), h2.ok) by {
        ProcessList(peers, ab, caller);
      }
      assert [reply] + (r1.replies + h2.replies) == [reply] + r1.replies + h2.replies;
    } else {
      var peers' := peers + [PeerInfo(caller, Int32Of(a[1..5]))];
      assert ab[0] == REGISTER && |ab| >= 5 && ab[1..5] == a[1..5] && ab[5..] == a[5..] + b;
      assert Process(peers, ab, caller) == Process(peers', a[5..] + b, caller);
      ProcessConcat(peers', a[5..], b, caller);
    }
  }

  /** A REGISTER appends exactly one entry, the caller's address with the
      announced port, at the end; no duplicate check is made. */
  lemma {:induction false} RegisterAppends(peers: seq<PeerInfo>, port: int32, rest: seq<byte>, caller: IPv4)
    ensures Process(peers, [REGISTER] + Int32Bytes(port) + rest, caller)
         == Process(peers + [PeerInfo(caller, port)], rest, caller)
  {
    var input := [REGISTER] + Int32Bytes(port) + rest;
    assert input[1..5] == Int32Bytes(port);
    Int32RoundTrip(port);
    assert input[5..] == rest;
  }

  /** A LIST leaves the table as it is and queues exactly one reply, the
      table's encoding, when at most 127 entries are listed. */
  lemma {:induction false} ListKeepsTable(peers: seq<PeerInfo>, caller: IPv4)
    ensures var h := Process(peers, [LIST], caller);
            && h.peers == peers
            && h.ok == (|peers| <= 127)
            && h.replies == (if |peers| <= 127 then [ListReply(peers).value] else [])
  {
    assert [LIST][1..] == [];
  }

  /** Requests as a `seq` of CHANGEOPS/OP_WRITE on one channel, one per reply. */
  function WriteRequests(ch: Channel, n: nat): (r: seq<ChangeRequest>)
    ensures |r| == n && forall i :: 0 <= i < n ==> r[i] == ChangeRequest(ch, ChangeOps, OP_WRITE)
  {
    if n == 0 then [] else WriteRequests(ch, n - 1) + [ChangeRequest(ch, ChangeOps, OP_WRITE)]
  }

  /** The Server state (`pending`, `reqs`) is the state (`pending0`,
      `reqs0`) after `send(ch, r)` for each reply r in `replies`, in order. */
  ghost predicate SentOn(pending0: map<Channel, seq<seq<byte>>>, reqs0: seq<ChangeRequest>,
                         pending: map<Channel, seq<seq<byte>>>, reqs: seq<ChangeRequest>,
                         ch: Channel, replies: seq<seq<byte>>)
  {
    && NetServer.QueueOf(pending, ch) == NetServer.QueueOf(pending0, ch) + replies
    && reqs == reqs0 + WriteRequests(ch, |replies|)
    && forall c :: c != ch ==> NetServer.QueueOf(pending, c) == NetServer.QueueOf(pending0, c)
  }

  /** The loop invariant of `handleRead`: while it goes on, what is left
      of the input handles the rest of `whole`; once it stops, `replies` and
      `peers` are all of it, and the answer is false. */
  ghost predicate Served(whole: Handled, peers: seq<PeerInfo>, unread: seq<byte>, caller: IPv4,
                         replies: seq<seq<byte>>, ok: bool)
  {
    if ok then
      var h := Process(peers, unread, caller);
      whole == Handled(h.peers, replies + h.replies, h.ok)
    else whole == Handled(peers, replies, false)
  }

  /** One request served keeps the loop invariant, with its reply added. */
  lemma {:induction false} ServedStep(whole: Handled, peers: seq<PeerInfo>, unread: seq<byte>,
                   peers': seq<PeerInfo>, unread': seq<byte>, caller: IPv4,
                   replies: seq<seq<byte>>, sent: seq<seq<byte>>, ok: bool)
    requires Served(whole, peers, unread, caller, replies, true)
    requires ok ==> var h := Process(peers', unread', caller);
                    Process(peers, unread, caller) == Handled(h.peers, sent + h.replies, h.ok)
    requires !ok ==> Process(peers, unread, caller) == Handled(peers', sent, false)
    ensures Served(whole, peers', unread', caller, replies + sent, ok)
  {
    if ok {
      var h := Process(peers', unread', caller);
      assert replies + (sent + h.replies) == (replies + sent) + h.replies;
    }
  }

  lemma {:induction false} SentOnStep(pending0: map<Channel, seq<seq<byte>>>, reqs0: seq<ChangeRequest>,
                   pending: map<Channel, seq<seq<byte>>>, reqs: seq<ChangeRequest>,
                   ch: Channel, replies: seq<seq<byte>>, reply: seq<byte>)
    requires SentOn(pending0, reqs0, pending, reqs, ch, replies)
    ensures SentOn(pending0, reqs0, pending[ch := NetServer.QueueOf(pending, ch) + [reply]],
                   reqs + [ChangeRequest(ch, ChangeOps, OP_WRITE)], ch, replies + [reply])
  {
    var pending' := pending[ch := NetServer.QueueOf(pending, ch) + [reply]];
    forall c | c != ch
      ensures NetServer.QueueOf(pending', c) == NetServer.QueueOf(pending0, c)
    {
      assert NetServer.QueueOf(pending', c) == NetServer.QueueOf(pending, c);
    }
  }

  lemma {:induction false} WriteRequestsAdd(ch: Channel, m: nat, n: nat)
    ensures WriteRequests(ch, m + n) == WriteRequests(ch, m) + WriteRequests(ch, n)
  {
  }

  /** Sends on `ch` compose: `replies` then `more` is `replies + more`. */
  lemma {:induction false} SentOnTrans(pending0: map<Channel, seq<seq<byte>>>, reqs0: seq<ChangeRequest>,
                    pending1: map<Channel, seq<seq<byte>>>, reqs1: seq<ChangeRequest>,
                    pending2: map<Channel, seq<seq<byte>>>, reqs2: seq<ChangeRequest>,
                    ch: Channel, replies: seq<seq<byte>>, more: seq<seq<byte>>)
    requires SentOn(pending0, reqs0, pending1, reqs1, ch, replies)
    requires SentOn(pending1, reqs1, pending2, reqs2, ch, more)
    ensures SentOn(pending0, reqs0, pending2, reqs2, ch, replies + more)
  {
    WriteRequestsAdd(ch, |replies|, |more|);
  }

  /** One LIST at the head of the input, when the reply fits. */
  lemma {:induction false} ProcessList(peers: seq<PeerInfo>, input: seq<byte>, caller: IPv4)
    requires input != [] && input[0] == LIST && |peers| <= 127
    ensures var rest := Process(peers, input[1..], caller);
            Process(peers, input, caller) == Handled(rest.peers, [ListReply(peers).value] + rest.replies, rest.ok)
  {
  }

  /** One REGISTER at the head of the input, when `getInt()` finds its port. */
  lemma {:induction false} ProcessRegister(peers: seq<PeerInfo>, input: seq<byte>, caller: IPv4)
    requires input != [] && input[0] == REGISTER && ReadInt32(input[1..]).Ok?
    ensures Process(peers, input, caller)
         == Process(peers + [PeerInfo(caller, ReadInt32(input[1..]).value)], input[5..], caller)
  {
    assert input[1..][..4] == input[1..5];
  }

  /** A put of `src` at the end of `front`, into a zero-filled tail of
      `z` bytes, moves the boundary between written bytes and zeros. */
  lemma {:induction false} PutIntoZeros(front: seq<byte>, z: nat, src: seq<byte>, after: seq<byte>)
    requires |src| <= z
    requires after == (front + Zeros(z))[..|front|] + src + (front + Zeros(z))[|front| + |src|..]
    ensures after == (front + src) + Zeros(z - |src|)
  {
    assert (front + Zeros(z))[..|front|] == front;
    assert (front + Zeros(z))[|front| + |src|..] == Zeros(z - |src|);
  }

  /** The first put into a zero-filled buffer of `z` bytes. */
  lemma {:induction false} FirstPut(after: seq<byte>, z: nat, src: seq<byte>)
    requires |src| <= z
    requires after == Zeros(z)[..0] + src + Zeros(z)[|src|..]
    ensures after == src + Zeros(z - |src|)
  {
    assert Zeros(z)[|src|..] == Zeros(z - |src|);
  }

  /** `out.put(address)` then `out.putInt(port)` for one entry, into a
      buffer whose bytes after `front` are still zero. */
  method PutEntry(out: ByteBuffer, p: PeerInfo, ghost front: seq<byte>) returns (ok: bool)
    requires out.Valid() && out.limit == out.data.Length && out.position == |front|
    requires out.data[..] == front + Zeros(out.data.Length - |front|)
    modifies out, out.data
    ensures out.Valid() && out.limit == old(out.limit)
    ensures ok <==> |front| + 8 <= out.data.Length
    ensures ok ==> (out.position == |front| + 8
                 && out.data[..] == front + EntryBytes(p) + Zeros(out.data.Length - |front| - 8))
  {
    var z := out.data.Length - |front|;
    ok := out.PutBytes(p.address);
    if !ok {
      return;
    }
    PutIntoZeros(front, z, p.address, out.data[..]);
    ok := out.PutInt(p.port);
    if !ok {
      return;
    }
    PutIntoZeros(front + p.address, z - 4, Int32Bytes(p.port), out.data[..]);
    assert front + p.address + Int32Bytes(p.port) == front + EntryBytes(p);
  }

  /** The LIST reply built in a fresh 1024-byte ByteBuffer: `putInt` of the
      table's size, then each entry; an overflowing put leaves no reply. */
  method EncodeList(peers: seq<PeerInfo>) returns (reply: Option<seq<byte>>)
    ensures reply == ListReply(peers)
  {
    var out := new ByteBuffer.Allocate(REPLY_SIZE);
    var count := Int32Wrap(|peers|);
    var ok := out.PutInt(count);
    FirstPut(out.data[..], REPLY_SIZE, Int32Bytes(count));
    assert peers[..0] == [];
    var i := 0;
    while i < |peers|
      invariant 0 <= i <= |peers| && 4 + 8 * i <= REPLY_SIZE
      invariant Filled(out, count, peers[..i])
    {
      ok := PutNextEntry(out, count, peers, i);
      if !ok {
        return None;
      }
      i := i + 1;
    }
    assert peers[..i] == peers;
    reply := Some(out.data[..]);
  }

  /** A reply buffer after `putInt(count)` and the entries of `done`: the
      bytes written, then zeros to the end, the cursor between them. */
  ghost predicate Filled(out: ByteBuffer, count: int32, done: seq<PeerInfo>)
    reads out, out.data
  {
    var written := Int32Bytes(count) + EntriesBytes(done);
    && out.Valid() && out.limit == REPLY_SIZE == out.data.Length
    && |written| <= REPLY_SIZE && out.position == |written|
    && out.data[..] == written + Zeros(REPLY_SIZE - |written|)
  }

  /** One pass of the entry loop: put `peers[i]`, or overflow when it does
      not fit. */
  method PutNextEntry(out: ByteBuffer, count: int32, peers: seq<PeerInfo>, i: nat) returns (ok: bool)
    requires i < |peers| && Filled(out, count, peers[..i])
    modifies out, out.data
    ensures ok <==> 4 + 8 * (i + 1) <= REPLY_SIZE
    ensures ok ==> Filled(out, count, peers[..i + 1])
  {
    ghost var written := Int32Bytes(count) + EntriesBytes(peers[..i]);
    ok := PutEntry(out, peers[i], written);
    if ok {
      assert written + EntryBytes(peers[i]) == Int32Bytes(count) + EntriesBytes(peers[..i + 1]) by {
        EntriesBytesSnoc(peers[..i], peers[i]);
        assert peers[..i + 1] == peers[..i] + [peers[i]];
      }
    }
  }

  class HybridCentralPoint {
    /** The table, in registration order (`m_peers`). */
    var peers: seq<PeerInfo>
    /** The Server the central point listens with (`m_server`). */
    const server: NetServer.Server

    ghost predicate Valid()
      reads this, server
    {
      server.Valid()
    }

    /** An empty table and a fresh Server on CENTRAL_PORT. */
    constructor ()
      ensures Valid() && fresh(server) && peers == []
      ensures server.pendingData == map[] && server.changeRequests == [] && server.keys == map[]
    {
      peers := [];
      server := new NetServer.Server();
    }

    /** `handleWrite` accepts every write. */
    method HandleWrite(ch: Channel, wrote: int) returns (accepted: bool)
      ensures accepted
    {
      accepted := true;
    }

    /** `handleConnection` accepts every client. */
    method HandleConnection(ch: Channel) returns (accepted: bool)
      ensures accepted
    {
      accepted := true;
    }

    /** `handleConnectionClose` lets every close go ahead. */
    method HandleConnectionClose(ch: Channel) returns (accepted: bool)
      ensures accepted
    {
      accepted := true;
    }

    /** A LIST request from channel `ch`: encode the table and, when it
        fits, `server.send(ch, reply)`. */
    method ServeList(ch: Channel) returns (sent: bool)
      requires Valid()
      modifies server
      ensures Valid()
      ensures sent <==> |peers| <= 127
      ensures sent ==> && server.pendingData == old(server.pendingData)[ch := NetServer.QueueOf(old(server.pendingData), ch) + [ListReply(peers).value]]
                       && server.changeRequests == old(server.changeRequests) + [ChangeRequest(ch, ChangeOps, OP_WRITE)]
      ensures !sent ==> server.pendingData == old(server.pendingData) && server.changeRequests == old(server.changeRequests)
      ensures server.keys == old(server.keys) && server.closed == old(server.closed)
      ensures server.accepting == old(server.accepting) && NetServer.SameWire(old(server.wire), server.wire)
    {
      var reply := EncodeList(peers);
      if reply.None? {
        return false;
      }
      server.Send(ch, reply.value);
      sent := true;
    }

    /** One pass of `handleRead`'s loop: `buf.get()` an opcode and serve
        it. On false the loop ends (an exception caught, or an unknown
        opcode) and nothing else was done; `sent` is the reply queued. */
    method ServeRequest(ch: Channel, buf: ByteBuffer, caller: IPv4) returns (ok: bool, ghost sent: seq<seq<byte>>)
      requires Valid() && buf.Valid() && buf.position < buf.limit
      modifies this, server, buf
      ensures Valid() && buf.Valid() && buf.limit == old(buf.limit) && buf.position > old(buf.position)
      ensures ok ==> var h := Process(peers, buf.Unread(), caller);
                     Process(old(peers), old(buf.Unread()), caller) == Handled(h.peers, sent + h.replies, h.ok)
      ensures !ok ==> Process(old(peers), old(buf.Unread()), caller) == Handled(peers, sent, false)
      ensures SentOn(old(server.pendingData), old(server.changeRequests),
                     server.pendingData, server.changeRequests, ch, sent)
      ensures server.keys == old(server.keys) && server.closed == old(server.closed)
      ensures server.accepting == old(server.accepting) && NetServer.SameWire(old(server.wire), server.wire)
    {
      ghost var input := buf.Unread();
      ghost var pending0, reqs0 := server.pendingData, server.changeRequests;
      sent := [];
      assert SentOn(pending0, reqs0, pending0, reqs0, ch, []);
      var request := buf.Get();
      assert buf.Unread() == input[1..];
      if request.value == LIST {
        ok := ServeList(ch);
        if ok {
          ProcessList(peers, input, caller);
          SentOnStep(pending0, reqs0, pending0, reqs0, ch, [], ListReply(peers).value);
          sent := [ListReply(peers).value];
        }
      } else if request.value == REGISTER {
        var port := buf.GetInt();
        ok := port.Ok?;
        if ok {
          ProcessRegister(peers, input, caller);
          assert buf.Unread() == input[5..];
          peers := peers + [PeerInfo(caller, port.value)];
        }
      } else {
        ok := false;
      }
    }

    /** `ServeRequest` as a step of `HandleRead`'s loop: `whole` is what
        the call handles in all, `replies` what was queued so far. */
    method ServeNext(ch: Channel, buf: ByteBuffer, caller: IPv4, ghost whole: Handled,
                     ghost pending0: map<Channel, seq<seq<byte>>>, ghost reqs0: seq<ChangeRequest>,
                     ghost replies: seq<seq<byte>>)
      returns (ghost replies': seq<seq<byte>>, ok: bool)
      requires Valid() && buf.Valid() && buf.position < buf.limit
      requires Served(whole, peers, buf.Unread(), caller, replies, true)
      requires SentOn(pending0, reqs0, server.pendingData, server.changeRequests, ch, replies)
      modifies this, server, buf
      ensures Valid() && buf.Valid() && buf.limit == old(buf.limit) && buf.position > old(buf.position)
      ensures Served(whole, peers, buf.Unread(), caller, replies', ok)
      ensures SentOn(pending0, reqs0, server.pendingData, server.changeRequests, ch, replies')
      ensures server.keys == old(server.keys) && server.closed == old(server.closed)
      ensures server.accepting == old(server.accepting) && NetServer.SameWire(old(server.wire), server.wire)
    {
      ghost var pending1, reqs1 := server.pendingData, server.changeRequests;
      ghost var sent;
      ok, sent := ServeRequest(ch, buf, caller);
      SentOnTrans(pending0, reqs0, pending1, reqs1, server.pendingData, server.changeRequests, ch, replies, sent);
      ServedStep(whole, old(peers), old(buf.Unread()), peers, buf.Unread(), caller, replies, sent, ok);
      replies' := replies + sent;
    }

    /** `handleRead(ch, buf, nread)` for a client at `caller`: loop while
        `buf` has bytes remaining, reading an opcode, and serve it. Each LIST
        reply goes to `server.send(ch, ...)`. The exceptions of an
        overflowing reply or a truncated port are caught and answer false,
        as does an unknown opcode. */
    method HandleRead(ch: Channel, buf: ByteBuffer, caller: IPv4) returns (ok: bool)
      requires Valid() && buf.Valid()
      modifies this, server, buf
      ensures Valid() && buf.Valid() && buf.limit == old(buf.limit)
      ensures ok ==> buf.position == buf.limit
      ensures var h := Process(old(peers), old(buf.Unread()), caller);
              && peers == h.peers && ok == h.ok
              && SentOn(old(server.pendingData), old(server.changeRequests),
                        server.pendingData, server.changeRequests, ch, h.replies)
      ensures server.keys == old(server.keys) && server.closed == old(server.closed)
      ensures server.accepting == old(server.accepting) && NetServer.SameWire(old(server.wire), server.wire)
    {
      ghost var replies: seq<seq<byte>> := [];
      ghost var whole := Process(peers, buf.Unread(), caller);
      ghost var pending0, reqs0 := server.pendingData, server.changeRequests;
      ghost var keys0, closed0, limit0 := server.keys, server.closed, buf.limit;
      assert SentOn(pending0, reqs0, pending0, reqs0, ch, []);
      ok := true;
      while ok && buf.position < buf.limit
        invariant Valid() && buf.Valid() && buf.limit == limit0
        invariant Served(whole, peers, buf.Unread(), caller, replies, ok)
        invariant SentOn(pending0, reqs0, server.pendingData, server.changeRequests, ch, replies)
        invariant server.keys == keys0 && server.closed == closed0
        invariant server.accepting == old(server.accepting) && NetServer.SameWire(old(server.wire), server.wire)
        decreases buf.limit - buf.position
      {
        replies, ok := ServeNext(ch, buf, caller, whole, pending0, reqs0, replies);
      }
      if ok {
        assert buf.Unread() == [];
      }
    }
  }
}
