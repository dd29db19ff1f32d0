/** netlib's Connection: the client-side reactor over one socket. Its run
    loop applies the queued change requests, then dispatches the selected
    key to `finishConnection`, `read` or `write`; other threads call `send`.

    Each operation is one atomic step. The listener's answers are parameters.
    Three defects of the code are modelled as written, each beside a
    corrected member:
    - `send` queues the caller's byte array, but `write` casts every queued
      element to ByteBuffer (ClassCastException);
    - the dialing constructor opens a socket but never stores it in
      `channel`, so the first event on it dereferences null;
    - the constructor that adopts an accepted socket never sets `listener`,
      so the first callback dereferences null. */
module NetConnection {
  import opened Wire
  import opened Netlib
  import Buffers

  /** An element of `pendingData`, a raw `List`: either the `byte[]` that
      `send` adds, or a ByteBuffer with its unwritten bytes. */
  datatype Pending = RawArray(bytes: seq<byte>) | Wrapped(unwritten: seq<byte>)

  /** The bytes an element holds that have not reached the socket. */
  function Content(p: Pending): seq<byte>
  {
    match p
    case RawArray(b) => b
    case Wrapped(b) => b
  }

  /** Everything still queued, in queue order. */
  function PendingBytes(q: seq<Pending>): seq<byte>
  {
    if q == [] then [] else Content(q[0]) + PendingBytes(q[1..])
  }

  lemma {:induction false} PendingBytesAppend(q: seq<Pending>, p: Pending)
    ensures PendingBytes(q + [p]) == PendingBytes(q) + Content(p)
  {
    if q != [] {
      assert (q + [p])[1..] == q[1..] + [p];
      PendingBytesAppend(q[1..], p);
    } else {
      assert PendingBytes([p]) == Content(p) + PendingBytes([]);
    }
  }

  /** A queue every element of which is a ByteBuffer. */
  ghost predicate AllWrapped(q: seq<Pending>)
  {
    forall i :: 0 <= i < |q| ==> q[i].Wrapped?
  }

  /** The buffers of an all-ByteBuffer queue, as the Server's queue holds them. */
  function Unwrap(q: seq<Pending>): (r: seq<seq<byte>>)
    requires AllWrapped(q)
    ensures |r| == |q| && forall i :: 0 <= i < |q| ==> r[i] == q[i].unwritten
  {
    if q == [] then [] else [q[0].unwritten] + Unwrap(q[1..])
  }

  /** What one pass of `write`'s loop leaves: the queue, the bytes written,
      the count for `handleWrite`, and the exception that ended it, if any. */
  datatype PendingDrained = PendingDrained(queue: seq<Pending>, written: seq<byte>, count: nat, fault: Option<Fault>)

  /** `write`'s loop over `pendingData`, with `room` free bytes in the
      socket's send buffer. Each element is cast to ByteBuffer first: a raw
      array raises ClassCastException. Then `channel.write(buf)` moves what
      fits, on a null `channel` (`connected` false) a NullPointerException.
      A buffer with bytes left stops the loop at the head; an empty one is
      removed. On an exception, the buffers already removed stay removed. */
  function DrainPending(q: seq<Pending>, room: nat, connected: bool): (d: PendingDrained)
    ensures |d.queue| <= |q|
    ensures d.fault.Some? ==> d.count == 0 && d.queue != [] && d.queue[0] == q[|q| - |d.queue|]
    ensures d.fault.Some? ==> (d.fault == Some(ClassCast) <==> d.queue[0].RawArray?)
    ensures d.fault.Some? ==> (d.fault == Some(NullPointer) <==> d.queue[0].Wrapped?)
    ensures d.fault.None? && d.queue != [] ==> d.queue[0].Wrapped? && d.count == |d.queue[0].unwritten| > 0
    ensures d.fault.None? && d.queue == [] ==> d.count == 0
    decreases |q|
  {
    if q == [] then PendingDrained([], [], 0, None)
    else
      match q[0]
      case RawArray(_) => PendingDrained(q, [], 0, Some(ClassCast))
      case Wrapped(b) =>
        if !connected then PendingDrained(q, [], 0, Some(NullPointer))
        else
          var k := Min(room, |b|);
          if k < |b| then PendingDrained([Wrapped(b[k..])] + q[1..], b[..k], |b| - k, None)
          else
            var rest := DrainPending(q[1..], room - k, connected);
            PendingDrained(rest.queue, b + rest.written, rest.count, rest.fault)
  }

  /** No byte is lost or duplicated: what was written, followed by what is
      still queued, is what was queued. */
  lemma {:induction false} DrainPendingConserves(q: seq<Pending>, room: nat, connected: bool)
    ensures var d := DrainPending(q, room, connected);
            d.written + PendingBytes(d.queue) == PendingBytes(q)
  {
    if q != [] && q[0].Wrapped? && connected {
      var b := q[0].unwritten;
      var k := Min(room, |b|);
      if k < |b| {
        assert PendingBytes([Wrapped(b[k..])] + q[1..]) == b[k..] + PendingBytes(q[1..]);
        assert b[..k] + b[k..] == b;
      } else {
        DrainPendingConserves(q[1..], room - k, connected);
      }
    }
  }

  /** On a queue of ByteBuffers and a connected channel, the loop is the
      Server's write loop: same queue left, same bytes written, same count. */
  lemma {:induction false} DrainPendingIsDrain(q: seq<Pending>, room: nat)
    requires AllWrapped(q)
    ensures var d := DrainPending(q, room, true);
            var e := Drain(Unwrap(q), room);
            && d.fault == None && AllWrapped(d.queue)
            && Unwrap(d.queue) == e.queue && d.written == e.written && d.count == e.count
  {
    if q != [] {
      var b := q[0].unwritten;
      var k := Min(room, |b|);
      assert Unwrap(q)[1..] == Unwrap(q[1..]);
      if k < |b| {
        var r := [Wrapped(b[k..])] + q[1..];
        assert Unwrap(r) == [b[k..]] + Unwrap(q[1..]);
      } else {
        DrainPendingIsDrain(q[1..], room - k);
      }
    }
  }

  /** As written: a byte array queued by `send` never leaves the queue. Every
      pass stops at it at the latest, so its bytes never reach the socket;
      once the buffers ahead of it are written, every pass raises
      ClassCastException. */
  lemma {:induction false} RawArrayNeverDrains(q: seq<Pending>, data: seq<byte>, room: nat)
    requires AllWrapped(q)
    ensures var d := DrainPending(q + [RawArray(data)], room, true);
            && d.queue != [] && d.queue[|d.queue| - 1] == RawArray(data)
            && (|PendingBytes(q)| <= room ==> d.fault == Some(ClassCast) && d.queue == [RawArray(data)])
  {
    var s := q + [RawArray(data)];
    if q == [] {
      assert s == [RawArray(data)];
    } else {
      assert s[1..] == q[1..] + [RawArray(data)];
      var b := q[0].unwritten;
      var k := Min(room, |b|);
      assert PendingBytes(q) == b + PendingBytes(q[1..]);
      if k == |b| {
        RawArrayNeverDrains(q[1..], data, room - k);
      }
    }
  }

  /** Corrected: with every element a ByteBuffer, data queued by a send is
      written out, after what was queued before it, once the socket has
      room for all of it. */
  lemma {:induction false} WrappedSendDrains(q: seq<Pending>, data: seq<byte>, room: nat)
    requires AllWrapped(q)
    requires |PendingBytes(q)| + |data| <= room
    ensures DrainPending(q + [Wrapped(data)], room, true) == PendingDrained([], PendingBytes(q) + data, 0, None)
  {
    var s := q + [Wrapped(data)];
    if q == [] {
      assert s == [Wrapped(data)];
      assert data[..|data|] == data;
    } else {
      assert s[1..] == q[1..] + [Wrapped(data)];
      var b := q[0].unwritten;
      assert PendingBytes(q) == b + PendingBytes(q[1..]);
      WrappedSendDrains(q[1..], data, room - |b|);
    }
  }

  // ---------------------------------------------------------------------
  // The change-request pass of `run`

  /** The pass over `changeRequests`: REGISTER registers the socket with its
      ops (a socket whose key was cancelled raises CancelledKeyException);
      CHANGEOPS sets the interest of the socket's key, raising
      NullPointerException when it has none and CancelledKeyException when
      it was cancelled. The pass stops at the first exception. */
  function ApplyConnectionChanges(keys: map<Channel, Key>, reqs: seq<ChangeRequest>): (r: (map<Channel, Key>, Outcome))
    ensures keys.Keys <= r.0.Keys
    ensures forall c :: c in r.0 && c !in keys ==> exists i :: 0 <= i < |reqs| && reqs[i].socket == c && reqs[i].kind == Register
    decreases |reqs|
  {
    if reqs == [] then (keys, Completed)
    else
      var c := reqs[0];
      if c.socket in keys && !keys[c.socket].valid then (keys, Raised(CancelledKey))
      else if c.kind == Register then
        var r := ApplyConnectionChanges(keys[c.socket := Key(c.ops, true)], reqs[1..]);
        assert forall i :: 0 <= i < |reqs| - 1 ==> reqs[1..][i] == reqs[i + 1];
        r
      else if c.socket !in keys then (keys, Raised(NullPointer))
      else
        var r := ApplyConnectionChanges(WithInterest(keys, c.socket, c.ops), reqs[1..]);
        assert forall i :: 0 <= i < |reqs| - 1 ==> reqs[1..][i] == reqs[i + 1];
        r
  }

  /** The ops of the last request on `ch`, of either kind, or `current`
      when there is none. */
  function LastSet(reqs: seq<ChangeRequest>, ch: Channel, current: int): int
    decreases |reqs|
  {
    if reqs == [] then current
    else if reqs[|reqs| - 1].socket == ch then reqs[|reqs| - 1].ops
    else LastSet(reqs[..|reqs| - 1], ch, current)
  }

  lemma {:induction false} LastSetCons(c: ChangeRequest, reqs: seq<ChangeRequest>, ch: Channel, current: int)
    ensures LastSet([c] + reqs, ch, current) == LastSet(reqs, ch, if c.socket == ch then c.ops else current)
    decreases |reqs|
  {
    if reqs != [] {
      assert ([c] + reqs)[..|reqs|] == [c] + reqs[..|reqs| - 1];
      LastSetCons(c, reqs[..|reqs| - 1], ch, current);
    } else {
      assert ([c] + reqs)[..0] == [];
    }
  }

  /** A completed pass leaves every key valid that it touched, and applies
      the requests in queue order: a key's interest is the ops of the last
      request on its channel. */
  lemma {:induction false} ConnectionChangesLastWins(keys: map<Channel, Key>, reqs: seq<ChangeRequest>, ch: Channel)
    requires ApplyConnectionChanges(keys, reqs).1 == Completed
    requires ch in ApplyConnectionChanges(keys, reqs).0
    ensures ApplyConnectionChanges(keys, reqs).0[ch].interest
         == LastSet(reqs, ch, if ch in keys then keys[ch].interest else 0)
    decreases |reqs|
  {
    if reqs != [] {
      var c := reqs[0];
      var keys' := if c.kind == Register then keys[c.socket := Key(c.ops, true)] else WithInterest(keys, c.socket, c.ops);
      assert ApplyConnectionChanges(keys, reqs) == ApplyConnectionChanges(keys', reqs[1..]);
      var current := if ch in keys then keys[ch].interest else 0;
      var current' := if ch in keys' then keys'[ch].interest else 0;
      assert current' == if c.socket == ch then c.ops else current;
      ConnectionChangesLastWins(keys', reqs[1..], ch);
      assert reqs == [c] + reqs[1..];
      LastSetCons(c, reqs[1..], ch, current);
    }
  }

  class Connection {
    /** The socket this connection reads and writes, or null. */
    var channel: Option<Channel>
    /** Whether `listener` was set (only the dialing constructor sets it). */
    const hasListener: bool
    /** Commands for the reactor thread, applied at the top of each loop. */
    var changeRequests: seq<ChangeRequest>
    /** The outbound queue. */
    var pendingData: seq<Pending>
    /** The selection key of every channel registered with the selector. */
    var keys: map<Channel, Key>
    /** The channels that were closed. */
    var closed: set<Channel>

    /** Every byte ever handed to `send`, in order. */
    ghost var queued: seq<byte>
    /** Every byte written to the socket, in order. */
    ghost var wire: seq<byte>

    /** FIFO: what reached the socket, followed by what is still queued, is
        exactly what was sent. */
    ghost predicate Valid()
      reads this
    {
      wire + PendingBytes(pendingData) == queued
    }

    /** As written: `Connection(hostAddress, port, listener)`. It sets the
        listener and calls `initiateConnection`, which opens socket `ch`,
        starts the connect and queues one REGISTER/OP_CONNECT for it, but
        discards `ch`: `channel` stays null. */
    constructor Dial(ch: Channel)
      ensures Valid() && channel == None && hasListener
      ensures changeRequests == [ChangeRequest(ch, Register, OP_CONNECT)]
      ensures pendingData == [] && keys == map[] && closed == {} && wire == []
    {
      channel, hasListener := None, true;
      changeRequests := [ChangeRequest(ch, Register, OP_CONNECT)];
      pendingData, keys, closed := [], map[], {};
      queued, wire := [], [];
    }

    /** Corrected: the dialing constructor stores the socket it opened. */
    constructor DialAssigned(ch: Channel)
      ensures Valid() && channel == Some(ch) && hasListener
      ensures changeRequests == [ChangeRequest(ch, Register, OP_CONNECT)]
      ensures pendingData == [] && keys == map[] && closed == {} && wire == []
    {
      channel, hasListener := Some(ch), true;
      changeRequests := [ChangeRequest(ch, Register, OP_CONNECT)];
      pendingData, keys, closed := [], map[], {};
      queued, wire := [], [];
    }

    /** As written: `Connection(SocketChannel ch)` adopts a connected socket
        and queues one REGISTER/OP_WRITE for it; `listener` stays null. */
    constructor Adopt(ch: Channel)
      ensures Valid() && channel == Some(ch) && !hasListener
      ensures changeRequests == [ChangeRequest(ch, Register, OP_WRITE)]
      ensures pendingData == [] && keys == map[] && closed == {} && wire == []
    {
      channel, hasListener := Some(ch), false;
      changeRequests := [ChangeRequest(ch, Register, OP_WRITE)];
      pendingData, keys, closed := [], map[], {};
      queued, wire := [], [];
    }

    /** Corrected: the adopting constructor also takes and sets the listener. */
    constructor AdoptWithListener(ch: Channel)
      ensures Valid() && channel == Some(ch) && hasListener
      ensures changeRequests == [ChangeRequest(ch, Register, OP_WRITE)]
      ensures pendingData == [] && keys == map[] && closed == {} && wire == []
    {
      channel, hasListener := Some(ch), true;
      changeRequests := [ChangeRequest(ch, Register, OP_WRITE)];
      pendingData, keys, closed := [], map[], {};
      queued, wire := [], [];
    }

    /** As written: `send(data)` appends the byte array itself to the tail of
        `pendingData`. Unlike Server's `send` it queues no change request. */
    method Send(data: seq<byte>)
      requires Valid()
      modifies this
      ensures Valid()
      ensures pendingData == old(pendingData) + [RawArray(data)]
      ensures queued == old(queued) + data && wire == old(wire)
      ensures changeRequests == old(changeRequests) && keys == old(keys)
      ensures channel == old(channel) && closed == old(closed)
    {
      PendingBytesAppend(pendingData, RawArray(data));
      pendingData := pendingData + [RawArray(data)];
      queued := queued + data;
    }

    /** Corrected: `send` appends `ByteBuffer.wrap(data)`, which the write
        loop can cast. */
    method SendBuffer(data: seq<byte>)
      requires Valid()
      modifies this
      ensures Valid()
      ensures pendingData == old(pendingData) + [Wrapped(data)]
      ensures queued == old(queued) + data && wire == old(wire)
      ensures changeRequests == old(changeRequests) && keys == old(keys)
      ensures channel == old(channel) && closed == old(closed)
    {
      PendingBytesAppend(pendingData, Wrapped(data));
      pendingData := pendingData + [Wrapped(data)];
      queued := queued + data;
    }

    /** The change-request pass of `run`: on completion every request has
        been applied in order and the list is cleared; on an exception the
        list is left as it was. */
    method ApplyChangeRequests() returns (outcome: Outcome)
      requires Valid()
      modifies this
      ensures Valid()
      ensures (keys, outcome) == ApplyConnectionChanges(old(keys), old(changeRequests))
      ensures changeRequests == if outcome == Completed then [] else old(changeRequests)
      ensures pendingData == old(pendingData) && channel == old(channel) && closed == old(closed)
      ensures queued == old(queued) && wire == old(wire)
    {
      var i := 0;
      while i < |changeRequests|
        invariant i <= |changeRequests|
        invariant changeRequests == old(changeRequests)
        invariant pendingData == old(pendingData) && channel == old(channel) && closed == old(closed)
        invariant queued == old(queued) && wire == old(wire)
        invariant ApplyConnectionChanges(old(keys), old(changeRequests)) == ApplyConnectionChanges(keys, changeRequests[i..])
      {
        var change := changeRequests[i];
        assert changeRequests[i..][1..] == changeRequests[i + 1..];
        if change.socket in keys && !keys[change.socket].valid {
          return Raised(CancelledKey);
        }
        if change.kind == Register {
          keys := keys[change.socket := Key(change.ops, true)];
        } else {
          if change.socket !in keys {
            return Raised(NullPointer);
          }
          keys := WithInterest(keys, change.socket, change.ops);
        }
        i := i + 1;
      }
      changeRequests := [];
      outcome := Completed;
    }

    /** `finishConnection(key)` for the selected valid key of channel `k`.
        `channel.finishConnect()` on a null channel raises
        NullPointerException. A failed connect (`connectOk` false) cancels
        the key and calls nobody. Otherwise the interest becomes OP_WRITE
        and then `handleConnection` is asked; a false answer closes the
        channel and cancels the key. */
    method FinishConnection(k: Channel, connectOk: bool, handled: bool) returns (outcome: Outcome)
      requires Valid() && k in keys && keys[k].valid
      modifies this
      ensures Valid()
      ensures channel == old(channel) && pendingData == old(pendingData) && changeRequests == old(changeRequests)
      ensures queued == old(queued) && wire == old(wire)
      ensures old(channel) == None ==>
                outcome == Raised(NullPointer) && keys == old(keys) && closed == old(closed)
      ensures old(channel) != None && !connectOk ==>
                outcome == Completed && keys == Cancelled(old(keys), k) && closed == old(closed)
      ensures old(channel) != None && connectOk && !hasListener ==>
                outcome == Raised(NullPointer) && keys == WithInterest(old(keys), k, OP_WRITE) && closed == old(closed)
      ensures old(channel) != None && connectOk && hasListener ==>
                && outcome == Completed
                && keys == (if handled then WithInterest(old(keys), k, OP_WRITE)
                            else Cancelled(WithInterest(old(keys), k, OP_WRITE), k))
                && closed == (if handled then old(closed) else old(closed) + {old(channel).value})
    {
      if channel.None? {
        return Raised(NullPointer);
      }
      if !connectOk {
        keys := Cancelled(keys, k);
        return Completed;
      }
      keys := WithInterest(keys, k, OP_WRITE);
      if !hasListener {
        return Raised(NullPointer);
      }
      if !handled {
        closed := closed + {channel.value};
        keys := Cancelled(keys, k);
      }
      outcome := Completed;
    }

    /** As written: `read(key)` for the selected valid key of channel `k`.
        A failed read cancels the key and closes the channel; end of stream,
        or a `handleRead` that answers false, closes the channel and cancels
        the key. No close callback is made. A null channel or a null
        listener raises NullPointerException. The buffer handed to
        `handleRead` (`delivered`) is never flipped: its unread part is the
        zeroed tail after the bytes received, not the bytes. */
    method Read(k: Channel, event: ReadEvent) returns (outcome: Outcome, delivered: Buffers.ByteBuffer?)
      requires Valid() && k in keys && keys[k].valid
      modifies this
      ensures Valid()
      ensures channel == old(channel) && pendingData == old(pendingData) && changeRequests == old(changeRequests)
      ensures queued == old(queued) && wire == old(wire)
      ensures var faults := old(channel) == None || (event.Received? && !hasListener);
              var closing := !faults && (event.ReadFailed? || event.EndOfStream? || !event.handled);
              && outcome == (if faults then Raised(NullPointer) else Completed)
              && keys == (if closing then Cancelled(old(keys), k) else old(keys))
              && closed == (if closing then old(closed) + {old(channel).value} else old(closed))
      ensures (delivered != null) == (old(channel).Some? && event.Received? && hasListener)
      ensures delivered != null ==>
                && fresh(delivered) && fresh(delivered.data) && delivered.Valid()
                && delivered.Unread() == Zeros(READ_SIZE - Min(|event.bytes|, READ_SIZE))
    {
      delivered := null;
      if channel.None? {
        return Raised(NullPointer), null;
      }
      if event.Received? {
        if !hasListener {
          return Raised(NullPointer), null;
        }
        var count;
        delivered, count := ReadInto(event.bytes);
        assert delivered.data[count..READ_SIZE] == Zeros(READ_SIZE - count);
      }
      if event.ReadFailed? || event.EndOfStream? || !event.handled {
        keys := Cancelled(keys, k);
        closed := closed + {channel.value};
      }
      outcome := Completed;
    }

    /** Corrected `read(key)`: as Read, but the buffer is flipped before
        `handleRead`, as `Server.read` does, so that its unread part is
        exactly the bytes received. */
    method ReadFlipped(k: Channel, event: ReadEvent) returns (outcome: Outcome, delivered: Buffers.ByteBuffer?)
      requires Valid() && k in keys && keys[k].valid
      modifies this
      ensures Valid()
      ensures channel == old(channel) && pendingData == old(pendingData) && changeRequests == old(changeRequests)
      ensures queued == old(queued) && wire == old(wire)
      ensures var faults := old(channel) == None || (event.Received? && !hasListener);
              var closing := !faults && (event.ReadFailed? || event.EndOfStream? || !event.handled);
              && outcome == (if faults then Raised(NullPointer) else Completed)
              && keys == (if closing then Cancelled(old(keys), k) else old(keys))
              && closed == (if closing then old(closed) + {old(channel).value} else old(closed))
      ensures (delivered != null) == (old(channel).Some? && event.Received? && hasListener)
      ensures delivered != null ==>
                && fresh(delivered) && fresh(delivered.data) && delivered.Valid()
                && delivered.Unread() == event.bytes[..Min(|event.bytes|, READ_SIZE)]
    {
      delivered := null;
      if channel.None? {
        return Raised(NullPointer), null;
      }
      if event.Received? {
        if !hasListener {
          return Raised(NullPointer), null;
        }
        var count;
        delivered, count := ReadInto(event.bytes);
        delivered.Flip();
      }
      if event.ReadFailed? || event.EndOfStream? || !event.handled {
        keys := Cancelled(keys, k);
        closed := closed + {channel.value};
      }
      outcome := Completed;
    }

    /** `write(key)` for the selected valid key of channel `k`, with `room`
        free bytes in the socket's send buffer. The loop drains
        `pendingData` (see DrainPending); if it ends normally the interest
        becomes OP_READ when the queue is empty, and `handleWrite` is told
        the count (`reported`); a false answer closes the channel and
        cancels the key. */
    method Write(k: Channel, room: nat, handled: bool) returns (outcome: Outcome, reported: Option<nat>)
      requires Valid() && k in keys && keys[k].valid
      modifies this
      ensures Valid()
      ensures channel == old(channel) && changeRequests == old(changeRequests) && queued == old(queued)
      ensures var d := DrainPending(old(pendingData), room, old(channel) != None);
              pendingData == d.queue && wire == old(wire) + d.written
      ensures var d := DrainPending(old(pendingData), room, old(channel) != None);
              d.fault != None ==>
                outcome == Raised(d.fault.value) && reported == None && keys == old(keys) && closed == old(closed)
      ensures var d := DrainPending(old(pendingData), room, old(channel) != None);
              var drainedKeys := if d.queue == [] then WithInterest(old(keys), k, OP_READ) else old(keys);
              d.fault == None && !hasListener ==>
                outcome == Raised(NullPointer) && reported == None && keys == drainedKeys && closed == old(closed)
      ensures var d := DrainPending(old(pendingData), room, old(channel) != None);
              var drainedKeys := if d.queue == [] then WithInterest(old(keys), k, OP_READ) else old(keys);
              d.fault == None && hasListener ==>
                && reported == Some(d.count)
                && (handled ==> outcome == Completed && keys == drainedKeys && closed == old(closed))
                && (!handled && old(channel) == None ==>
                      outcome == Raised(NullPointer) && keys == drainedKeys && closed == old(closed))
                && (!handled && old(channel) != None ==>
                      && outcome == Completed && keys == Cancelled(drainedKeys, k)
                      && closed == old(closed) + {old(channel).value})
    {
      var count, fault := Flush(room);
      if fault.Some? {
        return Raised(fault.value), None;
      }
      if pendingData == [] {
        keys := WithInterest(keys, k, OP_READ);
      }
      if !hasListener {
        return Raised(NullPointer), None;
      }
      reported := Some(count);
      if !handled {
        if channel.None? {
          return Raised(NullPointer), reported;
        }
        closed := closed + {channel.value};
        keys := Cancelled(keys, k);
      }
      outcome := Completed;
    }

    /** The write loop over `pendingData` with `room` free bytes in the
        socket's send buffer, and its bookkeeping. */
    method Flush(room: nat) returns (count: nat, fault: Option<Fault>)
      requires Valid()
      modifies this
      ensures Valid()
      ensures var d := DrainPending(old(pendingData), room, old(channel) != None);
              pendingData == d.queue && wire == old(wire) + d.written && count == d.count && fault == d.fault
      ensures queued == old(queued) && keys == old(keys) && changeRequests == old(changeRequests)
      ensures channel == old(channel) && closed == old(closed)
    {
      var queue, sent;
      queue, sent, count, fault := DrainPendingQueue(pendingData, room, channel.Some?);
      DrainPendingConserves(pendingData, room, channel.Some?);
      Commit(pendingData, queue, sent);
    }

    /** The bookkeeping of one pass of the write loop: the queue becomes
        what the pass left and the bytes it wrote join the wire. */
    method Commit(ghost q: seq<Pending>, queue: seq<Pending>, sent: seq<byte>)
      requires Valid() && q == pendingData
      requires sent + PendingBytes(queue) == PendingBytes(q)
      modifies this
      ensures Valid()
      ensures pendingData == queue && wire == old(wire) + sent
      ensures queued == old(queued) && keys == old(keys) && changeRequests == old(changeRequests)
      ensures channel == old(channel) && closed == old(closed)
    {
      pendingData := queue;
      wire := wire + sent;
    }
  }

  /** The loop of `write` over `pendingData`: cast the head to ByteBuffer,
      write it; if bytes are left in it, stop with it still at the head;
      otherwise remove it and go on. */
  method DrainPendingQueue(q: seq<Pending>, room: nat, connected: bool)
    returns (queue: seq<Pending>, sent: seq<byte>, count: nat, fault: Option<Fault>)
    ensures PendingDrained(queue, sent, count, fault) == DrainPending(q, room, connected)
  {
    queue := q;
    var left: nat := room;
    count, sent, fault := 0, [], None;
    var done := false;
    while !done && queue != []
      invariant done ==> DrainPending(q, room, connected) == PendingDrained(queue, sent, count, fault)
      invariant !done ==> var d := DrainPending(queue, left, connected);
                          DrainPending(q, room, connected)
                          == PendingDrained(d.queue, sent + d.written, count + d.count, d.fault)
      invariant !done ==> count == 0 && fault == None
      decreases |queue| + (if done then 0 else 1)
    {
      match queue[0]
      case RawArray(_) =>
        fault := Some(ClassCast);
        done := true;
      case Wrapped(buf) =>
        if !connected {
          fault := Some(NullPointer);
          done := true;
        } else {
          var k := Min(left, |buf|);
          sent := sent + buf[..k];
          left := left - k;
          count := count + (|buf| - k);
          if k < |buf| {
            queue := [Wrapped(buf[k..])] + queue[1..];
            done := true;
          } else {
            queue := queue[1..];
          }
        }
    }
  }

  // ---------------------------------------------------------------------
  // The three defects, each run on a fresh connection, as written and corrected

  /** As written: a dialed connection registers for OP_CONNECT, but when
      the connect completes `finishConnection` dereferences the null
      `channel`. */
  method DialThenConnect(ch: Channel, handled: bool) returns (outcome: Outcome)
    ensures outcome == Raised(NullPointer)
  {
    var c := new Connection.Dial(ch);
    var registered := c.ApplyChangeRequests();
    outcome := c.FinishConnection(ch, true, handled);
  }

  /** Corrected: the dialed connection completes its connect and switches
      to OP_WRITE (its key cancelled if `handleConnection` refuses). */
  method DialAssignedThenConnect(ch: Channel, handled: bool) returns (outcome: Outcome, c: Connection)
    ensures outcome == Completed && ch in c.keys && c.keys[ch] == Key(OP_WRITE, handled)
    ensures c.closed == if handled then {} else {ch}
  {
    c := new Connection.DialAssigned(ch);
    var registered := c.ApplyChangeRequests();
    outcome := c.FinishConnection(ch, true, handled);
  }

  /** As written: on a connected connection, `send` followed by `write`
      raises ClassCastException, whatever room the socket has. */
  method SendThenWrite(ch: Channel, data: seq<byte>, room: nat, handled: bool) returns (outcome: Outcome)
    ensures outcome == Raised(ClassCast)
  {
    var c := new Connection.DialAssigned(ch);
    var registered := c.ApplyChangeRequests();
    var connected := c.FinishConnection(ch, true, true);
    c.Send(data);
    RawArrayNeverDrains([], data, room);
    var reported;
    outcome, reported := c.Write(ch, room, handled);
  }

  /** Corrected: the wrapped data is written out in full, the count reported
      is 0 and the interest returns to OP_READ. */
  method SendBufferThenWrite(ch: Channel, data: seq<byte>, room: nat) returns (outcome: Outcome, reported: Option<nat>, c: Connection)
    requires |data| <= room
    ensures outcome == Completed && reported == Some(0)
    ensures c.wire == data && c.pendingData == [] && ch in c.keys && c.keys[ch] == Key(OP_READ, true)
  {
    c := new Connection.DialAssigned(ch);
    var registered := c.ApplyChangeRequests();
    var connected := c.FinishConnection(ch, true, true);
    c.SendBuffer(data);
    WrappedSendDrains([], data, room);
    outcome, reported := c.Write(ch, room, true);
  }

  /** As written: an adopted connection registers for OP_WRITE, so its
      first event is a write, whose count is reported to the null listener. */
  method AdoptThenWrite(ch: Channel, room: nat, handled: bool) returns (outcome: Outcome, reported: Option<nat>, c: Connection)
    ensures outcome == Raised(NullPointer) && reported == None
    ensures ch in c.keys && c.keys[ch] == Key(OP_READ, true) && c.closed == {}
  {
    c := new Connection.Adopt(ch);
    var registered := c.ApplyChangeRequests();
    outcome, reported := c.Write(ch, room, handled);
  }

  /** Corrected: with a listener, the first write reports an empty flush to
      it, and the channel turns to reading when it accepts. */
  method AdoptWithListenerThenWrite(ch: Channel, room: nat) returns (outcome: Outcome, reported: Option<nat>, c: Connection)
    ensures outcome == Completed && reported == Some(0)
    ensures ch in c.keys && c.keys[ch] == Key(OP_READ, true) && c.closed == {}
  {
    c := new Connection.AdoptWithListener(ch);
    var registered := c.ApplyChangeRequests();
    outcome, reported := c.Write(ch, room, true);
  }
}
