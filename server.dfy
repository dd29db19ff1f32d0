/** netlib's Server: the listening reactor. One thread runs `run()`, which
    applies the queued change requests, waits on the selector and dispatches
    accept / read / write; other threads call `send` and `close`.

    Each operation is one atomic step here. The listener's callbacks are
    the owner's code (Peer or HybridCentralPoint): the boolean each of them
    answers is a parameter of the step that calls it. */
module NetServer {
  import opened Wire
  import opened Netlib
  import Buffers

  /** The change-request pass at the top of the run loop. CHANGEOPS sets
      the interest of the channel's key; the switch has no REGISTER case, so
      REGISTER requests are skipped. A CHANGEOPS for a channel with no key
      raises NullPointerException and one for a cancelled key raises
      CancelledKeyException: the pass stops there, with the rest unapplied. */
  function ApplyChanges(keys: map<Channel, Key>, reqs: seq<ChangeRequest>): (r: (map<Channel, Key>, Outcome))
    ensures r.0.Keys == keys.Keys
    ensures forall c :: c in keys ==> r.0[c].valid == keys[c].valid
    decreases |reqs|
  {
    if reqs == [] then (keys, Completed)
    else
      var c := reqs[0];
      if c.kind == ChangeOps then
        if c.socket !in keys then (keys, Raised(NullPointer))
        else if !keys[c.socket].valid then (keys, Raised(CancelledKey))
        else ApplyChanges(WithInterest(keys, c.socket, c.ops), reqs[1..])
      else ApplyChanges(keys, reqs[1..])
  }

  /** The interest a completed pass leaves on `ch`: that of the last
      CHANGEOPS on `ch`, or the old one if there is none. */
  function LastOps(reqs: seq<ChangeRequest>, ch: Channel, current: int): int
    decreases |reqs|
  {
    if reqs == [] then current
    else if reqs[|reqs| - 1].socket == ch && reqs[|reqs| - 1].kind == ChangeOps then reqs[|reqs| - 1].ops
    else LastOps(reqs[..|reqs| - 1], ch, current)
  }

  /** A pass completes only when every CHANGEOPS names a registered,
      valid key. */
  lemma {:induction false} ApplyChangesNeedsValidKeys(keys: map<Channel, Key>, reqs: seq<ChangeRequest>, i: nat)
    requires ApplyChanges(keys, reqs).1 == Completed
    requires i < |reqs| && reqs[i].kind == ChangeOps
    ensures reqs[i].socket in keys && keys[reqs[i].socket].valid
  {
    var c := reqs[0];
    if i > 0 {
      if c.kind == ChangeOps {
        ApplyChangesNeedsValidKeys(WithInterest(keys, c.socket, c.ops), reqs[1..], i - 1);
      } else {
        ApplyChangesNeedsValidKeys(keys, reqs[1..], i - 1);
      }
    }
  }

  /** A completed pass applies the requests in queue order: each key ends
      with the interest of the last CHANGEOPS on its channel. */
  lemma {:induction false} ApplyChangesLastWins(keys: map<Channel, Key>, reqs: seq<ChangeRequest>, ch: Channel)
    requires ch in keys
    requires ApplyChanges(keys, reqs).1 == Completed
    ensures ApplyChanges(keys, reqs).0[ch].interest == LastOps(reqs, ch, keys[ch].interest)
    decreases |reqs|
  {
    if reqs != [] {
      var c := reqs[0];
      assert c.kind == ChangeOps ==> c.socket in keys && keys[c.socket].valid;
      var keys' := if c.kind == ChangeOps then WithInterest(keys, c.socket, c.ops) else keys;
      assert ApplyChanges(keys, reqs) == ApplyChanges(keys', reqs[1..]);
      assert keys'[ch].interest == if c.socket == ch && c.kind == ChangeOps then c.ops else keys[ch].interest;
      ApplyChangesLastWins(keys', reqs[1..], ch);
      assert reqs == [c] + reqs[1..];
      LastOpsCons(c, reqs[1..], ch, keys[ch].interest);
    }
  }

  lemma {:induction false} LastOpsCons(c: ChangeRequest, reqs: seq<ChangeRequest>, ch: Channel, current: int)
    ensures LastOps([c] + reqs, ch, current)
         == LastOps(reqs, ch, if c.socket == ch && c.kind == ChangeOps then c.ops else current)
    decreases |reqs|
  {
    if reqs != [] {
      assert ([c] + reqs)[..|reqs|] == [c] + reqs[..|reqs| - 1];
      LastOpsCons(c, reqs[..|reqs| - 1], ch, current);
    } else {
      assert ([c] + reqs)[..0] == [];
    }
  }

  /** Removing the first request on `ch` keeps every later one. */
  lemma {:induction false} RemoveFirstOnKeepsLater(reqs: seq<ChangeRequest>, ch: Channel, i: nat, j: nat)
    requires i < j < |reqs| && reqs[i].socket == ch
    ensures reqs[j] in RemoveFirstOn(reqs, ch)
  {
    if reqs[0].socket == ch {
      assert reqs[j] == reqs[1..][j - 1];
    } else {
      RemoveFirstOnKeepsLater(reqs[1..], ch, i - 1, j - 1);
    }
  }

  /** `close` removes only the first request on the channel: when two sends
      on it were still pending, the next pass meets the other CHANGEOPS on
      the cancelled key and does not complete. */
  lemma {:induction false} CloseLeavesStaleRequest(keys: map<Channel, Key>, reqs: seq<ChangeRequest>, ch: Channel, i: nat, j: nat)
    requires ch in keys
    requires i < j < |reqs| && reqs[i] == reqs[j] == ChangeRequest(ch, ChangeOps, OP_WRITE)
    ensures ApplyChanges(Cancelled(keys, ch), RemoveFirstOn(reqs, ch)).1 != Completed
  {
    var rest := RemoveFirstOn(reqs, ch);
    RemoveFirstOnKeepsLater(reqs, ch, i, j);
    var k :| 0 <= k < |rest| && rest[k] == reqs[j];
    if ApplyChanges(Cancelled(keys, ch), rest).1 == Completed {
      ApplyChangesNeedsValidKeys(Cancelled(keys, ch), rest, k);
    }
  }

  /** The outbound queue of `ch`, empty when there is none yet. */
  function QueueOf(pending: map<Channel, seq<seq<byte>>>, ch: Channel): seq<seq<byte>>
  {
    if ch in pending then pending[ch] else []
  }

  function BytesOf(m: map<Channel, seq<byte>>, ch: Channel): seq<byte>
  {
    if ch in m then m[ch] else []
  }

  /** Queuing leaves what already reached every socket alone. With the
      queues, this fixes the bytes each socket was handed (`Server.Valid`). */
  ghost predicate SameWire(before: map<Channel, seq<byte>>, after: map<Channel, seq<byte>>)
  {
    forall c :: BytesOf(after, c) == BytesOf(before, c)
  }

  /** The write loop of `write` over the queue of a channel: write the head
      buffer; if bytes are left in it, stop with it still at the head;
      otherwise remove it and go on. */
  method DrainQueue(q: seq<seq<byte>>, room: nat) returns (queue: seq<seq<byte>>, sent: seq<byte>, count: nat)
    ensures Drained(queue, sent, count) == Drain(q, room)
  {
    queue := q;
    var left: nat := room;
    count := 0;
    sent := [];
    var done := false;
    while !done && queue != []
      invariant done ==> Drain(q, room) == Drained(queue, sent, count)
      invariant !done ==> var d := Drain(queue, left);
                          Drain(q, room) == Drained(d.queue, sent + d.written, count + d.count)
      invariant !done ==> count == 0
      decreases |queue| + (if done then 0 else 1)
    {
      var buf := queue[0];
      var k := Min(left, |buf|);
      sent := sent + buf[..k];
      buf := buf[k..];
      left := left - k;
      count := count + |buf|;
      if |buf| > 0 {
        queue := [buf] + queue[1..];
        done := true;
      } else {
        queue := queue[1..];
      }
    }
  }

  /** Per-channel FIFO over the queues `pending`, the bytes sent `queued`
      and the bytes written `wire`. */
  ghost predicate Consistent(pending: map<Channel, seq<seq<byte>>>, queued: map<Channel, seq<byte>>,
                             wire: map<Channel, seq<byte>>)
  {
    && pending.Keys == queued.Keys == wire.Keys
    && forall ch :: ch in pending ==> wire[ch] + Flatten(pending[ch]) == queued[ch]
  }

  /** Replacing one channel's entries by entries that agree keeps the
      FIFO of every channel. */
  lemma {:induction false} ConsistentUpdate(pending: map<Channel, seq<seq<byte>>>, queued: map<Channel, seq<byte>>,
                         wire: map<Channel, seq<byte>>, ch: Channel,
                         q: seq<seq<byte>>, sent: seq<byte>, written: seq<byte>)
    requires Consistent(pending, queued, wire)
    requires written + Flatten(q) == sent
    ensures Consistent(pending[ch := q], queued[ch := sent], wire[ch := written])
  {
  }

  /** A pass of the write loop moves bytes from the queue to the wire
      without losing, adding or reordering any. */
  lemma {:induction false} DrainKeepsBytes(q: seq<seq<byte>>, room: nat, written: seq<byte>)
    ensures var d := Drain(q, room);
            written + d.written + Flatten(d.queue) == written + Flatten(q)
  {
    var d := Drain(q, room);
    DrainWritesPrefix(q, room);
    RejoinCut(written, d.written, Flatten(d.queue), Flatten(q), Min(room, |Flatten(q)|));
  }

  /** Bytes cut at `n` and put back in order after `w` are `w + f` again. */
  lemma {:induction false} RejoinCut(w: seq<byte>, a: seq<byte>, b: seq<byte>, f: seq<byte>, n: nat)
    requires n <= |f| && a == f[..n] && b == f[n..]
    ensures w + a + b == w + f
  {
    assert a + b == f;
  }

  class Server {
    /** The outbound queue of each channel that has had a `send`. */
    var pendingData: map<Channel, seq<seq<byte>>>
    /** Commands for the reactor thread, applied at the top of each loop. */
    var changeRequests: seq<ChangeRequest>
    /** The selection key of every channel registered with the selector. */
    var keys: map<Channel, Key>
    /** The channels that were closed. */
    var closed: set<Channel>
    /** Whether the listening socket's key is still valid. */
    var accepting: bool

    /** Every byte ever handed to `send` for each channel, in order. */
    ghost var queued: map<Channel, seq<byte>>
    /** Every byte written to each channel's socket, in order. */
    ghost var wire: map<Channel, seq<byte>>

    /** Per-channel FIFO: what reached the socket, followed by what is
        still queued, is exactly what was sent. */
    ghost predicate Valid()
      reads this
    {
      Consistent(pendingData, queued, wire)
    }

    /** A server whose listening socket is bound and registered for OP_ACCEPT. */
    constructor ()
      ensures Valid()
      ensures pendingData == map[] && changeRequests == [] && keys == map[]
      ensures closed == {} && accepting
    {
      pendingData, changeRequests, keys, closed, accepting := map[], [], map[], {}, true;
      queued, wire := map[], map[];
    }

    /** `accept`: the new channel is registered for OP_READ and
        `handleConnection` is asked about it. A refusal closes the new
        channel and cancels the key that was selected, which is the
        listening socket's. */
    method Accept(ch: Channel, handled: bool)
      requires Valid() && ch !in keys
      modifies this
      ensures Valid()
      ensures keys == old(keys)[ch := Key(OP_READ, handled)]
      ensures closed == if handled then old(closed) else old(closed) + {ch}
      ensures accepting == (old(accepting) && handled)
      ensures pendingData == old(pendingData) && changeRequests == old(changeRequests)
      ensures queued == old(queued) && wire == old(wire)
    {
      keys := keys[ch := Key(OP_READ, true)];
      if !handled {
        closed := closed + {ch};
        keys := Cancelled(keys, ch);
        accepting := false;
      }
    }

    /** `send(ch, data)`: queue a CHANGEOPS to OP_WRITE for `ch` and append
        `data` at the tail of its queue, creating the queue if absent. */
    method Send(ch: Channel, data: seq<byte>)
      requires Valid()
      modifies this
      ensures Valid()
      ensures changeRequests == old(changeRequests) + [ChangeRequest(ch, ChangeOps, OP_WRITE)]
      ensures pendingData == old(pendingData)[ch := QueueOf(old(pendingData), ch) + [data]]
      ensures queued == old(queued)[ch := BytesOf(old(queued), ch) + data]
      ensures wire == old(wire)[ch := BytesOf(old(wire), ch)]
      ensures keys == old(keys) && closed == old(closed) && accepting == old(accepting)
    {
      changeRequests := changeRequests + [ChangeRequest(ch, ChangeOps, OP_WRITE)];
      var queue := QueueOf(pendingData, ch);
      assert BytesOf(wire, ch) + Flatten(queue + [data]) == BytesOf(queued, ch) + data by {
        FlattenAppend(queue, data);
        assert BytesOf(wire, ch) + Flatten(queue) == BytesOf(queued, ch);
      }
      ConsistentUpdate(pendingData, queued, wire, ch, queue + [data], BytesOf(queued, ch) + data, BytesOf(wire, ch));
      pendingData := pendingData[ch := queue + [data]];
      queued := queued[ch := BytesOf(queued, ch) + data];
      wire := wire[ch := BytesOf(wire, ch)];
    }

    /** `close(ch)`: when `handleConnectionClose` agrees, close the socket,
        cancel its key and drop the first change request on it. The queue
        of `ch` stays. A channel never registered has no key: NullPointerException. */
    method Close(ch: Channel, proceed: bool) returns (outcome: Outcome)
      requires Valid()
      modifies this
      ensures Valid()
      ensures pendingData == old(pendingData) && accepting == old(accepting)
      ensures queued == old(queued) && wire == old(wire)
      ensures closed == if proceed then old(closed) + {ch} else old(closed)
      ensures !proceed ==> outcome == Completed && keys == old(keys) && changeRequests == old(changeRequests)
      ensures proceed && ch !in old(keys) ==>
                outcome == Raised(NullPointer) && keys == old(keys) && changeRequests == old(changeRequests)
      ensures proceed && ch in old(keys) ==>
                && outcome == Completed
                && keys == Cancelled(old(keys), ch)
                && changeRequests == RemoveFirstOn(old(changeRequests), ch)
    {
      if !proceed {
        return Completed;
      }
      closed := closed + {ch};
      if ch !in keys {
        return Raised(NullPointer);
      }
      keys := Cancelled(keys, ch);
      changeRequests := RemoveFirstOn(changeRequests, ch);
      outcome := Completed;
    }

    /** `read` on a selected channel: a failed read, end of stream, or a
        `handleRead` that answers false each lead to `close(ch)`, which
        `handleConnectionClose` (answering `proceed`) may veto. The buffer
        is flipped before it is handed to `handleRead` (`delivered`), so
        its unread part is exactly the bytes received. */
    method Read(ch: Channel, event: ReadEvent, proceed: bool) returns (delivered: Buffers.ByteBuffer?)
      requires Valid() && ch in keys && keys[ch].valid
      modifies this
      ensures Valid()
      ensures var closing := proceed && (event.ReadFailed? || event.EndOfStream? || !event.handled);
              && closed == (if closing then old(closed) + {ch} else old(closed))
              && keys == (if closing then Cancelled(old(keys), ch) else old(keys))
              && changeRequests == (if closing then RemoveFirstOn(old(changeRequests), ch) else old(changeRequests))
      ensures pendingData == old(pendingData) && accepting == old(accepting)
      ensures queued == old(queued) && wire == old(wire)
      ensures (delivered != null) == event.Received?
      ensures delivered != null ==>
                && fresh(delivered) && fresh(delivered.data) && delivered.Valid()
                && delivered.Unread() == event.bytes[..Min(|event.bytes|, READ_SIZE)]
    {
      delivered := null;
      if event.Received? {
        var count;
        delivered, count := ReadInto(event.bytes);
        delivered.Flip();
      }
      if event.ReadFailed? || event.EndOfStream? || !event.handled {
        var _ := Close(ch, proceed);
      }
    }

    /** `write` on a selected channel with `room` free bytes in the socket's
        send buffer. With no queue it returns at once (`reported` is None).
        Otherwise it runs the write loop, sets the interest to OP_READ if the
        queue drained, and reports the count to `handleWrite`, whose false
        answer leads to `close(ch)`. */
    method Write(ch: Channel, room: nat, handled: bool, proceed: bool) returns (reported: Option<nat>)
      requires Valid() && ch in keys && keys[ch].valid
      modifies this
      ensures Valid()
      ensures ch !in old(pendingData) ==>
                && reported == None && pendingData == old(pendingData) && keys == old(keys)
                && changeRequests == old(changeRequests) && closed == old(closed) && wire == old(wire)
      ensures ch in old(pendingData) ==>
                var d := Drain(old(pendingData[ch]), room);
                var drainedKeys := if d.queue == [] then WithInterest(old(keys), ch, OP_READ) else old(keys);
                var closing := !handled && proceed;
                && reported == Some(d.count)
                && pendingData == old(pendingData)[ch := d.queue]
                && wire == old(wire)[ch := old(wire[ch]) + d.written]
                && keys == (if closing then Cancelled(drainedKeys, ch) else drainedKeys)
                && changeRequests == (if closing then RemoveFirstOn(old(changeRequests), ch) else old(changeRequests))
                && closed == (if closing then old(closed) + {ch} else old(closed))
      ensures accepting == old(accepting) && queued == old(queued)
    {
      if ch !in pendingData {
        return None;
      }
      var queue, sent, count := DrainQueue(pendingData[ch], room);
      Commit(ch, room, queue, sent);
      if queue == [] {
        keys := WithInterest(keys, ch, OP_READ);
      }
      reported := Some(count);
      if !handled {
        var _ := Close(ch, proceed);
      }
    }

    /** The bookkeeping of one pass of the write loop: the channel's queue
        becomes what the pass left and the bytes it wrote join the wire. */
    method Commit(ch: Channel, room: nat, queue: seq<seq<byte>>, sent: seq<byte>)
      requires Valid() && ch in pendingData
      requires Drain(pendingData[ch], room).queue == queue && Drain(pendingData[ch], room).written == sent
      modifies this
      ensures Valid()
      ensures pendingData == old(pendingData)[ch := queue] && wire == old(wire)[ch := old(wire[ch]) + sent]
      ensures queued == old(queued) && keys == old(keys) && changeRequests == old(changeRequests)
      ensures closed == old(closed) && accepting == old(accepting)
    {
      DrainKeepsBytes(pendingData[ch], room, wire[ch]);
      ConsistentUpdate(pendingData, queued, wire, ch, queue, queued[ch], wire[ch] + sent);
      pendingData := pendingData[ch := queue];
      wire := wire[ch := wire[ch] + sent];
    }

    /** The change-request pass of `run`: on completion every request has
        been applied in order and the list is empty; on an exception the
        list is left as it was. */
    method ApplyChangeRequests() returns (outcome: Outcome)
      requires Valid()
      modifies this
      ensures Valid()
      ensures (keys, outcome) == ApplyChanges(old(keys), old(changeRequests))
      ensures changeRequests == if outcome == Completed then [] else old(changeRequests)
      ensures pendingData == old(pendingData) && closed == old(closed) && accepting == old(accepting)
      ensures queued == old(queued) && wire == old(wire)
    {
      var i := 0;
      while i < |changeRequests|
        invariant i <= |changeRequests|
        invariant changeRequests == old(changeRequests) && keys.Keys == old(keys).Keys
        invariant pendingData == old(pendingData) && queued == old(queued) && wire == old(wire)
        invariant closed == old(closed) && accepting == old(accepting)
        invariant ApplyChanges(old(keys), old(changeRequests)) == ApplyChanges(keys, changeRequests[i..])
      {
        var change := changeRequests[i];
        assert changeRequests[i..][1..] == changeRequests[i + 1..];
        if change.kind == ChangeOps {
          if change.socket !in keys {
            return Raised(NullPointer);
          }
          if !keys[change.socket].valid {
            return Raised(CancelledKey);
          }
          keys := WithInterest(keys, change.socket, change.ops);
        }
        i := i + 1;
      }
      changeRequests := [];
      outcome := Completed;
    }
  }
}
