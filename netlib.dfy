/** Vocabulary shared by the two reactors (netlib's Server and Connection):
    channels, selection keys, change requests (ChangeRequest.java), and the
    outbound write loop that both of them run over a FIFO of buffers. */
module Netlib {
  import opened Wire
  import Buffers

  /** A SocketChannel, by identity. */
  type Channel = nat

  // Interest-set bits of java.nio.channels.SelectionKey.
  const OP_READ: int := 1
  const OP_WRITE: int := 4
  const OP_CONNECT: int := 8
  const OP_ACCEPT: int := 16

  /** A channel's registration with the reactor's selector: its interest set,
      and whether it is still valid (a cancelled key stays known to `keyFor`). */
  datatype Key = Key(interest: int, valid: bool)

  /** How `ch.read(buffer)` on a selected channel ended: with an
      IOException, at end of stream, or with `bytes` waiting in the socket;
      and what `handleRead` answered when it was asked. */
  datatype ReadEvent = ReadFailed | EndOfStream | Received(bytes: seq<byte>, handled: bool)

  /** Both reactors read into `ByteBuffer.allocate(1024)`. */
  const READ_SIZE: nat := 1024

  /** `ByteBuffer.allocate(READ_SIZE)`, then `ch.read(buffer)` with `bytes`
      waiting in the socket: as many bytes as fit are put at the cursor,
      the rest stay in the socket, and the cursor ends after them. */
  method ReadInto(bytes: seq<byte>) returns (buf: Buffers.ByteBuffer, count: nat)
    ensures fresh(buf) && fresh(buf.data) && buf.Valid()
    ensures count == Min(|bytes|, READ_SIZE) && buf.position == count && buf.limit == READ_SIZE
    ensures buf.data[..] == bytes[..count] + Zeros(READ_SIZE - count)
  {
    buf := new Buffers.ByteBuffer.Allocate(READ_SIZE);
    count := Min(|bytes|, READ_SIZE);
    var ok := buf.PutBytes(bytes[..count]);
    assert Zeros(READ_SIZE)[count..] == Zeros(READ_SIZE - count);
  }

  /** `ChangeRequest.REGISTER` and `ChangeRequest.CHANGEOPS`. */
  datatype RequestType = Register | ChangeOps

  function TypeCode(t: RequestType): (code: int)
    ensures code == 1 <==> t == Register
    ensures code == 2 <==> t == ChangeOps
  {
    match t
    case Register => 1
    case ChangeOps => 2
  }

  /** A command queued for the reactor thread: register `socket` with
      interest `ops`, or set the interest of its key to `ops`. */
  datatype ChangeRequest = ChangeRequest(socket: Channel, kind: RequestType, ops: int)

  /** The key of `ch` with its interest set to `ops`. */
  function WithInterest(keys: map<Channel, Key>, ch: Channel, ops: int): (r: map<Channel, Key>)
    requires ch in keys
    ensures r.Keys == keys.Keys && r[ch] == Key(ops, keys[ch].valid)
    ensures forall c :: c in keys && c != ch ==> r[c] == keys[c]
  {
    keys[ch := Key(ops, keys[ch].valid)]
  }

  /** The key of `ch`, cancelled. */
  function Cancelled(keys: map<Channel, Key>, ch: Channel): (r: map<Channel, Key>)
    requires ch in keys
    ensures r.Keys == keys.Keys && r[ch] == Key(keys[ch].interest, false)
    ensures forall c :: c in keys && c != ch ==> r[c] == keys[c]
  {
    keys[ch := Key(keys[ch].interest, false)]
  }

  /** `list.remove(req)` for the first request on `ch`, if any. */
  function RemoveFirstOn(reqs: seq<ChangeRequest>, ch: Channel): (r: seq<ChangeRequest>)
    ensures (forall i :: 0 <= i < |reqs| ==> reqs[i].socket != ch) ==> r == reqs
    ensures (exists i :: 0 <= i < |reqs| && reqs[i].socket == ch) ==> |r| == |reqs| - 1
  {
    if reqs == [] then []
    else if reqs[0].socket == ch then reqs[1..]
    else [reqs[0]] + RemoveFirstOn(reqs[1..], ch)
  }

  /** The first request on `ch` is the one removed: the requests before it
      and after it stay, in order. */
  lemma {:induction false} RemoveFirstOnSplits(reqs: seq<ChangeRequest>, ch: Channel, i: nat)
    requires i < |reqs| && reqs[i].socket == ch
    requires forall j :: 0 <= j < i ==> reqs[j].socket != ch
    ensures RemoveFirstOn(reqs, ch) == reqs[..i] + reqs[i + 1..]
  {
    if i > 0 {
      RemoveFirstOnSplits(reqs[1..], ch, i - 1);
      assert reqs[..i] == [reqs[0]] + reqs[1..][..i - 1];
    }
  }

  /** How many requests in `reqs` are on `ch`. */
  function CountOn(reqs: seq<ChangeRequest>, ch: Channel): nat
  {
    if reqs == [] then 0 else (if reqs[0].socket == ch then 1 else 0) + CountOn(reqs[1..], ch)
  }

  /** Removing the first request on `ch` removes exactly one of them, and
      none on any other channel. */
  lemma {:induction false} RemoveFirstOnCounts(reqs: seq<ChangeRequest>, ch: Channel, other: Channel)
    ensures CountOn(RemoveFirstOn(reqs, ch), ch) == if CountOn(reqs, ch) == 0 then 0 else CountOn(reqs, ch) - 1
    ensures other != ch ==> CountOn(RemoveFirstOn(reqs, ch), other) == CountOn(reqs, other)
  {
    if reqs != [] {
      RemoveFirstOnCounts(reqs[1..], ch, other);
      if reqs[0].socket != ch {
        assert ([reqs[0]] + RemoveFirstOn(reqs[1..], ch))[1..] == RemoveFirstOn(reqs[1..], ch);
      }
    }
  }

  // ---------------------------------------------------------------------
  // The outbound queue of a channel and the write loop that drains it.
  //
  // A queued ByteBuffer is modelled by its unwritten bytes (from its
  // position to its limit): `ch.write(buf)` removes a prefix of them.

  /** All unwritten bytes of a queue, in the order they go on the wire. */
  function Flatten(q: seq<seq<byte>>): seq<byte>
  {
    if q == [] then [] else q[0] + Flatten(q[1..])
  }

  lemma {:induction false} FlattenAppend(q: seq<seq<byte>>, b: seq<byte>)
    ensures Flatten(q + [b]) == Flatten(q) + b
  {
    if q != [] {
      assert (q + [b])[1..] == q[1..] + [b];
      FlattenAppend(q[1..], b);
    } else {
      assert Flatten([b]) == b + Flatten([]);
    }
  }

  function Min(a: nat, b: nat): nat { if a <= b then a else b }

  /** What one pass of the write loop leaves: the queue, the bytes that
      went to the socket, and the count reported to `handleWrite`. */
  datatype Drained = Drained(queue: seq<seq<byte>>, written: seq<byte>, count: nat)

  /** The write loop over queue `q` when the socket's send buffer has `room`
      free bytes: each `ch.write(buf)` moves as many bytes as fit; a buffer
      with nothing left is removed from the front, the first one with bytes
      left stops the loop and stays at the front. The count is the sum of
      `buf.remaining()` after each write. */
  function Drain(q: seq<seq<byte>>, room: nat): (d: Drained)
    ensures d.count == if d.queue == [] then 0 else |d.queue[0]|
    ensures d.queue != [] ==> |d.queue[0]| > 0
    decreases |q|
  {
    if q == [] then Drained([], [], 0)
    else
      var k := Min(room, |q[0]|);
      if k < |q[0]| then Drained([q[0][k..]] + q[1..], q[0][..k], |q[0]| - k)
      else
        var rest := Drain(q[1..], room - k);
        Drained(rest.queue, q[0] + rest.written, rest.count)
  }

  /** The write loop sends exactly the first `room` unwritten bytes (or all
      of them), in queue order, and keeps the rest, in order. */
  lemma {:induction false} DrainWritesPrefix(q: seq<seq<byte>>, room: nat)
    ensures var n := Min(room, |Flatten(q)|);
            Drain(q, room).written == Flatten(q)[..n]
            && Flatten(Drain(q, room).queue) == Flatten(q)[n..]
  {
    if q != [] {
      var k := Min(room, |q[0]|);
      if k < |q[0]| {
        DrainStopsInHead(q, room);
      } else {
        DrainWritesPrefix(q[1..], room - k);
        DrainPastHead(q, room, Drain(q[1..], room - k));
      }
    }
  }

  /** A pass that stops inside the head buffer writes part of it. */
  lemma {:induction false} DrainStopsInHead(q: seq<seq<byte>>, room: nat)
    requires q != [] && room < |q[0]|
    ensures Drain(q, room).written == Flatten(q)[..room]
            && Flatten(Drain(q, room).queue) == Flatten(q)[room..]
  {
    var h, t := q[0], Flatten(q[1..]);
    assert Flatten(q) == h + t;
    assert Flatten([h[room..]] + q[1..]) == h[room..] + t;
    assert (h + t)[..room] == h[..room];
    assert (h + t)[room..] == h[room..] + t;
  }

  /** A pass that empties the head buffer goes on with the rest of the
      queue and the room left. */
  lemma {:induction false} DrainPastHead(q: seq<seq<byte>>, room: nat, rest: Drained)
    requires q != [] && |q[0]| <= room && rest == Drain(q[1..], room - |q[0]|)
    requires var n := Min(room - |q[0]|, |Flatten(q[1..])|);
             rest.written == Flatten(q[1..])[..n] && Flatten(rest.queue) == Flatten(q[1..])[n..]
    ensures var n := Min(room, |Flatten(q)|);
            Drain(q, room).written == Flatten(q)[..n] && Flatten(Drain(q, room).queue) == Flatten(q)[n..]
  {
    var h, t := q[0], Flatten(q[1..]);
    assert Flatten(q) == h + t;
    var m := Min(room - |h|, |t|);
    assert Min(room, |h + t|) == |h| + m;
    assert (h + t)[..|h| + m] == h + t[..m];
    assert (h + t)[|h| + m..] == t[m..];
  }

  /** The loop only ever removes buffers from the front: what is left is a
      suffix of the queue whose head may have been partly written. */
  lemma {:induction false} DrainKeepsSuffix(q: seq<seq<byte>>, room: nat)
    ensures var d := Drain(q, room);
            var i := |q| - |d.queue|;
            && |d.queue| <= |q|
            && (d.queue != [] ==>
                  && |d.queue[0]| <= |q[i]|
                  && d.queue[0] == q[i][|q[i]| - |d.queue[0]|..]
                  && d.queue[1..] == q[i + 1..])
  {
    if q != [] {
      var k := Min(room, |q[0]|);
      if k == |q[0]| {
        DrainKeepsSuffix(q[1..], room - k);
        var d := Drain(q[1..], room - k);
        var i := |q[1..]| - |d.queue|;
        if d.queue != [] {
          assert q[1..][i] == q[i + 1];
          assert q[1..][i + 1..] == q[i + 2..];
        }
      }
    }
  }

  /** With room for every unwritten byte the queue drains completely and
      the count reported is 0. */
  lemma {:induction false} DrainEmptiesWhenRoom(q: seq<seq<byte>>, room: nat)
    requires |Flatten(q)| <= room
    ensures Drain(q, room).queue == [] && Drain(q, room).count == 0
  {
    DrainWritesPrefix(q, room);
  }

  /** Cutting `f` after the first r1 bytes and then taking r2 more of the
      rest gives the first r1 + r2 bytes (or all of them). */
  lemma {:induction false} ResumeCut(f: seq<byte>, rest: seq<byte>, w1: seq<byte>, w2: seq<byte>, r1: nat, r2: nat)
    requires w1 == f[..Min(r1, |f|)] && rest == f[Min(r1, |f|)..]
    requires w2 == rest[..Min(r2, |rest|)]
    ensures w1 + w2 == f[..Min(r1 + r2, |f|)]
  {
    var n1, n2 := Min(r1, |f|), Min(r1 + r2, |f|);
    assert Min(r2, |rest|) == n2 - n1;
    assert rest[..n2 - n1] == f[n1..n2];
  }

  /** Partial writes resume where they stopped: two passes with room r1 and
      then r2 send the same bytes as one pass with room r1 + r2. */
  lemma {:induction false} ResumeAfterPartialWrite(q: seq<seq<byte>>, r1: nat, r2: nat)
    ensures var d1 := Drain(q, r1);
            var d2 := Drain(d1.queue, r2);
            d1.written + d2.written == Drain(q, r1 + r2).written
  {
    var f := Flatten(q);
    var d1 := Drain(q, r1);
    var rest := Flatten(d1.queue);
    var w2 := Drain(d1.queue, r2).written;
    assert d1.written == f[..Min(r1, |f|)] && rest == f[Min(r1, |f|)..] by {
      DrainWritesPrefix(q, r1);
    }
    assert w2 == rest[..Min(r2, |rest|)] by {
      DrainWritesPrefix(d1.queue, r2);
    }
    assert Drain(q, r1 + r2).written == f[..Min(r1 + r2, |f|)] by {
      DrainWritesPrefix(q, r1 + r2);
    }
    ResumeCut(f, rest, d1.written, w2, r1, r2);
  }
}
