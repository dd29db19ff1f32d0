/** The peer wire format (Peer.java) and the peer side of the rendezvous
    protocol.

    A frame between peers is an opcode byte, the string's length as a
    4-byte big-endian int, then each UTF-16 code unit of the string as 2
    big-endian bytes. A string of length 0 reads back as null. */
module PeerCodec {
  import opened Wire
  import opened Buffers
  import CentralPoint

  /** Opcodes of peer frames. */
  const MESSAGE: byte := 0x1A
  const NAME: byte := 0x1B

  /** The longest string whose frame size `len * 2 + 5` is still an `int`. */
  const MAX_FRAME_STRING: nat := 0x3FFF_FFFD

  /** What `putString(buffer, s, s.length())` writes. */
  function EncodeString(s: String16): (r: seq<byte>)
    requires |s| <= MAX_FRAME_STRING
    ensures |r| == 4 + 2 * |s|
  {
    Int32Bytes(|s|) + EncodeUnits(s)
  }

  /** What `mkbuffer(op, s, s.length())` holds. */
  function Frame(op: byte, s: String16): (r: seq<byte>)
    requires |s| <= MAX_FRAME_STRING
  {
    [op] + EncodeString(s)
  }

  /** The layout of a frame: 2n+5 bytes; the opcode, n as 4 big-endian
      bytes, then code unit i as 2 big-endian bytes at offset 5 + 2i. */
  lemma {:induction false} FrameLayout(op: byte, s: String16, i: nat)
    requires |s| <= MAX_FRAME_STRING && i < |s|
    ensures var f := Frame(op, s);
            && |f| == 2 * |s| + 5
            && f[0] == op && f[1..5] == Int32Bytes(|s|)
            && f[5 + 2 * i..7 + 2 * i] == Char16Bytes(s[i])
  {
    EncodeUnitsAt(s, i);
    var f := Frame(op, s);
    assert f[5..] == EncodeUnits(s);
  }

  lemma {:induction false} EncodeUnitsAt(s: String16, i: nat)
    requires i < |s|
    ensures EncodeUnits(s)[2 * i..2 * i + 2] == Char16Bytes(s[i])
  {
    var e, t := EncodeUnits(s), EncodeUnits(s[1..]);
    assert e == Char16Bytes(s[0]) + t;
    if i > 0 {
      EncodeUnitsAt(s[1..], i - 1);
      assert s[1..][i - 1] == s[i];
      assert e[2 * i..2 * i + 2] == t[2 * (i - 1)..2 * (i - 1) + 2];
    }
  }

  /** A decoded string: the string (None for null) and the bytes it took. */
  datatype Decoded = Decoded(text: Option<String16>, size: nat)

  /** What `getString(buffer)` reads from the unread bytes `b`: the length;
      0 gives null; a negative length makes `new char[len]` throw; too few
      bytes for the declared length make `getChar` throw. */
  function DecodeString(b: seq<byte>): (r: Result<Decoded>)
    ensures r.Ok? ==> 4 <= r.value.size <= |b|
    ensures r.Ok? && r.value.text.Some? ==> r.value.size == 4 + 2 * |r.value.text.value| && |r.value.text.value| > 0
    ensures r.Ok? && r.value.text.None? ==> r.value.size == 4
  {
    match ReadInt32(b)
    case Err(f) => Err(f)
    case Ok(len) => DecodeBody(b, len)
  }

  /** The part of `getString` after the length `len` was read from the
      first four bytes of `b`. */
  function DecodeBody(b: seq<byte>, len: int32): (r: Result<Decoded>)
    requires |b| >= 4
    ensures r.Ok? ==> 4 <= r.value.size <= |b|
    ensures r.Ok? && r.value.text.Some? ==> r.value.size == 4 + 2 * |r.value.text.value| && |r.value.text.value| > 0
    ensures r.Ok? && r.value.text.None? ==> r.value.size == 4
  {
    if len == 0 then Ok(Decoded(None, 4))
    else if len < 0 then Err(NegativeArraySize)
    else if |b| < 4 + 2 * len then Err(BufferUnderflow)
    else Ok(Decoded(Some(DecodeUnits(b[4..4 + 2 * len])), 4 + 2 * len))
  }

  /** `getString` reads back what `putString` wrote, and exactly those
      bytes: the string itself, or null for the empty string. */
  lemma {:induction false} StringRoundTrip(s: String16, rest: seq<byte>)
    requires |s| <= MAX_FRAME_STRING
    ensures DecodeString(EncodeString(s) + rest)
         == Ok(Decoded(if s == [] then None else Some(s), 4 + 2 * |s|))
  {
    var b := EncodeString(s) + rest;
    assert b[..4] == Int32Bytes(|s|);
    Int32RoundTrip(|s|);
    assert b[4..4 + 2 * |s|] == EncodeUnits(s);
    UnitsRoundTrip(s);
  }

  /** A declared length beyond the bytes present is an underflow. */
  lemma {:induction false} TruncatedStringUnderflows(b: seq<byte>)
    requires |b| >= 4 && Int32Of(b[..4]) > 0 && |b| < 4 + 2 * Int32Of(b[..4])
    ensures DecodeString(b) == Err(BufferUnderflow)
  {
    assert ReadInt32(b) == Ok(Int32Of(b[..4]));
  }

  /** `putString(buffer, s, s.length())`: `putInt` the length, then
      `putChar` each code unit. Its one caller allocates exactly the room
      it needs. */
  method PutString(out: ByteBuffer, s: String16)
    requires out.Valid() && |s| <= MAX_FRAME_STRING
    requires 4 + 2 * |s| <= out.Remaining()
    modifies out, out.data
    ensures out.Valid() && out.limit == old(out.limit)
    ensures out.position == old(out.position) + 4 + 2 * |s|
    ensures out.data[..] == old(out.data[..out.position]) + EncodeString(s)
                            + old(out.data[out.position + 4 + 2 * |s|..])
  {
    ghost var before := out.data[..];
    ghost var p0 := out.position;
    var ok := out.PutInt(|s|);
    assert before[p0..][4..] == before[p0 + 4..];
    ghost var mid := out.data[..];
    PutUnits(out, s);
    AdvanceCursor(mid, out.data[..], before[..p0], Int32Bytes(|s|), before[p0..], EncodeUnits(s));
    assert before[p0..][4 + 2 * |s|..] == before[p0 + 4 + 2 * |s|..];
  }

  /** The `putChar` loop of `putString`. */
  method PutUnits(out: ByteBuffer, s: String16)
    requires out.Valid() && 2 * |s| <= out.Remaining()
    modifies out, out.data
    ensures out.Valid() && out.limit == old(out.limit)
    ensures out.position == old(out.position) + 2 * |s|
    ensures out.data[..] == old(out.data[..out.position]) + EncodeUnits(s)
                            + old(out.data[out.position + 2 * |s|..])
  {
    ghost var front := out.data[..out.position];
    ghost var tail := out.data[out.position..];
    ghost var limit0 := out.limit;
    var i := 0;
    while i < |s|
      invariant 0 <= i <= |s| && 2 * |s| <= |tail|
      invariant out.Valid() && out.limit == limit0 && |front| + 2 * |s| <= limit0
      invariant Cursor(out, front, EncodeUnits(s[..i]), tail)
    {
      PutNextUnit(out, s, i, front, tail);
      i := i + 1;
    }
    assert s[..i] == s;
  }

  /** `out` holds `front`, then the bytes written so far, then what is
      left of `tail`; its position is just after the written bytes. */
  ghost predicate Cursor(out: ByteBuffer, front: seq<byte>, written: seq<byte>, tail: seq<byte>)
    reads out, out.data
  {
    && |written| <= |tail|
    && out.position == |front| + |written|
    && out.data[..] == front + written + tail[|written|..]
  }

  /** One pass of the `putChar` loop of `putString`. */
  method PutNextUnit(out: ByteBuffer, s: String16, i: nat, ghost front: seq<byte>, ghost tail: seq<byte>)
    requires i < |s| && 2 * |s| <= |tail|
    requires out.Valid() && Cursor(out, front, EncodeUnits(s[..i]), tail) && |front| + 2 * |s| <= out.limit
    modifies out, out.data
    ensures out.Valid() && out.limit == old(out.limit)
    ensures Cursor(out, front, EncodeUnits(s[..i + 1]), tail)
  {
    ghost var written := EncodeUnits(s[..i]);
    ghost var d := out.data[..];
    var ok := out.PutChar(s[i]);
    AdvanceCursor(d, out.data[..], front, written, tail, Char16Bytes(s[i]));
    EncodeUnitsPrefix(s, i);
  }

  /** A put of `c` at a cursor that already wrote `written` over `tail`
      after `front`: the written bytes grow by `c`, the rest of the tail
      stays. */
  lemma {:induction false} AdvanceCursor(d: seq<byte>, d': seq<byte>, front: seq<byte>, written: seq<byte>,
                      tail: seq<byte>, c: seq<byte>)
    requires |written| + |c| <= |tail| && d == front + written + tail[|written|..]
    requires d' == d[..|front| + |written|] + c + d[|front| + |written| + |c|..]
    ensures d' == front + (written + c) + tail[|written + c|..]
  {
    assert d[..|front| + |written|] == front + written;
    assert d[|front| + |written| + |c|..] == tail[|written| + |c|..];
  }

  /** One more code unit written appends its two bytes. */
  lemma {:induction false} EncodeUnitsPrefix(s: String16, i: nat)
    requires i < |s|
    ensures EncodeUnits(s[..i + 1]) == EncodeUnits(s[..i]) + Char16Bytes(s[i])
  {
    assert s[..i + 1] == s[..i] + [s[i]];
    EncodeUnitsSnoc(s[..i], s[i]);
  }

  /** One more pair of bytes read appends one code unit. */
  lemma {:induction false} DecodeUnitsPrefix(input: seq<byte>, i: nat)
    requires 2 * (i + 1) <= |input|
    ensures DecodeUnits(input[..2 * (i + 1)])
         == DecodeUnits(input[..2 * i]) + [Char16Of(input[2 * i], input[2 * i + 1])]
  {
    assert input[..2 * (i + 1)] == input[..2 * i] + [input[2 * i], input[2 * i + 1]];
    DecodeUnitsSnoc(input[..2 * i], input[2 * i], input[2 * i + 1]);
  }

  /** `mkbuffer(op, s, s.length())`: a buffer of exactly 2n+5 bytes holding
      the frame, its cursor at the end. */
  method MkBuffer(op: byte, s: String16) returns (out: ByteBuffer)
    requires |s| <= MAX_FRAME_STRING
    ensures fresh(out) && fresh(out.data) && out.Valid()
    ensures out.data[..] == Frame(op, s) && out.data.Length == 2 * |s| + 5
    ensures out.position == out.limit == out.data.Length
  {
    out := new ByteBuffer.Allocate(2 * |s| + 5);
    var ok := out.Put(op);
    PutString(out, s);
    assert out.data[..] == [op] + EncodeString(s);
  }

  /** `getString(buffer)`: `getInt` the length, return null for 0,
      allocate the char array, then `getChar` each code unit. Exceptions
      propagate to the caller. */
  method GetString(buf: ByteBuffer) returns (r: Result<Option<String16>>)
    requires buf.Valid()
    modifies buf
    ensures buf.Valid() && buf.limit == old(buf.limit)
    ensures var d := DecodeString(old(buf.Unread()));
            && (r.Ok? <==> d.Ok?)
            && (r.Ok? ==> r.value == d.value.text && buf.position == old(buf.position) + d.value.size)
            && (r.Err? ==> r.fault == d.fault)
  {
    ghost var input := buf.Unread();
    var len := buf.GetInt();
    if len.Err? {
      return Err(len.fault);
    }
    if len.value == 0 {
      return Ok(None);
    }
    if len.value < 0 {
      return Err(NegativeArraySize);
    }
    var units := ReadUnits(buf, len.value);
    if units.Err? {
      return Err(units.fault);
    }
    r := Ok(Some(units.value));
    assert input[4..][..2 * len.value] == input[4..4 + 2 * len.value];
  }

  /** The `getChar` loop of `getString`: `n` code units into a fresh
      `char[n]`, or an underflow when fewer than 2n bytes are left. */
  method ReadUnits(buf: ByteBuffer, n: nat) returns (r: Result<String16>)
    requires buf.Valid()
    modifies buf
    ensures buf.Valid() && buf.limit == old(buf.limit)
    ensures r.Ok? <==> 2 * n <= old(buf.Remaining())
    ensures r.Ok? ==> r.value == DecodeUnits(old(buf.Unread())[..2 * n])
                      && buf.position == old(buf.position) + 2 * n
    ensures r.Err? ==> r.fault == BufferUnderflow
  {
    ghost var input := buf.Unread();
    ghost var start := buf.position;
    var data := new Char16[n];
    var i := 0;
    while i < n
      invariant 0 <= i <= n
      invariant buf.Valid() && buf.limit == old(buf.limit)
      invariant UnitsRead(buf, data, input, start, i)
    {
      var fault := ReadNextUnit(buf, data, input, start, i);
      if fault.Some? {
        return Err(fault.value);
      }
      i := i + 1;
    }
    r := Ok(data[..]);
    assert data[..] == data[..i];
  }

  /** The first `i` code units of `input` are in `data`, and `buf` has
      moved past their bytes. */
  ghost predicate UnitsRead(buf: ByteBuffer, data: array<Char16>, input: seq<byte>, start: nat, i: nat)
    reads buf, buf.data, data
  {
    && buf.Valid() && i <= data.Length
    && buf.position == start + 2 * i
    && 2 * i <= |input| && buf.Unread() == input[2 * i..]
    && data[..i] == DecodeUnits(input[..2 * i])
  }

  /** One pass of the `getChar` loop of `getString`: the code unit goes
      into `data[i]`, or an underflow when fewer than two bytes are left. */
  method ReadNextUnit(buf: ByteBuffer, data: array<Char16>, ghost input: seq<byte>, ghost start: nat, i: nat)
    returns (fault: Option<Fault>)
    requires i < data.Length && UnitsRead(buf, data, input, start, i)
    modifies buf, data
    ensures buf.Valid() && buf.limit == old(buf.limit)
    ensures fault.None? <==> 2 * (i + 1) <= |input|
    ensures fault.None? ==> UnitsRead(buf, data, input, start, i + 1)
    ensures fault.Some? ==> fault == Some(BufferUnderflow)
  {
    var c := buf.GetChar();
    if c.Err? {
      return Some(c.fault);
    }
    DecodeUnitsPrefix(input, i);
    data[i] := c.value;
    assert data[..i + 1] == data[..i] + [data[i]];
    fault := None;
  }

  // ---------------------------------------------------------------------
  // The peer side of the rendezvous protocol (acknowledgeSelf, discoverPeers)

  /** What `acknowledgeSelf` writes to the central point: REGISTER and the
      peer's own listening port. */
  function AcknowledgeBytes(port: int32): (r: seq<byte>)
    ensures |r| == 5 && r[0] == CentralPoint.REGISTER && r[1..] == Int32Bytes(port)
  {
    [CentralPoint.REGISTER] + Int32Bytes(port)
  }

  /** What `discoverPeers` writes to the central point. */
  function DiscoverRequest(): (r: seq<byte>)
    ensures r == [CentralPoint.LIST]
  {
    [CentralPoint.LIST]
  }

  /** The entries of a LIST reply after the count, read left to right:
      each needs an address and a port (8 bytes, or a read hits end of
      stream); entries whose address is `self` are dropped. */
  function DecodeEntries(b: seq<byte>, n: nat, self: IPv4): (r: Option<seq<CentralPoint.PeerInfo>>)
    ensures r.Some? ==> |r.value| <= n
    decreases n
  {
    if n == 0 then Some([])
    else if |b| < 8 then None
    else
      var entry := CentralPoint.PeerInfo(b[..4], Int32Of(b[4..8]));
      match DecodeEntries(b[8..], n - 1, self)
      case None => None
      case Some(rest) => Some(if entry.address == self then rest else [entry] + rest)
  }

  /** What `discoverPeers` makes of the central point's reply: null when the
      stream ends early or the count is not positive; otherwise the entries
      in order, without the ones at the peer's own address. */
  function DecodePeerList(reply: seq<byte>, self: IPv4): (r: Option<seq<CentralPoint.PeerInfo>>)
    ensures r.Some? ==> |reply| >= 4 && Int32Of(reply[..4]) > 0
  {
    if |reply| < 4 then None
    else
      var n := Int32Of(reply[..4]);
      if n <= 0 then None else DecodeEntries(reply[4..], n, self)
  }

  /** The table without the entries at address `self`. */
  function Without(peers: seq<CentralPoint.PeerInfo>, self: IPv4): (r: seq<CentralPoint.PeerInfo>)
    ensures forall i :: 0 <= i < |r| ==> r[i].address != self && r[i] in peers
  {
    if peers == [] then []
    else if peers[0].address == self then Without(peers[1..], self)
    else [peers[0]] + Without(peers[1..], self)
  }

  /** Reading entries back from their encoding gives the table minus the
      peer's own entries. */
  lemma {:induction false} EntriesRoundTrip(peers: seq<CentralPoint.PeerInfo>, rest: seq<byte>, self: IPv4)
    ensures DecodeEntries(CentralPoint.EntriesBytes(peers) + rest, |peers|, self) == Some(Without(peers, self))
  {
    if peers != [] {
      EntriesRoundTrip(peers[1..], rest, self);
      EntriesHeadStep(peers, rest, self);
    }
  }

  /** The first entry of the table is decoded first, and dropped when its
      address is the peer's own. */
  lemma {:induction false} EntriesHeadStep(peers: seq<CentralPoint.PeerInfo>, rest: seq<byte>, self: IPv4)
    requires peers != []
    ensures var kept := if peers[0].address == self then [] else [peers[0]];
            DecodeEntries(CentralPoint.EntriesBytes(peers) + rest, |peers|, self)
            == Prepend(kept, DecodeEntries(CentralPoint.EntriesBytes(peers[1..]) + rest, |peers| - 1, self))
  {
    var b := CentralPoint.EntriesBytes(peers) + rest;
    var e := CentralPoint.EntryBytes(peers[0]);
    assert b == e + (CentralPoint.EntriesBytes(peers[1..]) + rest);
    assert b[..4] == peers[0].address;
    assert b[4..8] == Int32Bytes(peers[0].port);
    Int32RoundTrip(peers[0].port);
    assert b[8..] == CentralPoint.EntriesBytes(peers[1..]) + rest;
  }

  /** End to end: what the central point replies to LIST is what
      `discoverPeers` returns, minus the peer's own entries; an empty
      table gives null. */
  lemma {:induction false} DiscoverRoundTrip(peers: seq<CentralPoint.PeerInfo>, self: IPv4)
    requires |peers| <= 127
    ensures var reply := CentralPoint.ListReply(peers).value;
            DecodePeerList(reply, self) == if peers == [] then None else Some(Without(peers, self))
  {
    var reply := CentralPoint.ListReply(peers).value;
    var zeros := Zeros(CentralPoint.REPLY_SIZE - 4 - 8 * |peers|);
    assert reply == Int32Bytes(|peers|) + (CentralPoint.EntriesBytes(peers) + zeros);
    assert reply[..4] == Int32Bytes(|peers|);
    Int32RoundTrip(|peers|);
    assert reply[4..] == CentralPoint.EntriesBytes(peers) + zeros;
    EntriesRoundTrip(peers, zeros, self);
  }

  /** End to end: the central point appends the acknowledging peer, at its
      connection's address, with the port it announced. */
  lemma {:induction false} AcknowledgeRegisters(table: seq<CentralPoint.PeerInfo>, port: int32, caller: IPv4)
    ensures CentralPoint.Process(table, AcknowledgeBytes(port), caller)
         == CentralPoint.Handled(table + [CentralPoint.PeerInfo(caller, port)], [], true)
  {
    CentralPoint.RegisterAppends(table, port, [], caller);
    assert AcknowledgeBytes(port) == [CentralPoint.REGISTER] + Int32Bytes(port) + [];
    assert CentralPoint.Process(table + [CentralPoint.PeerInfo(caller, port)], [], caller)
        == CentralPoint.Handled(table + [CentralPoint.PeerInfo(caller, port)], [], true);
  }

  /** Entries already read, ahead of the ones still to read. */
  function Prepend(found: seq<CentralPoint.PeerInfo>, r: Option<seq<CentralPoint.PeerInfo>>): (p: Option<seq<CentralPoint.PeerInfo>>)
    ensures p.Some? <==> r.Some?
    ensures p.Some? ==> |found| <= |p.value| && p.value[..|found|] == found && p.value[|found|..] == r.value
  {
    match r
    case None => None
    case Some(rest) => Some(found + rest)
  }

  lemma {:induction false} PrependTwice(a: seq<CentralPoint.PeerInfo>, b: seq<CentralPoint.PeerInfo>, r: Option<seq<CentralPoint.PeerInfo>>)
    ensures Prepend(a, Prepend(b, r)) == Prepend(a + b, r)
  {
    if r.Some? {
      assert a + (b + r.value) == (a + b) + r.value;
    }
  }

  /** The decoding loop of `discoverPeers` over the reply: `readInt` the
      count, then for each entry read an address and `readInt` a port,
      skipping the peer's own address. */
  method DiscoverPeers(reply: seq<byte>, self: IPv4) returns (r: Option<seq<CentralPoint.PeerInfo>>)
    ensures r == DecodePeerList(reply, self)
  {
    if |reply| < 4 {
      return None;
    }
    var count := Int32Of(reply[..4]);
    if count <= 0 {
      return None;
    }
    var found: seq<CentralPoint.PeerInfo> := [];
    var rest := reply[4..];
    var i := 0;
    while i < count
      invariant 0 <= i <= count
      invariant DecodeEntries(reply[4..], count, self) == Prepend(found, DecodeEntries(rest, count - i, self))
    {
      if |rest| < 8 {
        return None;
      }
      var entry := CentralPoint.PeerInfo(rest[..4], Int32Of(rest[4..8]));
      var kept := if entry.address == self then [] else [entry];
      PrependTwice(found, kept, DecodeEntries(rest[8..], count - i - 1, self));
      found := found + kept;
      rest := rest[8..];
      i := i + 1;
    }
    assert found + [] == found;
    r := Some(found);
  }
}
