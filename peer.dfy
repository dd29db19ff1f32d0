/** A chat peer (Peer.java): the node that accepts other peers on its own
    Server, optionally dials one peer through a Connection, keeps the list
    of peers connected to it ("children"), and exchanges MESSAGE and NAME
    frames with them.

    The peer's calls into the chat window (`P2PChat.get().…`) are recorded,
    in order, as `notices`. */
module PeerEngine {
  import opened Wire
  import opened Netlib
  import opened PeerCodec
  import Buffers
  import NetServer
  import NetConnection

  /** A connected peer as the local peer knows it: its socket and its name,
      null until its first NAME frame arrives. */
  datatype Child = Child(channel: Channel, peerName: Option<String16>)

  /** A call into the chat window. */
  datatype Notice =
    | AppendText(sender: Option<String16>, text: Option<String16>)
    | PeerNameChanged(peer: Channel, oldName: Option<String16>, newName: Option<String16>)
    | PeerConnected(peer: Channel)
    | PeerDisconnected(peer: Channel)

  /** The code units of a string made of characters of the Basic
      Multilingual Plane. */
  function Units(s: string): (r: String16)
    requires forall i :: 0 <= i < |s| ==> s[i] as int < 0x1_0000
    ensures |r| == |s| && forall i :: 0 <= i < |s| ==> r[i] == s[i] as int
  {
    seq(|s|, i requires 0 <= i < |s| => s[i] as int)
  }

  /** The name the chat window's `peerConnected` gives a nameless peer. */
  const UNNAMED: String16 := Units("unnamed")

  /** What `handleConnectionClose` always shows, found or not. */
  const NOT_FOUND: Notice := AppendText(Some(Units("Network")), Some(Units("Unable to find disconnected peer!")))

  // ---------------------------------------------------------------------
  // The list of children

  /** The position of the first child on `ch`, where the iterator loops of
      `handleRead` and `handleConnectionClose` stop. */
  function FindChild(children: seq<Child>, ch: Channel): (r: Option<nat>)
    ensures r.Some? ==> r.value < |children| && children[r.value].channel == ch
    ensures r.Some? ==> forall j :: 0 <= j < r.value ==> children[j].channel != ch
    ensures r.None? <==> forall j :: 0 <= j < |children| ==> children[j].channel != ch
  {
    if children == [] then None
    else if children[0].channel == ch then Some(0)
    else match FindChild(children[1..], ch)
      case None => None
      case Some(i) => Some(i + 1)
  }

  /** The iterator loop over `children` looking for the node on `ch`. */
  method LocateChild(children: seq<Child>, ch: Channel) returns (r: Option<nat>)
    ensures r == FindChild(children, ch)
  {
    var i := 0;
    while i < |children|
      invariant 0 <= i <= |children|
      invariant forall j :: 0 <= j < i ==> children[j].channel != ch
    {
      if children[i].channel == ch {
        return Some(i);
      }
      i := i + 1;
    }
    return None;
  }

  /** The name of the child on `ch`, null when there is none. */
  function SenderOf(children: seq<Child>, ch: Channel): Option<String16>
  {
    match FindChild(children, ch)
    case None => None
    case Some(i) => children[i].peerName
  }

  /** `children.remove(node)` for the first child on `ch`, if any. */
  function WithoutChild(children: seq<Child>, ch: Channel): (r: seq<Child>)
    ensures |r| == if FindChild(children, ch).None? then |children| else |children| - 1
  {
    if children == [] then []
    else if children[0].channel == ch then children[1..]
    else [children[0]] + WithoutChild(children[1..], ch)
  }

  /** How many children are on `ch`. */
  function ChildrenOn(children: seq<Child>, ch: Channel): nat
  {
    if children == [] then 0 else (if children[0].channel == ch then 1 else 0) + ChildrenOn(children[1..], ch)
  }

  /** Removing the child on `ch` takes away exactly one child on `ch`, when
      there is one, and none on any other socket. */
  lemma {:induction false} WithoutChildCounts(children: seq<Child>, ch: Channel, other: Channel)
    ensures ChildrenOn(WithoutChild(children, ch), ch) == if ChildrenOn(children, ch) == 0 then 0 else ChildrenOn(children, ch) - 1
    ensures other != ch ==> ChildrenOn(WithoutChild(children, ch), other) == ChildrenOn(children, other)
  {
    if children != [] {
      WithoutChildCounts(children[1..], ch, other);
      if children[0].channel != ch {
        assert ([children[0]] + WithoutChild(children[1..], ch))[1..] == WithoutChild(children[1..], ch);
      }
    }
  }

  /** The child removed is the first one on `ch`; the others keep their order. */
  lemma {:induction false} WithoutChildSplits(children: seq<Child>, ch: Channel)
    ensures var f := FindChild(children, ch);
            WithoutChild(children, ch) == if f.None? then children else children[..f.value] + children[f.value + 1..]
  {
    if children != [] && children[0].channel != ch {
      var tail := children[1..];
      WithoutChildSplits(tail, ch);
      var f := FindChild(tail, ch);
      if f.Some? {
        SplitsPastHead(children, ch, f.value);
      } else {
        assert FindChild(children, ch) == None;
        assert children == [children[0]] + tail;
      }
    }
  }

  /** When the first child on `ch` is past the head, the head stays in
      front of the cut. */
  lemma {:induction false} SplitsPastHead(children: seq<Child>, ch: Channel, i: nat)
    requires |children| > i + 1 && children[0].channel != ch
    requires WithoutChild(children[1..], ch) == children[1..][..i] + children[1..][i + 1..]
    ensures WithoutChild(children, ch) == children[..i + 1] + children[i + 2..]
  {
    var c0, tail := children[0], children[1..];
    assert children[..i + 1] == [c0] + tail[..i];
    assert children[i + 2..] == tail[i + 1..];
  }

  // ---------------------------------------------------------------------
  // Received frames (handleRead)

  /** What `handleRead` does with the bytes received on `ch`: the children
      afterwards, the notices shown, and the exception that escaped, if any. */
  datatype Effect = Effect(children: seq<Child>, notices: seq<Notice>, fault: Option<Fault>)

  /** What one pass of the `handleRead` loop does: the children afterwards,
      the notices shown, the exception raised, and the bytes consumed. */
  datatype Step = Step(children: seq<Child>, notices: seq<Notice>, fault: Option<Fault>, size: nat)

  /** One pass of the `handleRead` loop over the unread bytes `input`. A
      MESSAGE frame shows its text under the name of the first child on
      `ch` (or null); a NAME frame renames the first child on `ch`, if any;
      any other byte is skipped. A string that cannot be read raises. */
  function FrameStep(children: seq<Child>, input: seq<byte>, ch: Channel): (s: Step)
    requires input != []
    ensures s.fault.None? ==> 1 <= s.size <= |input|
    ensures |s.children| == |children|
    ensures forall i :: 0 <= i < |children| ==> s.children[i].channel == children[i].channel
  {
    if input[0] == MESSAGE then
      match DecodeString(input[1..])
      case Err(f) => Step(children, [], Some(f), 0)
      case Ok(d) => Step(children, [AppendText(SenderOf(children, ch), d.text)], None, 1 + d.size)
    else if input[0] == NAME then
      match DecodeString(input[1..])
      case Err(f) => Step(children, [], Some(f), 0)
      case Ok(d) =>
        match FindChild(children, ch)
        case None => Step(children, [], None, 1 + d.size)
        case Some(i) => Step(children[i := Child(ch, d.text)], [PeerNameChanged(ch, children[i].peerName, d.text)], None, 1 + d.size)
    else Step(children, [], None, 1)
  }

  /** `handleRead` over `input`: frames one after the other, left to right.
      An exception ends the loop, keeping what the earlier frames did. */
  function DecodeFrames(children: seq<Child>, input: seq<byte>, ch: Channel): (e: Effect)
    ensures |e.children| == |children|
    ensures forall i :: 0 <= i < |children| ==> e.children[i].channel == children[i].channel
    decreases |input|
  {
    if input == [] then Effect(children, [], None)
    else
      var s := FrameStep(children, input, ch);
      if s.fault.Some? then Effect(children, [], s.fault)
      else
        var rest := DecodeFrames(s.children, input[s.size..], ch);
        Effect(rest.children, s.notices + rest.notices, rest.fault)
  }

  /** The loop invariant of `handleRead`: the frames in `unread`, handled
      from `children`, show what `whole` shows after `shown`. */
  ghost predicate Reading(whole: Effect, children: seq<Child>, unread: seq<byte>, ch: Channel, shown: seq<Notice>)
  {
    var e := DecodeFrames(children, unread, ch);
    whole == Effect(e.children, shown + e.notices, e.fault)
  }

  /** One frame handled keeps the loop invariant, or ends the loop with
      the exception that `whole` ends with. */
  lemma {:induction false} ReadingStep(whole: Effect, children: seq<Child>, input: seq<byte>, ch: Channel, shown: seq<Notice>)
    requires input != [] && Reading(whole, children, input, ch, shown)
    ensures var s := FrameStep(children, input, ch);
            && (s.fault.None? ==> Reading(whole, s.children, input[s.size..], ch, shown + s.notices))
            && (s.fault.Some? ==> s.notices == [] && whole == Effect(children, shown, s.fault))
  {
    var s := FrameStep(children, input, ch);
    if s.fault.None? {
      var rest := DecodeFrames(s.children, input[s.size..], ch);
      assert shown + (s.notices + rest.notices) == (shown + s.notices) + rest.notices;
    }
  }

  /** A MESSAGE frame as `sendMessage` builds it arrives as its text, under
      the sender's name; an empty text arrives as null. */
  lemma {:induction false} MessageFrameDelivers(children: seq<Child>, ch: Channel, m: String16, rest: seq<byte>)
    requires |m| <= MAX_FRAME_STRING
    ensures var r := DecodeFrames(children, rest, ch);
            DecodeFrames(children, Frame(MESSAGE, m) + rest, ch)
              == Effect(r.children, [AppendText(SenderOf(children, ch), if m == [] then None else Some(m))] + r.notices, r.fault)
  {
    var input := Frame(MESSAGE, m) + rest;
    assert input[1..] == EncodeString(m) + rest;
    StringRoundTrip(m, rest);
    assert input[1 + 4 + 2 * |m|..] == rest;
  }

  /** A NAME frame renames the first child on the socket it came from, and
      only that child; from a socket with no child it changes nothing. */
  lemma {:induction false} NameFrameRenames(children: seq<Child>, ch: Channel, n: String16, rest: seq<byte>)
    requires |n| <= MAX_FRAME_STRING
    ensures var text := if n == [] then None else Some(n);
            DecodeFrames(children, Frame(NAME, n) + rest, ch)
              == match FindChild(children, ch)
                 case None => DecodeFrames(children, rest, ch)
                 case Some(i) =>
                   var r := DecodeFrames(children[i := Child(ch, text)], rest, ch);
                   Effect(r.children, [PeerNameChanged(ch, children[i].peerName, text)] + r.notices, r.fault)
  {
    var input := Frame(NAME, n) + rest;
    assert input[1..] == EncodeString(n) + rest;
    StringRoundTrip(n, rest);
    assert input[1 + 4 + 2 * |n|..] == rest;
  }

  /** A MESSAGE or NAME frame cut short anywhere after its opcode raises a
      buffer underflow; the children are left as they were. */
  lemma {:induction false} TruncatedFrameRaises(children: seq<Child>, ch: Channel, op: byte, s: String16, k: nat)
    requires op == MESSAGE || op == NAME
    requires |s| <= MAX_FRAME_STRING && 1 <= k < |Frame(op, s)|
    ensures DecodeFrames(children, Frame(op, s)[..k], ch) == Effect(children, [], Some(BufferUnderflow))
  {
    var input := Frame(op, s)[..k];
    var b := input[1..];
    assert b == EncodeString(s)[..k - 1];
    if k - 1 >= 4 {
      assert b[..4] == Int32Bytes(|s|);
      Int32RoundTrip(|s|);
      assert ReadInt32(b) == Ok(|s|);
    }
  }

  /** A zero byte is no opcode: `handleRead` skips zeros one by one and
      shows nothing. */
  lemma {:induction false} ZerosSkipped(children: seq<Child>, n: nat, ch: Channel)
    ensures DecodeFrames(children, Zeros(n), ch) == Effect(children, [], None)
  {
    if n > 0 {
      assert Zeros(n)[1..] == Zeros(n - 1);
      ZerosSkipped(children, n - 1, ch);
    }
  }

  // ---------------------------------------------------------------------
  // Outbound fan-out (send)

  /** The sockets of the children, in list order. */
  function Channels(children: seq<Child>): (r: seq<Channel>)
    ensures |r| == |children| && forall i :: 0 <= i < |children| ==> r[i] == children[i].channel
  {
    seq(|children|, i requires 0 <= i < |children| => children[i].channel)
  }

  /** The sockets `send(node, data)` writes to: every child for a null
      node, otherwise the node's own. */
  function Targets(children: seq<Child>, target: Option<Channel>): (r: seq<Channel>)
  {
    match target
    case None => Channels(children)
    case Some(c) => [c]
  }

  /** The server's outbound queues after `server.send(c, data)` for each
      socket of `chans` in turn. */
  function Fanout(pending: map<Channel, seq<seq<byte>>>, chans: seq<Channel>, data: seq<byte>): map<Channel, seq<seq<byte>>>
    decreases |chans|
  {
    if chans == [] then pending
    else
      var p := Fanout(pending, chans[..|chans| - 1], data);
      var c := chans[|chans| - 1];
      p[c := NetServer.QueueOf(p, c) + [data]]
  }

  /** Targeting one more socket queues one more copy on it. */
  lemma {:induction false} FanoutSnoc(pending: map<Channel, seq<seq<byte>>>, chans: seq<Channel>, data: seq<byte>, i: nat)
    requires i < |chans|
    ensures var p := Fanout(pending, chans[..i], data);
            Fanout(pending, chans[..i + 1], data) == p[chans[i] := NetServer.QueueOf(p, chans[i]) + [data]]
            && FanoutRequests(chans[..i + 1]) == FanoutRequests(chans[..i]) + [ChangeRequest(chans[i], ChangeOps, OP_WRITE)]
  {
    assert chans[..i + 1][..i] == chans[..i];
  }

  /** Targeting a single socket queues one copy on it. */
  lemma {:induction false} FanoutOne(pending: map<Channel, seq<seq<byte>>>, c: Channel, data: seq<byte>)
    ensures Fanout(pending, [c], data) == pending[c := NetServer.QueueOf(pending, c) + [data]]
    ensures FanoutRequests([c]) == [ChangeRequest(c, ChangeOps, OP_WRITE)]
  {
    assert [c][..0] == [];
  }

  /** What queuing on a connection leaves alone: its socket, change
      requests, keys, closed sockets and the bytes already written. */
  ghost function OtherThanQueue(c: NetConnection.Connection): (Option<Channel>, seq<ChangeRequest>, map<Channel, Key>, set<Channel>, seq<byte>)
    reads c
  {
    (c.channel, c.changeRequests, c.keys, c.closed, c.wire)
  }

  /** `server.send(c, data)` for each socket `c` of `chans`, in order. */
  method SendEach(server: NetServer.Server, chans: seq<Channel>, data: seq<byte>)
    requires server.Valid()
    modifies server
    ensures server.Valid()
    ensures server.pendingData == Fanout(old(server.pendingData), chans, data)
    ensures server.changeRequests == old(server.changeRequests) + FanoutRequests(chans)
    ensures server.keys == old(server.keys) && server.closed == old(server.closed)
    ensures server.accepting == old(server.accepting) && NetServer.SameWire(old(server.wire), server.wire)
  {
    var i := 0;
    while i < |chans|
      invariant 0 <= i <= |chans|
      invariant server.Valid()
      invariant server.pendingData == Fanout(old(server.pendingData), chans[..i], data)
      invariant server.changeRequests == old(server.changeRequests) + FanoutRequests(chans[..i])
      invariant server.keys == old(server.keys) && server.closed == old(server.closed)
      invariant server.accepting == old(server.accepting) && NetServer.SameWire(old(server.wire), server.wire)
    {
      server.Send(chans[i], data);
      FanoutSnoc(old(server.pendingData), chans, data, i);
      i := i + 1;
    }
    assert chans[..i] == chans;
  }

  /** The change requests that the same calls queue, one per socket. */
  function FanoutRequests(chans: seq<Channel>): (r: seq<ChangeRequest>)
    ensures |r| == |chans| && forall i :: 0 <= i < |chans| ==> r[i] == ChangeRequest(chans[i], ChangeOps, OP_WRITE)
  {
    seq(|chans|, i requires 0 <= i < |chans| => ChangeRequest(chans[i], ChangeOps, OP_WRITE))
  }

  /** How many times `c` occurs in `chans`. */
  function Occurrences(chans: seq<Channel>, c: Channel): nat
    decreases |chans|
  {
    if chans == [] then 0
    else Occurrences(chans[..|chans| - 1], c) + (if chans[|chans| - 1] == c then 1 else 0)
  }

  /** `k` copies of `x`. */
  function Copies<T>(x: T, k: nat): (r: seq<T>)
    ensures |r| == k && forall i :: 0 <= i < k ==> r[i] == x
  {
    seq(k, _ => x)
  }

  lemma {:induction false} CopiesSnoc<T>(x: T, k: nat)
    ensures Copies(x, k) + [x] == Copies(x, k + 1)
  {
    assert (Copies(x, k) + [x])[k] == x;
  }

  /** The fan-out appends `data` to the queue of each socket once for
      each time it is targeted, and leaves every other queue alone. */
  lemma {:induction false} FanoutQueues(pending: map<Channel, seq<seq<byte>>>, chans: seq<Channel>, data: seq<byte>, c: Channel)
    ensures NetServer.QueueOf(Fanout(pending, chans, data), c)
         == NetServer.QueueOf(pending, c) + Copies(data, Occurrences(chans, c))
    ensures Occurrences(chans, c) == 0 ==> (c in Fanout(pending, chans, data) <==> c in pending)
  {
    if chans != [] {
      var front := chans[..|chans| - 1];
      FanoutQueues(pending, front, data, c);
      var k := Occurrences(front, c);
      if chans[|chans| - 1] == c {
        assert Copies(data, k) + [data] == Copies(data, k + 1);
      }
    }
  }

  /** With children on distinct sockets, a broadcast queues the data
      exactly once for each child. */
  lemma {:induction false} DistinctChannelsOccurOnce(children: seq<Child>, i: nat)
    requires i < |children|
    requires forall j, k :: 0 <= j < k < |children| ==> children[j].channel != children[k].channel
    ensures Occurrences(Channels(children), children[i].channel) == 1
  {
    var n := |children|;
    var last := children[n - 1];
    assert Channels(children)[..n - 1] == Channels(children[..n - 1]);
    if i == n - 1 {
      NotOccurring(children[..n - 1], last.channel);
    } else {
      DistinctChannelsOccurOnce(children[..n - 1], i);
    }
  }

  lemma {:induction false} NotOccurring(children: seq<Child>, c: Channel)
    requires forall j :: 0 <= j < |children| ==> children[j].channel != c
    ensures Occurrences(Channels(children), c) == 0
  {
    if children != [] {
      var n := |children|;
      assert Channels(children)[..n - 1] == Channels(children[..n - 1]);
      NotOccurring(children[..n - 1], c);
    }
  }

  // ---------------------------------------------------------------------
  // kick

  /** The position of the first child called `name`. */
  function FindNamed(children: seq<Child>, name: String16): (r: Option<nat>)
    ensures r.Some? ==> r.value < |children| && children[r.value].peerName == Some(name)
    ensures r.Some? ==> forall j :: 0 <= j < r.value ==> children[j].peerName != Some(name)
    ensures r.None? <==> forall j :: 0 <= j < |children| ==> children[j].peerName != Some(name)
  {
    if children == [] then None
    else if children[0].peerName == Some(name) then Some(0)
    else match FindNamed(children[1..], name)
      case None => None
      case Some(i) => Some(i + 1)
  }

  /** What `kick(name)` does, as written: at the first child called `name`
      it closes that child's socket, whose close callback removes the child
      from the list being iterated. The iteration then either ends (nothing
      left after the iterator's cursor, so later namesakes are never seen)
      or its next step throws ConcurrentModificationException. Closing a
      socket without a selection key throws NullPointerException first. */
  function KickOutcome(children: seq<Child>, name: String16, keys: map<Channel, Key>): (r: (seq<Child>, Outcome))
    ensures |r.0| >= |children| - 1
  {
    match FindNamed(children, name)
    case None => (children, Completed)
    case Some(i) =>
      var c := children[i].channel;
      var rest := WithoutChild(children, c);
      (rest,
       if c !in keys then Raised(NullPointer)
       else if i + 1 < |rest| then Raised(ConcurrentModification)
       else Completed)
  }

  /** As written, a second child with the kicked name, last in the list,
      stays connected, and no exception says so. */
  lemma {:induction false} KickMissesLastNamesake(name: String16, keys: map<Channel, Key>)
    requires 1 in keys
    ensures KickOutcome([Child(1, Some(name)), Child(2, Some(name))], name, keys)
         == ([Child(2, Some(name))], Completed)
  {
    var children := [Child(1, Some(name)), Child(2, Some(name))];
    assert FindNamed(children, name) == Some(0);
  }

  /** As written, kicking a child that has two or more children after it
      throws ConcurrentModificationException out of `kick`. */
  lemma {:induction false} KickThrowsWhenTwoFollow(name: String16, keys: map<Channel, Key>)
    requires 1 in keys
    ensures KickOutcome([Child(1, Some(name)), Child(2, None), Child(3, None)], name, keys).1
         == Raised(ConcurrentModification)
  {
    var children := [Child(1, Some(name)), Child(2, None), Child(3, None)];
    assert FindNamed(children, name) == Some(0);
    assert WithoutChild(children, 1) == children[1..];
  }

  /** The children not called `name`, in order. */
  function WithoutNamed(children: seq<Child>, name: String16): (r: seq<Child>)
    ensures forall i :: 0 <= i < |r| ==> r[i].peerName != Some(name) && r[i] in children
  {
    if children == [] then []
    else if children[0].peerName == Some(name) then WithoutNamed(children[1..], name)
    else [children[0]] + WithoutNamed(children[1..], name)
  }

  /** The sockets of the children called `name`, in order. */
  function NamedChannels(children: seq<Child>, name: String16): (r: seq<Channel>)
    ensures |r| <= |children|
  {
    if children == [] then []
    else if children[0].peerName == Some(name) then [children[0].channel] + NamedChannels(children[1..], name)
    else NamedChannels(children[1..], name)
  }

  /** Removing the child on each socket of `chans`, in turn. */
  function WithoutEach(children: seq<Child>, chans: seq<Channel>): seq<Child>
    decreases |chans|
  {
    if chans == [] then children else WithoutEach(WithoutChild(children, chans[0]), chans[1..])
  }

  /** Whether the children are on distinct sockets. */
  predicate DistinctChannels(children: seq<Child>)
  {
    forall j, k :: 0 <= j < k < |children| ==> children[j].channel != children[k].channel
  }

  /** With children on distinct sockets, closing the sockets of the
      children called `name` leaves exactly the others, in order. */
  lemma {:induction false} KickAllRemovesNamesakes(children: seq<Child>, name: String16)
    requires DistinctChannels(children)
    ensures WithoutEach(children, NamedChannels(children, name)) == WithoutNamed(children, name)
  {
    if children != [] {
      var tail := children[1..];
      assert DistinctChannels(tail);
      KickAllRemovesNamesakes(tail, name);
      if children[0].peerName == Some(name) {
        KickNamedHead(children, name);
      } else {
        KickOtherHead(children, name);
      }
    }
  }

  /** A head called `name` is the first one closed, and nothing else of the
      tail changes with it. */
  lemma {:induction false} KickNamedHead(children: seq<Child>, name: String16)
    requires children != [] && children[0].peerName == Some(name)
    requires WithoutEach(children[1..], NamedChannels(children[1..], name)) == WithoutNamed(children[1..], name)
    ensures WithoutEach(children, NamedChannels(children, name)) == WithoutNamed(children, name)
  {
    var named := NamedChannels(children[1..], name);
    assert NamedChannels(children, name) == [children[0].channel] + named;
    assert WithoutChild(children, children[0].channel) == children[1..];
    assert ([children[0].channel] + named)[1..] == named;
  }

  /** A head with another name stays at the front while the namesakes after
      it are closed. */
  lemma {:induction false} KickOtherHead(children: seq<Child>, name: String16)
    requires children != [] && children[0].peerName != Some(name) && DistinctChannels(children)
    requires WithoutEach(children[1..], NamedChannels(children[1..], name)) == WithoutNamed(children[1..], name)
    ensures WithoutEach(children, NamedChannels(children, name)) == WithoutNamed(children, name)
  {
    var c0, tail := children[0], children[1..];
    var named := NamedChannels(tail, name);
    assert NamedChannels(children, name) == named;
    assert forall j :: 0 <= j < |tail| ==> tail[j].channel != c0.channel by {
      forall j | 0 <= j < |tail|
        ensures tail[j].channel != c0.channel
      {
        assert tail[j] == children[j + 1];
      }
    }
    NamedChannelsOfTail(tail, name, c0.channel);
    WithoutEachKeepsHead(c0, tail, named);
    assert children == [c0] + tail;
  }

  /** A socket no child is on is not among the sockets to close. */
  lemma {:induction false} NamedChannelsOfTail(children: seq<Child>, name: String16, c: Channel)
    requires forall j :: 0 <= j < |children| ==> children[j].channel != c
    ensures forall i :: 0 <= i < |NamedChannels(children, name)| ==> NamedChannels(children, name)[i] != c
  {
    if children != [] {
      NamedChannelsOfTail(children[1..], name, c);
    }
  }

  /** Removing sockets other than the head's own passes the head through. */
  lemma {:induction false} WithoutEachKeepsHead(head: Child, tail: seq<Child>, chans: seq<Channel>)
    requires forall i :: 0 <= i < |chans| ==> chans[i] != head.channel
    decreases |chans|
    ensures WithoutEach([head] + tail, chans) == [head] + WithoutEach(tail, chans)
  {
    if chans != [] {
      assert ([head] + tail)[1..] == tail;
      assert WithoutChild([head] + tail, chans[0]) == [head] + WithoutChild(tail, chans[0]);
      WithoutEachKeepsHead(head, WithoutChild(tail, chans[0]), chans[1..]);
    }
  }

  // ---------------------------------------------------------------------
  // The peer

  class Peer {
    /** The server on which this peer accepts other peers. */
    const server: NetServer.Server
    /** The connection this peer dialled, or null. */
    var conn: NetConnection.Connection?
    /** This peer's own name. */
    var peerName: String16
    /** The port this peer listens on. */
    const port: int32
    /** The peers connected to this one, in the order they connected. */
    var children: seq<Child>
    /** The calls into the chat window, in order. */
    var notices: seq<Notice>

    ghost predicate Valid()
      reads this, server, conn
    {
      server.Valid() && (conn != null ==> conn.Valid()) && |peerName| <= MAX_FRAME_STRING
    }

    /** `Peer(null, nick, host, port)`: no parent, no connection, a new server. */
    constructor (nick: String16, port: int32)
      requires |nick| <= MAX_FRAME_STRING
      ensures Valid() && fresh(server)
      ensures conn == null && peerName == nick && this.port == port && children == [] && notices == []
      ensures server.pendingData == map[] && server.changeRequests == [] && server.keys == map[]
    {
      server := new NetServer.Server();
      conn := null;
      peerName := nick;
      this.port := port;
      children := [];
      notices := [];
    }

    /** `connect(host, port)`: nothing when already connected, otherwise
        dial socket `ch` through a new Connection. */
    method Connect(ch: Channel, connected: bool)
      requires Valid()
      modifies this
      ensures Valid()
      ensures old(conn) != null && connected ==> conn == old(conn)
      ensures !(old(conn) != null && connected) ==>
                && conn != null && fresh(conn)
                && conn.channel == Some(ch) && conn.pendingData == []
                && conn.changeRequests == [ChangeRequest(ch, Register, OP_CONNECT)]
                && conn.keys == map[] && conn.closed == {} && conn.wire == [] && conn.hasListener
      ensures peerName == old(peerName) && children == old(children) && notices == old(notices)
    {
      if conn != null && connected {
        return;
      }
      conn := new NetConnection.Connection.DialAssigned(ch);
    }

    /** `send(node, data)`: a copy on the dialled connection, if any, then
        one on the server for every child (null node) or for the node. */
    method Send(target: Option<Channel>, data: seq<byte>)
      requires Valid()
      modifies server, conn
      ensures Valid()
      ensures conn != null ==> conn.pendingData == old(conn.pendingData) + [NetConnection.Wrapped(data)]
      ensures conn != null ==> OtherThanQueue(conn) == old(OtherThanQueue(conn))
      ensures var chans := Targets(children, target);
              && server.pendingData == Fanout(old(server.pendingData), chans, data)
              && server.changeRequests == old(server.changeRequests) + FanoutRequests(chans)
      ensures server.keys == old(server.keys) && server.closed == old(server.closed)
      ensures server.accepting == old(server.accepting) && NetServer.SameWire(old(server.wire), server.wire)
    {
      if conn != null {
        conn.SendBuffer(data);
      }
      SendEach(server, Targets(children, target), data);
    }

    /** `sendMessage(message)`: nothing for an empty message, otherwise a
        MESSAGE frame to the connection and to every child. */
    method SendMessage(message: String16)
      requires Valid() && |message| <= MAX_FRAME_STRING
      modifies server, conn
      ensures Valid()
      ensures message == [] ==> server.pendingData == old(server.pendingData) && server.changeRequests == old(server.changeRequests)
      ensures message == [] && conn != null ==> conn.pendingData == old(conn.pendingData)
      ensures message != [] ==>
                && server.pendingData == Fanout(old(server.pendingData), Channels(children), Frame(MESSAGE, message))
                && server.changeRequests == old(server.changeRequests) + FanoutRequests(Channels(children))
      ensures message != [] && conn != null ==> conn.pendingData == old(conn.pendingData) + [NetConnection.Wrapped(Frame(MESSAGE, message))]
      ensures server.keys == old(server.keys) && server.closed == old(server.closed)
      ensures server.accepting == old(server.accepting) && NetServer.SameWire(old(server.wire), server.wire)
      ensures conn != null ==> OtherThanQueue(conn) == old(OtherThanQueue(conn))
    {
      if |message| == 0 {
        return;
      }
      var out := MkBuffer(MESSAGE, message);
      Send(None, out.data[..]);
    }

    /** `sendName(newName)`: nothing for an empty name; otherwise one NAME
        frame to each child, each also copied to the connection, then the
        new name is taken. */
    method SendName(newName: String16)
      requires Valid() && |newName| <= MAX_FRAME_STRING
      modifies this, server, conn
      ensures Valid()
      ensures conn == old(conn) && children == old(children) && notices == old(notices)
      ensures peerName == if newName == [] then old(peerName) else newName
      ensures newName == [] ==> server.pendingData == old(server.pendingData) && server.changeRequests == old(server.changeRequests)
      ensures newName == [] && conn != null ==> conn.pendingData == old(conn.pendingData)
      ensures newName != [] ==>
                && server.pendingData == Fanout(old(server.pendingData), Channels(children), Frame(NAME, newName))
                && server.changeRequests == old(server.changeRequests) + FanoutRequests(Channels(children))
      ensures newName != [] && conn != null ==>
                conn.pendingData == old(conn.pendingData) + Copies(NetConnection.Wrapped(Frame(NAME, newName)), |children|)
      ensures server.keys == old(server.keys) && server.closed == old(server.closed)
      ensures server.accepting == old(server.accepting) && NetServer.SameWire(old(server.wire), server.wire)
      ensures conn != null ==> OtherThanQueue(conn) == old(OtherThanQueue(conn))
    {
      if |newName| == 0 {
        return;
      }
      var out := MkBuffer(NAME, newName);
      SendToEachChild(out.data[..]);
      peerName := newName;
    }

    /** The loop of `sendName(newName)`: `sendName(node, out)` for each
        child, each of which also puts a copy on the connection. */
    method SendToEachChild(frame: seq<byte>)
      requires Valid()
      modifies server, conn
      ensures Valid()
      ensures server.pendingData == Fanout(old(server.pendingData), Channels(children), frame)
      ensures server.changeRequests == old(server.changeRequests) + FanoutRequests(Channels(children))
      ensures conn != null ==> conn.pendingData == old(conn.pendingData) + Copies(NetConnection.Wrapped(frame), |children|)
      ensures server.keys == old(server.keys) && server.closed == old(server.closed)
      ensures server.accepting == old(server.accepting) && NetServer.SameWire(old(server.wire), server.wire)
      ensures conn != null ==> OtherThanQueue(conn) == old(OtherThanQueue(conn))
    {
      var chans := Channels(children);
      ghost var queue0 := if conn != null then conn.pendingData else [];
      var i := 0;
      while i < |chans|
        invariant 0 <= i <= |chans|
        invariant Valid()
        invariant SentToFirst(old(server.pendingData), old(server.changeRequests), queue0, chans, frame, i)
        invariant server.keys == old(server.keys) && server.closed == old(server.closed)
        invariant server.accepting == old(server.accepting) && NetServer.SameWire(old(server.wire), server.wire)
        invariant conn != null ==> OtherThanQueue(conn) == old(OtherThanQueue(conn))
      {
        SendNext(old(server.pendingData), old(server.changeRequests), queue0, chans, frame, i);
        i := i + 1;
      }
      assert chans[..i] == chans;
    }

    /** The copies of `frame` that the first `i` passes of `sendName`'s
        loop over `chans` have queued, one on the server for each socket
        and one on the connection for each pass, after what the queues
        held at first. */
    ghost predicate SentToFirst(pending0: map<Channel, seq<seq<byte>>>, reqs0: seq<ChangeRequest>,
                                queue0: seq<NetConnection.Pending>, chans: seq<Channel>, frame: seq<byte>, i: nat)
      reads this, server, conn
      requires i <= |chans|
    {
      && server.pendingData == Fanout(pending0, chans[..i], frame)
      && server.changeRequests == reqs0 + FanoutRequests(chans[..i])
      && (conn != null ==> conn.pendingData == queue0 + Copies(NetConnection.Wrapped(frame), i))
    }

    /** One pass of `sendName`'s loop: `sendName(node, out)` for the node
        on socket `chans[i]`. */
    method SendNext(ghost pending0: map<Channel, seq<seq<byte>>>, ghost reqs0: seq<ChangeRequest>,
                    ghost queue0: seq<NetConnection.Pending>, chans: seq<Channel>, frame: seq<byte>, i: nat)
      requires Valid() && i < |chans|
      requires SentToFirst(pending0, reqs0, queue0, chans, frame, i)
      modifies server, conn
      ensures Valid() && SentToFirst(pending0, reqs0, queue0, chans, frame, i + 1)
      ensures server.keys == old(server.keys) && server.closed == old(server.closed)
      ensures server.accepting == old(server.accepting) && NetServer.SameWire(old(server.wire), server.wire)
      ensures conn != null ==> OtherThanQueue(conn) == old(OtherThanQueue(conn))
    {
      SendOne(chans[i], frame);
      FanoutSnoc(pending0, chans, frame, i);
      CopiesSnoc(NetConnection.Wrapped(frame), i);
      assert server.changeRequests == reqs0 + (FanoutRequests(chans[..i]) + [ChangeRequest(chans[i], ChangeOps, OP_WRITE)]);
      assert conn != null ==> conn.pendingData == queue0 + (Copies(NetConnection.Wrapped(frame), i) + [NetConnection.Wrapped(frame)]);
    }

    /** `send(node, data)` for one node on socket `c`. */
    method SendOne(c: Channel, data: seq<byte>)
      requires Valid()
      modifies server, conn
      ensures Valid()
      ensures server.pendingData == old(server.pendingData)[c := NetServer.QueueOf(old(server.pendingData), c) + [data]]
      ensures server.changeRequests == old(server.changeRequests) + [ChangeRequest(c, ChangeOps, OP_WRITE)]
      ensures server.keys == old(server.keys) && server.closed == old(server.closed)
      ensures server.accepting == old(server.accepting) && NetServer.SameWire(old(server.wire), server.wire)
      ensures conn != null ==> OtherThanQueue(conn) == old(OtherThanQueue(conn))
      ensures conn != null ==> conn.pendingData == old(conn.pendingData) + [NetConnection.Wrapped(data)]
    {
      Send(Some(c), data);
      FanoutOne(old(server.pendingData), c, data);
    }

    /** `setName(name)`: announce the name only when it differs from the
        current one. */
    method SetName(name: String16)
      requires Valid() && |name| <= MAX_FRAME_STRING
      modifies this, server, conn
      ensures Valid()
      ensures conn == old(conn) && children == old(children) && notices == old(notices)
      ensures peerName == if name == [] then old(peerName) else name
      ensures name == old(peerName) || name == [] ==>
                server.pendingData == old(server.pendingData) && server.changeRequests == old(server.changeRequests)
      ensures name != old(peerName) && name != [] ==>
                && server.pendingData == Fanout(old(server.pendingData), Channels(children), Frame(NAME, name))
                && server.changeRequests == old(server.changeRequests) + FanoutRequests(Channels(children))
      ensures (name == old(peerName) || name == []) && conn != null ==> conn.pendingData == old(conn.pendingData)
      ensures name != old(peerName) && name != [] && conn != null ==>
                conn.pendingData == old(conn.pendingData) + Copies(NetConnection.Wrapped(Frame(NAME, name)), |children|)
      ensures server.keys == old(server.keys) && server.closed == old(server.closed)
      ensures server.accepting == old(server.accepting) && NetServer.SameWire(old(server.wire), server.wire)
      ensures conn != null ==> OtherThanQueue(conn) == old(OtherThanQueue(conn))
    {
      if name != peerName {
        SendName(name);
      }
    }

    /** `handleWrite`: the peer keeps every connection after a write. */
    method HandleWrite(ch: Channel, count: int) returns (accepted: bool)
      ensures accepted
    {
      accepted := true;
    }

    /** `handleRead(ch, buffer, count)`: every frame in the buffer, left to
        right; answers true unless an exception escapes. */
    method HandleRead(ch: Channel, buf: Buffers.ByteBuffer) returns (r: Result<bool>)
      requires Valid() && buf.Valid()
      modifies this, buf
      ensures Valid() && peerName == old(peerName) && conn == old(conn)
      ensures var e := DecodeFrames(old(children), old(buf.Unread()), ch);
              && children == e.children
              && notices == old(notices) + e.notices
              && r == (if e.fault.None? then Ok(true) else Err(e.fault.value))
    {
      ghost var whole := DecodeFrames(children, buf.Unread(), ch);
      ghost var shown: seq<Notice> := [];
      ghost var notices0 := notices;
      while buf.position < buf.limit
        invariant buf.Valid() && buf.limit == old(buf.limit)
        invariant notices == notices0 + shown
        invariant Reading(whole, children, buf.Unread(), ch, shown)
        invariant Valid() && peerName == old(peerName) && conn == old(conn)
        decreases buf.limit - buf.position
      {
        var fault;
        fault, shown := ReadFrame(ch, buf, whole, notices0, shown);
        if fault.Some? {
          return Err(fault.value);
        }
      }
      r := Ok(true);
    }

    /** `HandleFrame` as a pass of `HandleRead`'s loop, which has shown
        `shown` so far of what the whole buffer shows, `whole`. */
    method ReadFrame(ch: Channel, buf: Buffers.ByteBuffer, ghost whole: Effect,
                     ghost notices0: seq<Notice>, ghost shown: seq<Notice>)
      returns (fault: Option<Fault>, ghost shown': seq<Notice>)
      requires Valid() && buf.Valid() && buf.position < buf.limit
      requires notices == notices0 + shown && Reading(whole, children, buf.Unread(), ch, shown)
      modifies this, buf
      ensures Valid() && peerName == old(peerName) && conn == old(conn)
      ensures buf.Valid() && buf.limit == old(buf.limit) && notices == notices0 + shown'
      ensures fault.None? ==> Reading(whole, children, buf.Unread(), ch, shown') && buf.position > old(buf.position)
      ensures fault.Some? ==> whole == Effect(children, shown', fault)
    {
      ghost var input := buf.Unread();
      ghost var c0 := children;
      fault := HandleFrame(ch, buf);
      ReadingStep(whole, c0, input, ch, shown);
      shown' := shown + FrameStep(c0, input, ch).notices;
      if fault.None? {
        assert buf.Unread() == input[FrameStep(c0, input, ch).size..];
      }
    }

    /** One pass of the `handleRead` loop: read the opcode and handle it. */
    method HandleFrame(ch: Channel, buf: Buffers.ByteBuffer) returns (fault: Option<Fault>)
      requires Valid() && buf.Valid() && buf.position < buf.limit
      modifies this, buf
      ensures Valid() && peerName == old(peerName) && conn == old(conn)
      ensures buf.Valid() && buf.limit == old(buf.limit)
      ensures var s := FrameStep(old(children), old(buf.Unread()), ch);
              && fault == s.fault
              && (fault.Some? ==> children == old(children) && notices == old(notices))
              && (fault.None? ==> children == s.children && notices == old(notices) + s.notices
                                  && buf.Unread() == old(buf.Unread())[s.size..])
    {
      ghost var input := buf.Unread();
      var request := buf.Get();
      assert buf.Unread() == input[1..];
      if request.value == MESSAGE {
        fault := ReceiveMessage(ch, buf);
      } else if request.value == NAME {
        fault := ReceiveName(ch, buf);
      } else {
        fault := None;
      }
      if fault.None? && request.value in {MESSAGE, NAME} {
        assert input[1..][DecodeString(input[1..]).value.size..] == input[1 + DecodeString(input[1..]).value.size..];
      }
    }

    /** The MESSAGE case of `handleRead`: `getString`, then show the text
        under the name of the first child on `ch` (or null). */
    method ReceiveMessage(ch: Channel, buf: Buffers.ByteBuffer) returns (fault: Option<Fault>)
      requires Valid() && buf.Valid()
      modifies this, buf
      ensures Valid() && peerName == old(peerName) && conn == old(conn) && children == old(children)
      ensures buf.Valid() && buf.limit == old(buf.limit)
      ensures var d := DecodeString(old(buf.Unread()));
              && (d.Err? ==> fault == Some(d.fault) && notices == old(notices))
              && (d.Ok? ==> && fault.None?
                            && notices == old(notices) + [AppendText(SenderOf(children, ch), d.value.text)]
                            && buf.Unread() == old(buf.Unread())[d.value.size..])
    {
      ghost var input := buf.Unread();
      var message := GetString(buf);
      if message.Err? {
        return Some(message.fault);
      }
      var found := LocateChild(children, ch);
      var sender := if found.Some? then children[found.value].peerName else None;
      notices := notices + [AppendText(sender, message.value)];
      fault := None;
    }

    /** The NAME case of `handleRead`: `getString`, then tell the window
        and rename the first child on `ch`, if any. */
    method ReceiveName(ch: Channel, buf: Buffers.ByteBuffer) returns (fault: Option<Fault>)
      requires Valid() && buf.Valid()
      modifies this, buf
      ensures Valid() && peerName == old(peerName) && conn == old(conn)
      ensures buf.Valid() && buf.limit == old(buf.limit)
      ensures var d := DecodeString(old(buf.Unread()));
              && (d.Err? ==> fault == Some(d.fault) && notices == old(notices) && children == old(children))
              && (d.Ok? ==> && fault.None?
                            && buf.Unread() == old(buf.Unread())[d.value.size..]
                            && match FindChild(old(children), ch)
                               case None => children == old(children) && notices == old(notices)
                               case Some(i) =>
                                 && children == old(children)[i := Child(ch, d.value.text)]
                                 && notices == old(notices) + [PeerNameChanged(ch, old(children)[i].peerName, d.value.text)])
    {
      var name := GetString(buf);
      if name.Err? {
        return Some(name.fault);
      }
      var found := LocateChild(children, ch);
      if found.Some? {
        var i := found.value;
        notices := notices + [PeerNameChanged(ch, children[i].peerName, name.value)];
        children := children[i := Child(ch, name.value)];
      }
      fault := None;
    }

    /** `handleConnection(ch)`: a new nameless child on `ch`, which is sent
        this peer's name (as is the connection); the window is told, and its
        `peerConnected` names the child "unnamed". */
    method HandleConnection(ch: Channel) returns (accepted: bool)
      requires Valid()
      modifies this, server, conn
      ensures Valid() && accepted
      ensures conn == old(conn) && peerName == old(peerName)
      ensures children == old(children) + [Child(ch, Some(UNNAMED))]
      ensures notices == old(notices) + [PeerConnected(ch)]
      ensures server.pendingData == old(server.pendingData)[ch := NetServer.QueueOf(old(server.pendingData), ch) + [Frame(NAME, peerName)]]
      ensures server.changeRequests == old(server.changeRequests) + [ChangeRequest(ch, ChangeOps, OP_WRITE)]
      ensures conn != null ==> conn.pendingData == old(conn.pendingData) + [NetConnection.Wrapped(Frame(NAME, peerName))]
      ensures server.keys == old(server.keys) && server.closed == old(server.closed)
      ensures server.accepting == old(server.accepting) && NetServer.SameWire(old(server.wire), server.wire)
      ensures conn != null ==> OtherThanQueue(conn) == old(OtherThanQueue(conn))
    {
      children := children + [Child(ch, None)];
      var out := MkBuffer(NAME, peerName);
      SendOne(ch, out.data[..]);
      notices := notices + [PeerConnected(ch)];
      children := children[|children| - 1 := Child(ch, Some(UNNAMED))];
      accepted := true;
    }

    /** `handleConnectionClose(ch)`: the first child on `ch` is removed and
        reported; the "unable to find" line is shown in every case. */
    method HandleConnectionClose(ch: Channel) returns (accepted: bool)
      requires Valid()
      modifies this
      ensures Valid() && accepted
      ensures conn == old(conn) && peerName == old(peerName)
      ensures children == WithoutChild(old(children), ch)
      ensures notices == old(notices) + (if FindChild(old(children), ch).Some? then [PeerDisconnected(ch)] else []) + [NOT_FOUND]
    {
      WithoutChildSplits(children, ch);
      var found := LocateChild(children, ch);
      if found.Some? {
        var i := found.value;
        notices := notices + [PeerDisconnected(ch)];
        children := children[..i] + children[i + 1..];
      }
      notices := notices + [NOT_FOUND];
      accepted := true;
    }

    /** The body of the `kick` loop for one child: tell the window, then
        `server.close` its socket, whose close callback is this peer's
        `handleConnectionClose`. */
    method CloseChild(c: Channel) returns (outcome: Outcome)
      requires Valid()
      modifies this, server
      ensures Valid() && conn == old(conn) && peerName == old(peerName)
      ensures children == WithoutChild(old(children), c)
      ensures notices == old(notices) + [PeerDisconnected(c)]
                         + (if FindChild(old(children), c).Some? then [PeerDisconnected(c)] else []) + [NOT_FOUND]
      ensures outcome == if c in old(server.keys) then Completed else Raised(NullPointer)
      ensures server.closed == old(server.closed) + {c}
      ensures server.keys == if c in old(server.keys) then Cancelled(old(server.keys), c) else old(server.keys)
      ensures server.changeRequests == if c in old(server.keys) then RemoveFirstOn(old(server.changeRequests), c) else old(server.changeRequests)
      ensures server.pendingData == old(server.pendingData) && server.accepting == old(server.accepting)
      ensures server.queued == old(server.queued) && server.wire == old(server.wire)
    {
      notices := notices + [PeerDisconnected(c)];
      var proceed := HandleConnectionClose(c);
      outcome := server.Close(c, proceed);
    }

    /** `kick(name)`, as written: iterate over the children and close the
        socket of each one called `name`; see KickOutcome. */
    method Kick(name: String16) returns (outcome: Outcome)
      requires Valid()
      modifies this, server
      ensures Valid() && conn == old(conn) && peerName == old(peerName)
      ensures (children, outcome) == KickOutcome(old(children), name, old(server.keys))
      ensures match FindNamed(old(children), name)
              case None =>
                && notices == old(notices) && server.keys == old(server.keys) && server.closed == old(server.closed)
                && server.changeRequests == old(server.changeRequests)
              case Some(i) =>
                var c := old(children)[i].channel;
                && notices == old(notices) + [PeerDisconnected(c), PeerDisconnected(c), NOT_FOUND]
                && server.closed == old(server.closed) + {c}
                && server.keys == (if c in old(server.keys) then Cancelled(old(server.keys), c) else old(server.keys))
                && server.changeRequests == (if c in old(server.keys) then RemoveFirstOn(old(server.changeRequests), c) else old(server.changeRequests))
      ensures server.pendingData == old(server.pendingData) && server.accepting == old(server.accepting)
      ensures server.queued == old(server.queued) && server.wire == old(server.wire)
    {
      var i := 0;
      while i < |children|
        invariant 0 <= i <= |children| && children == old(children)
        invariant forall j :: 0 <= j < i ==> children[j].peerName != Some(name)
        invariant Valid() && conn == old(conn) && peerName == old(peerName) && notices == old(notices)
        invariant server.keys == old(server.keys) && server.closed == old(server.closed)
        invariant server.changeRequests == old(server.changeRequests) && server.pendingData == old(server.pendingData)
        invariant server.accepting == old(server.accepting) && server.queued == old(server.queued) && server.wire == old(server.wire)
      {
        var node := children[i];
        i := i + 1;
        if node.peerName == Some(name) {
          assert FindNamed(children, name) == Some(i - 1);
          assert FindChild(children, node.channel).Some?;
          outcome := CloseChild(node.channel);
          if outcome.Raised? {
            return;
          }
          if i < |children| {
            return Raised(ConcurrentModification);
          }
          return Completed;
        }
      }
      outcome := Completed;
    }

    /** One pass of the corrected kick loop: close the socket `doomed[k]`
        of the children that started as `children0`, with keys `keys0`. */
    method CloseNext(ghost children0: seq<Child>, ghost keys0: map<Channel, Key>, doomed: seq<Channel>, k: nat)
      returns (outcome: Outcome)
      requires Valid() && k < |doomed|
      requires children == WithoutEachPrefix(children0, doomed, k) && server.keys.Keys == keys0.Keys
      modifies this, server
      ensures Valid() && conn == old(conn) && peerName == old(peerName)
      ensures server.keys.Keys == keys0.Keys
      ensures outcome.Completed? ==> children == WithoutEachPrefix(children0, doomed, k + 1) && doomed[k] in keys0
      ensures outcome.Raised? ==> outcome.fault == NullPointer && doomed[k] !in keys0
      ensures server.pendingData == old(server.pendingData) && server.accepting == old(server.accepting)
      ensures server.queued == old(server.queued) && server.wire == old(server.wire)
    {
      outcome := CloseChild(doomed[k]);
    }

    /** Corrected `kick(name)`: collect the sockets of the children called
        `name` first, then close each one, so that the close callback never
        removes from a list being iterated. */
    method KickAll(name: String16) returns (outcome: Outcome)
      requires Valid() && DistinctChannels(children)
      modifies this, server
      ensures Valid() && conn == old(conn) && peerName == old(peerName)
      ensures outcome.Completed? ==> children == WithoutNamed(old(children), name)
      ensures outcome.Completed? <==> forall c :: c in NamedChannels(old(children), name) ==> c in old(server.keys)
      ensures outcome.Raised? ==> outcome.fault == NullPointer
      ensures server.pendingData == old(server.pendingData) && server.accepting == old(server.accepting)
      ensures server.queued == old(server.queued) && server.wire == old(server.wire)
    {
      ghost var children0 := children;
      var doomed := NamedChannels(children, name);
      outcome := CloseAll(doomed);
      if outcome.Completed? {
        KickAllRemovesNamesakes(children0, name);
      }
    }

    /** The closing loop of the corrected kick: close the socket of each of
        `doomed` in turn, stopping at the first one with no key. */
    method CloseAll(doomed: seq<Channel>) returns (outcome: Outcome)
      requires Valid()
      modifies this, server
      ensures Valid() && conn == old(conn) && peerName == old(peerName)
      ensures outcome.Completed? ==> children == WithoutEach(old(children), doomed)
      ensures outcome.Completed? <==> forall c :: c in doomed ==> c in old(server.keys)
      ensures outcome.Raised? ==> outcome.fault == NullPointer
      ensures server.pendingData == old(server.pendingData) && server.accepting == old(server.accepting)
      ensures server.queued == old(server.queued) && server.wire == old(server.wire)
    {
      ghost var children0, keys0 := children, server.keys;
      outcome := Completed;
      var k := 0;
      while k < |doomed|
        invariant 0 <= k <= |doomed| && outcome == Completed
        invariant Valid() && conn == old(conn) && peerName == old(peerName)
        invariant children == WithoutEachPrefix(children0, doomed, k)
        invariant Keyed(doomed, k, keys0)
        invariant server.keys.Keys == keys0.Keys
        invariant server.pendingData == old(server.pendingData) && server.accepting == old(server.accepting)
        invariant server.queued == old(server.queued) && server.wire == old(server.wire)
      {
        outcome := CloseNext(children0, keys0, doomed, k);
        if outcome.Raised? {
          assert doomed[k] in doomed && doomed[k] !in keys0;
          return;
        }
        KeyedStep(doomed, k, keys0);
        k := k + 1;
      }
      assert children == WithoutEach(children0, doomed) by {
        WithoutEachPrefixAll(children0, doomed);
      }
      KeyedAll(doomed, keys0);
    }
  }

  /** The first `k` sockets of `doomed` all have keys. */
  ghost predicate Keyed(doomed: seq<Channel>, k: nat, keys: map<Channel, Key>)
    requires k <= |doomed|
  {
    forall j :: 0 <= j < k ==> doomed[j] in keys
  }

  lemma {:induction false} KeyedStep(doomed: seq<Channel>, k: nat, keys: map<Channel, Key>)
    requires k < |doomed| && Keyed(doomed, k, keys) && doomed[k] in keys
    ensures Keyed(doomed, k + 1, keys)
  {
  }

  lemma {:induction false} KeyedAll(doomed: seq<Channel>, keys: map<Channel, Key>)
    requires Keyed(doomed, |doomed|, keys)
    ensures forall c :: c in doomed ==> c in keys
  {
  }

  /** Removing the child on each of the first `k` sockets of `chans`. */
  function WithoutEachPrefix(children: seq<Child>, chans: seq<Channel>, k: nat): seq<Child>
    requires k <= |chans|
    decreases k
  {
    if k == 0 then children else WithoutChild(WithoutEachPrefix(children, chans, k - 1), chans[k - 1])
  }

  lemma {:induction false} WithoutEachPrefixAll(children: seq<Child>, chans: seq<Channel>)
    ensures WithoutEachPrefix(children, chans, |chans|) == WithoutEach(children, chans)
  {
    WithoutEachPrefixShift(children, chans, |chans|);
  }

  lemma {:induction false} WithoutEachPrefixShift(children: seq<Child>, chans: seq<Channel>, k: nat)
    requires k <= |chans|
    ensures WithoutEach(WithoutEachPrefix(children, chans, k), chans[k..]) == WithoutEach(children, chans)
  {
    if k > 0 {
      WithoutEachPrefixShift(children, chans, k - 1);
      assert chans[k - 1..][1..] == chans[k..];
    } else {
      assert chans[0..] == chans;
    }
  }

  // ---------------------------------------------------------------------
  // What a dialling peer reads

  /** The dialling side up to its first read: `connect` with the peer as
      the listener, the selector registers the channel, the connect
      completes and `finishConnection` hands the socket to the peer's
      `handleConnection`, which names the child "unnamed". */
  method Dialled(ch: Channel) returns (p: Peer)
    ensures fresh(p) && p.conn != null && fresh(p.conn) && p.Valid() && p.conn.channel.Some? && p.conn.hasListener
    ensures ch in p.conn.keys && p.conn.keys[ch].valid
    ensures p.children == [Child(ch, Some(UNNAMED))] && p.notices == [PeerConnected(ch)]
  {
    p := new Peer([], 0);
    p.Connect(ch, false);
    var c := p.conn;
    var registered := c.ApplyChangeRequests();
    var accepted := p.HandleConnection(ch);
    var connected := c.FinishConnection(ch, true, accepted);
  }

  /** A peer dials socket `ch` (`connect`, with itself as the listener,
      and with the dialler's channel assigned as in DialAssigned), the
      connect completes and `finishConnection` calls the peer's
      `handleConnection`, which adds a child on `ch` that the window calls
      "unnamed"; then the other side's bytes arrive. The read as written
      (no flip) hands the buffer to the peer's `handleRead`, which sees
      only zeros: whatever was sent, the read shows nothing after the
      connection notice. */
  method DialerMissesReply(ch: Channel, bytes: seq<byte>) returns (r: Result<bool>, shown: seq<Notice>)
    ensures r == Ok(true) && shown == [PeerConnected(ch)]
  {
    var p := Dialled(ch);
    var c := p.conn;
    var outcome, buf := c.Read(ch, Received(bytes, true));
    ghost var tail := READ_SIZE - Min(|bytes|, READ_SIZE);
    assert buf.Unread() == Zeros(tail);
    ZerosSkipped(p.children, tail, ch);
    assert p.notices == [PeerConnected(ch)];
    r := p.HandleRead(ch, buf);
    shown := p.notices;
  }

  /** Corrected: with the buffer flipped, a MESSAGE frame from the other
      side is shown, under the name "unnamed" that the window gave the
      child on that socket. */
  method DialerShowsReply(ch: Channel, m: String16) returns (r: Result<bool>, shown: seq<Notice>)
    requires 0 < |m| <= MAX_FRAME_STRING && |Frame(MESSAGE, m)| <= READ_SIZE
    ensures r == Ok(true) && shown == [PeerConnected(ch), AppendText(Some(UNNAMED), Some(m))]
  {
    var p := Dialled(ch);
    var c := p.conn;
    var outcome, buf := c.ReadFlipped(ch, Received(Frame(MESSAGE, m), true));
    assert buf.Unread() == Frame(MESSAGE, m);
    MessageFrameDelivers(p.children, ch, m, []);
    assert Frame(MESSAGE, m) + [] == Frame(MESSAGE, m);
    r := p.HandleRead(ch, buf);
    shown := p.notices;
  }
}
