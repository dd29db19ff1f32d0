/** The chat window's bookkeeping (P2PChat.java): the participants list,
    the list of known peers as "host:port" entries, the transcript, the
    disambiguation of clashing nicknames, and the parsing of what the user
    types. Swing itself is not modelled: each list model is a sequence and
    the text area is the sequence of strings appended to it. */
module ChatWindow {
  import opened Wire

  // ---------------------------------------------------------------------
  // Java strings and ints as the window prints and parses them

  /** `"" + s` for a possibly null string. */
  function Show(s: Option<string>): string
  {
    match s
    case None => "null"
    case Some(t) => t
  }

  function DigitChar(d: nat): char
    requires d < 10
  {
    "0123456789"[d]
  }

  predicate IsDigit(c: char)
  {
    '0' <= c <= '9'
  }

  predicate AllDigits(s: string)
  {
    forall i :: 0 <= i < |s| ==> IsDigit(s[i])
  }

  /** The decimal digits of `n`, most significant first. */
  function Digits(n: nat): (r: string)
    ensures r != [] && IsDigit(r[|r| - 1])
    decreases n
  {
    if n < 10 then [DigitChar(n)] else Digits(n / 10) + [DigitChar(n % 10)]
  }

  /** `String.valueOf(n)`. */
  function IntToString(n: int): (r: string)
    ensures r != [] && IsDigit(r[|r| - 1])
  {
    if n < 0 then "-" + Digits(-n) else Digits(n)
  }

  /** The value of a string of decimal digits. */
  function DigitsValue(s: string): nat
    requires AllDigits(s)
  {
    if s == [] then 0 else DigitsValue(s[..|s| - 1]) * 10 + (s[|s| - 1] as int - '0' as int)
  }

  /** `Integer.parseInt(s)`: an optional sign, then at least one decimal
      digit, and a value within `int`; anything else throws
      NumberFormatException (None). */
  function ParseInt(s: string): (r: Option<int32>)
    ensures r.Some? ==> s != [] && IsDigit(s[|s| - 1])
  {
    if s == [] then None
    else
      var body := if s[0] == '-' || s[0] == '+' then s[1..] else s;
      if body == [] || !AllDigits(body) then None
      else
        var d: int := DigitsValue(body);
        var v := if s[0] == '-' then -d else d;
        if -0x8000_0000 <= v < 0x8000_0000 then Some(v) else None
  }

  lemma {:induction false} DigitsRoundTrip(n: nat)
    ensures AllDigits(Digits(n)) && DigitsValue(Digits(n)) == n
    decreases n
  {
    var d := Digits(n);
    if n >= 10 {
      var q, r := n / 10, n % 10;
      DigitsRoundTrip(q);
      assert d == Digits(q) + [DigitChar(r)];
      assert d[..|d| - 1] == Digits(q) && d[|d| - 1] == DigitChar(r);
      assert DigitChar(r) as int - '0' as int == r;
      assert n == q * 10 + r;
    } else {
      assert d == [DigitChar(n)];
    }
  }

  /** `Integer.parseInt` reads back every int that `String.valueOf` prints. */
  lemma {:induction false} ParseIntRoundTrip(n: int32)
    ensures ParseInt(IntToString(n)) == Some(n)
  {
    var s := IntToString(n);
    if n < 0 {
      var m: nat := -(n as int);
      DigitsRoundTrip(m);
      assert s == "-" + Digits(m);
      assert s[0] == '-' && s[1..] == Digits(m);
    } else {
      DigitsRoundTrip(n);
      assert s == Digits(n) && IsDigit(s[0]);
    }
  }

  // ---------------------------------------------------------------------
  // "host:port" entries of the peer list

  /** The entry `hostName + ":" + port` of the peer list. */
  function HostPort(host: string, port: int32): (r: string)
    ensures r != [] && IsDigit(r[|r| - 1])
  {
    host + ":" + IntToString(port)
  }

  /** A peer-list entry taken apart, or an entry that makes `substring`
      or `parseInt` throw. */
  datatype HostEntry = Parsed(host: string, port: int32) | BadEntry

  /** What a click on a peer-list entry extracts: the text before the first
      ':' and the port parsed from the text after it. */
  function SplitHostPort(entry: string): (r: HostEntry)
    ensures r.Parsed? ==> ':' !in r.host
  {
    var sep := IndexOf(entry, ':');
    if sep == -1 then BadEntry
    else match ParseInt(entry[sep + 1..])
      case None => BadEntry
      case Some(p) => Parsed(entry[..sep], p)
  }

  /** Clicking an entry gives back the host and port it was made from, as
      long as the host contains no ':'. */
  lemma {:induction false} HostPortRoundTrip(host: string, port: int32)
    requires ':' !in host
    ensures SplitHostPort(HostPort(host, port)) == Parsed(host, port)
  {
    var t := IntToString(port);
    var e := HostPort(host, port);
    assert e == host + ":" + t;
    assert IndexOf(e, ':') == |host| by {
      assert e[|host|] == ':';
      forall j | 0 <= j < |host|
        ensures e[j] != ':'
      {
        assert e[j] == host[j];
      }
    }
    assert e[|host| + 1..] == t && e[..|host|] == host;
    ParseIntRoundTrip(port);
  }

  // ---------------------------------------------------------------------
  // Nickname disambiguation (peerNameChanged)

  /** Whether a nickname clashes with a participant or with the local name. */
  predicate Taken(list: seq<Option<string>>, local: string, name: string)
  {
    Some(name) in list || name == local
  }

  /** The length of the longest name that a nickname can clash with. */
  function MaxLen(list: seq<Option<string>>, local: string): (m: nat)
    ensures |local| <= m
    ensures forall i :: 0 <= i < |list| && list[i].Some? ==> |list[i].value| <= m
  {
    if list == [] then |local|
    else
      var rest := MaxLen(list[1..], local);
      if list[0].Some? && |list[0].value| > rest then |list[0].value| else rest
  }

  lemma {:induction false} TakenBounded(list: seq<Option<string>>, local: string, name: string)
    requires Taken(list, local, name)
    ensures |name| <= MaxLen(list, local)
  {
    if name != local {
      var i :| 0 <= i < |list| && list[i] == Some(name);
    }
  }

  /** `k` underscores. */
  function Underscores(k: nat): (r: string)
    ensures |r| == k && forall i :: 0 <= i < k ==> r[i] == '_'
  {
    seq(k, _ => '_')
  }

  /** The nickname after the `peerNameChanged` loop: underscores appended
      until it clashes with nobody. */
  function Disambiguate(list: seq<Option<string>>, local: string, name: string): string
    decreases MaxLen(list, local) + 1 - |name|
  {
    if Taken(list, local, name) then
      TakenBounded(list, local, name);
      Disambiguate(list, local, name + "_")
    else name
  }

  /** The loop ends on a nickname that is free, made of the proposed one
      and the fewest underscores that make it free. */
  lemma {:induction false} DisambiguateIsLeastFree(list: seq<Option<string>>, local: string, name: string)
    ensures var r := Disambiguate(list, local, name);
            && !Taken(list, local, r)
            && |name| <= |r| && r == name + Underscores(|r| - |name|)
            && forall j :: 0 <= j < |r| - |name| ==> Taken(list, local, name + Underscores(j))
    decreases MaxLen(list, local) + 1 - |name|
  {
    if Taken(list, local, name) {
      TakenBounded(list, local, name);
      DisambiguateIsLeastFree(list, local, name + "_");
      var r := Disambiguate(list, local, name);
      assert r == Disambiguate(list, local, name + "_");
      assert (name + "_") + Underscores(|r| - |name| - 1) == name + Underscores(|r| - |name|);
      forall j | 0 <= j < |r| - |name|
        ensures Taken(list, local, name + Underscores(j))
      {
        if j > 0 {
          assert (name + "_") + Underscores(j - 1) == name + Underscores(j);
        } else {
          assert name + Underscores(0) == name;
        }
      }
    } else {
      assert name + Underscores(0) == name;
    }
  }

  /** A free nickname is kept as it is. */
  lemma {:induction false} FreeNameKept(list: seq<Option<string>>, local: string, name: string)
    requires !Taken(list, local, name)
    ensures Disambiguate(list, local, name) == name
  {
  }

  // ---------------------------------------------------------------------
  // List models

  /** `indexOf(x)` of a list model, or of a string: the first position
      of `x`, or -1. */
  function IndexOf<T(==)>(list: seq<T>, x: T): (r: int)
    ensures -1 <= r < |list|
    ensures r >= 0 ==> list[r] == x && forall j :: 0 <= j < r ==> list[j] != x
    ensures r == -1 <==> x !in list
  {
    if list == [] then -1
    else if list[0] == x then 0
    else
      var i := IndexOf(list[1..], x);
      if i == -1 then -1 else i + 1
  }

  /** Whether no entry occurs twice. */
  predicate NoDuplicates<T(==)>(list: seq<T>)
  {
    forall i, j :: 0 <= i < j < |list| ==> list[i] != list[j]
  }

  // ---------------------------------------------------------------------
  // What the user types (sendTextMessage)

  /** The pieces of `s` between single spaces, empty ones included. */
  function Pieces(s: string): (r: seq<string>)
    ensures |r| >= 1
  {
    if s == [] then [""]
    else
      var rest := Pieces(s[1..]);
      if s[0] == ' ' then [""] + rest else [[s[0]] + rest[0]] + rest[1..]
  }

  /** The list without its trailing empty strings. */
  function TrimTrailingEmpty(p: seq<string>): (r: seq<string>)
    ensures |r| <= |p| && r == p[..|r|]
    ensures r != [] ==> r[|r| - 1] != ""
  {
    if p == [] then []
    else if p[|p| - 1] == "" then TrimTrailingEmpty(p[..|p| - 1])
    else p
  }

  /** `s.split(" ")`: the string itself when it has no space, otherwise the
      pieces between spaces without the trailing empty ones. */
  function Split(s: string): seq<string>
  {
    if ' ' !in s then [s] else TrimTrailingEmpty(Pieces(s))
  }

  /** The loop `newNick += splitted[i] + " "` over the pieces. */
  function JoinSpaced(p: seq<string>): (r: string)
  {
    if p == [] then "" else p[0] + " " + JoinSpaced(p[1..])
  }

  /** What the text field's content asks for. */
  datatype Command =
    | Ignore
    | Nick(newNick: string)
    | KickRequest(nick: string)
    | Invalid
    | Help
    | Say(message: string)

  /** The commands `sendTextMessage` knows. */
  const NICK: string := "/nick"
  const KICK: string := "/kick"
  const HELP_COMMAND: string := "/help"

  /** `sendTextMessage`: an empty line does nothing; a line starting with
      '/' is a command, whose argument is every later piece followed by a
      space; any other line is a chat message. */
  function Interpret(message: string): Command
  {
    if message == [] then Ignore
    else if message[0] == '/' then
      var sp := Split(message);
      if |sp| > 1 then
        if sp[0] == NICK then Nick(JoinSpaced(sp[1..]))
        else if sp[0] == KICK then KickRequest(JoinSpaced(sp[1..]))
        else Invalid
      else if sp != [] && sp[0] == HELP_COMMAND then Help
      else Ignore
    else Say(message)
  }

  /** The command loop: builds the argument of `/nick` and `/kick` piece by
      piece. */
  method ParseCommand(message: string) returns (cmd: Command)
    ensures cmd == Interpret(message)
  {
    if message == [] {
      return Ignore;
    }
    if message[0] != '/' {
      return Say(message);
    }
    var splitted := Split(message);
    if |splitted| > 1 {
      if splitted[0] == NICK || splitted[0] == KICK {
        var arg := JoinArgument(splitted[1..]);
        cmd := if splitted[0] == NICK then Nick(arg) else KickRequest(arg);
      } else {
        cmd := Invalid;
      }
    } else if splitted != [] && splitted[0] == HELP_COMMAND {
      cmd := Help;
    } else {
      cmd := Ignore;
    }
  }

  /** The argument loop of `sendTextMessage`: every piece in turn, each
      followed by a space. */
  method JoinArgument(pieces: seq<string>) returns (arg: string)
    ensures arg == JoinSpaced(pieces)
  {
    arg := "";
    var i := 0;
    while i < |pieces|
      invariant 0 <= i <= |pieces|
      invariant arg == JoinSpaced(pieces[..i])
    {
      assert pieces[..i + 1] == pieces[..i] + [pieces[i]];
      JoinSpacedSnoc(pieces[..i], pieces[i]);
      arg := arg + pieces[i] + " ";
      i := i + 1;
    }
    assert pieces[..i] == pieces;
  }

  /** One more piece appends it and a space. */
  lemma {:induction false} JoinSpacedSnoc(p: seq<string>, w: string)
    ensures JoinSpaced(p + [w]) == JoinSpaced(p) + w + " "
  {
    if p == [] {
      assert JoinSpaced([w]) == w + " " + JoinSpaced([]);
    } else {
      assert (p + [w])[1..] == p[1..] + [w];
      JoinSpacedSnoc(p[1..], w);
      assert p[0] + " " + (JoinSpaced(p[1..]) + w + " ") == (p[0] + " " + JoinSpaced(p[1..])) + w + " ";
    }
  }

  /** Joining the pieces of a string, each followed by a space, gives the
      string back with one space appended. */
  lemma {:induction false} JoinPieces(s: string)
    ensures JoinSpaced(Pieces(s)) == s + " "
  {
    if s == [] {
      assert JoinSpaced([""]) == "" + " " + JoinSpaced([]);
    } else {
      var rest := Pieces(s[1..]);
      JoinPieces(s[1..]);
      assert s == [s[0]] + s[1..];
      if s[0] == ' ' {
        assert ([""] + rest)[1..] == rest;
      } else {
        JoinPiecesWord(s[0], rest);
      }
    }
  }

  /** Growing the first piece by one character grows the join by it. */
  lemma {:induction false} JoinPiecesWord(c: char, rest: seq<string>)
    requires |rest| >= 1
    ensures JoinSpaced([[c] + rest[0]] + rest[1..]) == [c] + JoinSpaced(rest)
  {
    var w := rest[0];
    var t := rest[1..];
    var jt := JoinSpaced(t);
    assert ([[c] + w] + t)[1..] == t;
    assert ([c] + w) + " " + jt == [c] + (w + " " + jt);
  }

  /** The last piece is empty exactly when the string is empty or ends with
      a space. */
  lemma {:induction false} LastPiece(s: string)
    ensures var p := Pieces(s);
            p[|p| - 1] == "" <==> (s == [] || s[|s| - 1] == ' ')
  {
    if s != [] {
      LastPiece(s[1..]);
      var rest := Pieces(s[1..]);
      if s[0] != ' ' && |rest| == 1 {
        assert s[1..] == [] || s[|s| - 1] == s[1..][|s[1..]| - 1];
      }
    }
  }

  /** A first word without spaces comes out as the first piece. */
  lemma {:induction false} PiecesAfterWord(w: string, t: string)
    requires ' ' !in w
    ensures Pieces(w + " " + t) == [w] + Pieces(t)
  {
    if w != [] {
      PiecesAfterWord(w[1..], t);
      assert (w + " " + t)[1..] == w[1..] + " " + t;
      assert [w[0]] + w[1..] == w;
    } else {
      assert (" " + t)[1..] == t;
    }
  }

  /** A command word, a space and an argument that does not end with a
      space split into the word and the argument's pieces, which join back
      to the argument with one space appended. */
  lemma {:induction false} CommandArgument(word: string, rest: string)
    requires word != [] && ' ' !in word
    requires rest != [] && rest[|rest| - 1] != ' '
    ensures var sp := Split(word + " " + rest);
            |sp| > 1 && sp[0] == word && JoinSpaced(sp[1..]) == rest + " "
  {
    var sp := Split(word + " " + rest);
    SplitAfterWord(word, rest);
    assert sp[1..] == Pieces(rest);
    JoinPieces(rest);
  }

  /** The split of a command line is the word and the argument's pieces. */
  lemma {:induction false} SplitAfterWord(word: string, rest: string)
    requires word != [] && ' ' !in word
    requires rest != [] && rest[|rest| - 1] != ' '
    ensures Split(word + " " + rest) == [word] + Pieces(rest)
  {
    TrimKeepsLast(word, rest);
    var m := word + " " + rest;
    assert m[|word|] == ' ';
    SplitOnSpace(m, |word|);
    PiecesAfterWord(word, rest);
  }

  /** A line with a space splits into its trimmed pieces. */
  lemma {:induction false} SplitOnSpace(m: string, k: nat)
    requires k < |m| && m[k] == ' '
    ensures Split(m) == TrimTrailingEmpty(Pieces(m))
  {
  }

  /** A string that does not end with a space has a non-empty last piece. */
  lemma {:induction false} LastPieceKept(s: string)
    requires s != [] && s[|s| - 1] != ' '
    ensures |Pieces(s)| > 0 && |Pieces(s)[|Pieces(s)| - 1]| > 0
  {
    LastPiece(s);
  }

  /** Nothing is trimmed after a word when the argument does not end with
      a space. */
  lemma {:induction false} TrimKeepsLast(word: string, rest: string)
    requires rest != [] && rest[|rest| - 1] != ' '
    ensures TrimTrailingEmpty([word] + Pieces(rest)) == [word] + Pieces(rest)
  {
    var q := Pieces(rest);
    var p := [word] + q;
    LastPieceKept(rest);
    assert p[|p| - 1] == q[|q| - 1];
    TrimNothing(p);
  }

  /** Pieces whose last one is not empty are not trimmed. */
  lemma {:induction false} TrimNothing(p: seq<string>)
    requires |p| > 0 && |p[|p| - 1]| > 0
    ensures TrimTrailingEmpty(p) == p
  {
  }

  /** `/nick` followed by a name that does not end with a space sets the
      nickname to that name with one trailing space; inner spaces stay. */
  lemma {:induction false} NickKeepsSpacesAddsOne(rest: string)
    requires rest != [] && rest[|rest| - 1] != ' '
    ensures Interpret("/nick " + rest) == Nick(rest + " ")
  {
    assert "/nick " + rest == "/nick" + " " + rest;
    CommandArgument("/nick", rest);
  }

  /** Every `/kick` argument ends with a space. */
  lemma {:induction false} KickArgumentEndsWithSpace(message: string)
    requires Interpret(message).KickRequest?
    ensures var n := Interpret(message).nick; n != [] && n[|n| - 1] == ' '
  {
    var sp := Split(message);
    var p := sp[1..];
    assert p == p[..|p| - 1] + [p[|p| - 1]];
    JoinSpacedSnoc(p[..|p| - 1], p[|p| - 1]);
  }

  /** As written: `/kick` kicks only if the name is in the peer list. */
  function KickTargetAsWritten(message: string, peerList: seq<string>): Option<string>
  {
    match Interpret(message)
    case KickRequest(n) => if n in peerList then Some(n) else None
    case _ => None
  }

  /** As written, `/kick` never kicks anybody: its argument ends with a
      space, while every entry of the peer list ends with a digit of a port. */
  lemma {:induction false} KickNeverMatchesPeerList(message: string, entries: seq<(string, int32)>)
    ensures KickTargetAsWritten(message, seq(|entries|, i requires 0 <= i < |entries| => HostPort(entries[i].0, entries[i].1))) == None
  {
    var list := seq(|entries|, i requires 0 <= i < |entries| => HostPort(entries[i].0, entries[i].1));
    if Interpret(message).KickRequest? {
      KickArgumentEndsWithSpace(message);
      var n := Interpret(message).nick;
      forall i | 0 <= i < |list|
        ensures list[i] != n
      {
        assert IsDigit(list[i][|list[i]| - 1]);
      }
    }
  }

  /** Corrected: `/kick` kicks the participant of that name. */
  function KickTarget(message: string, participants: seq<Option<string>>): Option<string>
  {
    match Interpret(message)
    case KickRequest(n) => if Some(n) in participants then Some(n) else None
    case _ => None
  }

  /** Corrected, `/kick name` finds a participant who took the nickname
      `name` with `/nick name`. */
  lemma {:induction false} KickFindsParticipant(rest: string, participants: seq<Option<string>>)
    requires rest != [] && rest[|rest| - 1] != ' '
    requires Some(rest + " ") in participants
    ensures KickTarget("/kick " + rest, participants) == Some(rest + " ")
  {
    assert "/kick " + rest == "/kick" + " " + rest;
    CommandArgument("/kick", rest);
  }

  // ---------------------------------------------------------------------
  // The window

  /** The text `/help` shows. */
  const HELP: string := "Commands available:\n/nick <new nickname> (Can contain spaces)\n/kick <nickname> (Can contain spaces)\n"

  /** The first name the underscore loop tries for a null new name, once
      null itself is listed: Java's `null + "_"`. */
  const NULL_ATTEMPT: string := "null_"

  /** How far `peer.connect(host, port)` gets: it returns at once when
      the connection is up; an IOException from resolving the host or from
      opening the selector or the socket comes before the socket address
      is built; otherwise `new InetSocketAddress(host, port)` is built. */
  datatype ConnectAttempt = AlreadyConnected | FailsBeforeAddress | ReachesAddress

  /** The ports `InetSocketAddress` accepts. */
  predicate ValidPort(port: int)
  {
    0 <= port <= 0xFFFF
  }

  /** What the window asks of the peer after a line is entered. */
  datatype Action = NoAction | SetName(name: string) | KickPeer(nick: string) | Broadcast(message: string)

  /** `list` holds the "host:port" entries of the first `i` peers. */
  ghost predicate ListsEntries(list: seq<string>, peers: seq<(string, int32)>, i: nat)
    requires i <= |peers|
  {
    |list| == i && forall j :: 0 <= j < i ==> list[j] == HostPort(peers[j].0, peers[j].1)
  }

  lemma {:induction false} ListsNextEntry(list: seq<string>, peers: seq<(string, int32)>, i: nat)
    requires i < |peers| && ListsEntries(list, peers, i)
    ensures ListsEntries(list + [HostPort(peers[i].0, peers[i].1)], peers, i + 1)
  {
  }

  class Window {
    /** chatParticipantsModel: the nicknames of the connected peers. */
    var participants: seq<Option<string>>
    /** peerListModel: "host:port" entries of peers one may connect to. */
    var peerList: seq<string>
    /** Everything appended to the chat text area, in order. */
    var transcript: seq<string>

    constructor ()
      ensures participants == [] && peerList == [] && transcript == []
    {
      participants := [];
      peerList := [];
      transcript := [];
    }

    /** `appendText(sender, text)`: a null sender is shown as "unknown". */
    method AppendText(sender: Option<string>, text: Option<string>)
      modifies this
      ensures participants == old(participants) && peerList == old(peerList)
      ensures transcript == old(transcript) + ["<" + (if sender.None? then "unknown" else sender.value) + "> " + Show(text) + "\n"]
    {
      var who := if sender.None? then "unknown" else sender.value;
      transcript := transcript + ["<" + who + "> " + Show(text) + "\n"];
    }

    /** `peerConnected(newPeer)`: a nameless peer is called "unnamed"; its
        name is appended to the participants. */
    method PeerConnected(name: Option<string>) returns (shown: string)
      modifies this
      ensures shown == if name.None? then "unnamed" else name.value
      ensures participants == old(participants) + [Some(shown)]
      ensures transcript == old(transcript) + [shown + " has connected.\n"]
      ensures peerList == old(peerList)
    {
      shown := if name.None? then "unnamed" else name.value;
      transcript := transcript + [shown + " has connected.\n"];
      participants := participants + [Some(shown)];
    }

    /** `peerDisconnected(node, timeout)`: the first entry with the peer's
        name, if any, leaves the participants. */
    method PeerDisconnected(name: Option<string>, timeout: bool)
      modifies this
      ensures var i := IndexOf(old(participants), name);
              participants == if i == -1 then old(participants) else old(participants)[..i] + old(participants)[i + 1..]
      ensures transcript == old(transcript) + [Show(name) + (if timeout then " has timed out.\n" else " has disconnected.\n")]
      ensures peerList == old(peerList)
    {
      var idx := IndexOf(participants, name);
      if idx != -1 {
        participants := participants[..idx] + participants[idx + 1..];
      }
      transcript := transcript + [Show(name) + (if timeout then " has timed out.\n" else " has disconnected.\n")];
    }

    /** `peerNameChanged(node, oldName, newName)`. When the old name is
        listed and the peer is a child of the local peer, underscores are
        appended to the new name until it clashes with no participant and
        not with `local`, asking the peer to take each attempt; then the
        entry is replaced in place. An unlisted old name appends the new
        one. A null new name for a child makes the loop throw, unless null
        is listed, when it becomes "null_" first. `requests` counts the
        `sendNameChangeRequest` calls. */
    method PeerNameChanged(oldName: Option<string>, newName: Option<string>, local: string, isChild: bool)
      returns (outcome: Outcome, finalName: Option<string>, requests: nat)
      modifies this
      ensures peerList == old(peerList)
      ensures var index := IndexOf(old(participants), oldName);
              && (index == -1 ==>
                    && outcome == Completed && finalName == newName && requests == 0
                    && participants == old(participants) + [newName] && transcript == old(transcript))
              && (index != -1 && !isChild ==>
                    && outcome == Completed && finalName == newName && requests == 0
                    && participants == old(participants)[index := newName])
              && (index != -1 && isChild && newName.None? && None !in old(participants) ==>
                    outcome == Raised(NullPointer) && participants == old(participants) && transcript == old(transcript))
              && (index != -1 && isChild && newName.None? && None in old(participants) ==>
                    && outcome == Completed
                    && finalName == Some(Disambiguate(old(participants), local, NULL_ATTEMPT))
                    && requests == |finalName.value| - |NULL_ATTEMPT| + 1
                    && participants == old(participants)[index := finalName])
              && (index != -1 && isChild && newName.Some? ==>
                    && outcome == Completed
                    && finalName == Some(Disambiguate(old(participants), local, newName.value))
                    && requests == |finalName.value| - |newName.value|
                    && participants == old(participants)[index := finalName])
              && (outcome == Completed && index != -1 ==>
                    transcript == old(transcript) + [Show(oldName) + " has changed name to " + Show(finalName) + "\n"])
    {
      var index := IndexOf(participants, oldName);
      finalName := newName;
      requests := 0;
      if index == -1 {
        participants := participants + [newName];
        return Completed, finalName, requests;
      }
      if isChild {
        var name: string;
        if newName.None? {
          if None !in participants {
            return Raised(NullPointer), finalName, requests;
          }
          name := NULL_ATTEMPT;
          requests := 1;
        } else {
          name := newName.value;
        }
        ghost var start := name;
        while Some(name) in participants || name == local
          invariant participants == old(participants) && peerList == old(peerList) && transcript == old(transcript)
          invariant Disambiguate(participants, local, name) == Disambiguate(participants, local, start)
          invariant |name| == |start| + requests - (if newName.None? then 1 else 0)
          decreases MaxLen(participants, local) + 1 - |name|
        {
          TakenBounded(participants, local, name);
          name := name + "_";
          requests := requests + 1;
        }
        finalName := Some(name);
      }
      participants := participants[index := finalName];
      transcript := transcript + [Show(oldName) + " has changed name to " + Show(finalName) + "\n"];
      outcome := Completed;
    }

    /** `peerAcked(from, hostName, port)`: the "host:port" entry is added
        unless it is already listed. */
    method PeerAcked(from: string, host: string, port: int32)
      modifies this
      ensures var e := HostPort(host, port);
              && peerList == (if e in old(peerList) then old(peerList) else old(peerList) + [e])
              && transcript == (if e in old(peerList) then old(transcript)
                                else old(transcript) + ["New Peer Acked from " + from + ": " + e + "\n"])
      ensures participants == old(participants)
    {
      var entry := HostPort(host, port);
      if entry !in peerList {
        transcript := transcript + ["New Peer Acked from " + from + ": " + entry + "\n"];
        peerList := peerList + [entry];
      }
    }

    /** The "Find peers" button, after `discoverPeers`: no list leaves the
        peer list alone; otherwise it is replaced by the entries found. */
    method FindPeers(found: Option<seq<(string, int32)>>)
      modifies this
      ensures found.None? ==> peerList == old(peerList) && transcript == old(transcript) + ["No peers were found.\n"]
      ensures found.Some? ==>
                && |peerList| == |found.value|
                && (forall i :: 0 <= i < |found.value| ==> peerList[i] == HostPort(found.value[i].0, found.value[i].1))
                && transcript == old(transcript)
      ensures participants == old(participants)
    {
      if found.None? {
        transcript := transcript + ["No peers were found.\n"];
        return;
      }
      var peers := found.value;
      peerList := [];
      var i := 0;
      while i < |peers|
        invariant 0 <= i <= |peers|
        invariant ListsEntries(peerList, peers, i)
        invariant participants == old(participants) && transcript == old(transcript)
      {
        ListsNextEntry(peerList, peers, i);
        peerList := peerList + [HostPort(peers[i].0, peers[i].1)];
        i := i + 1;
      }
    }

    /** The "Connect" menu item: a port that does not parse aborts. Then
        `peer.connect(host, port)` is attempted, as far as `attempt` says:
        an IOException is reported and the entry is added all the same,
        even when already listed; but a port outside 0..65535 makes
        `new InetSocketAddress` throw IllegalArgumentException, which the
        handler does not catch, so nothing is added. */
    method ConnectMenu(host: string, portText: string, attempt: ConnectAttempt) returns (port: Option<int32>, outcome: Outcome)
      modifies this
      ensures port == ParseInt(portText)
      ensures outcome == if port.Some? && attempt.ReachesAddress? && !ValidPort(port.value) then Raised(IllegalArgument) else Completed
      ensures port.None? || outcome.Raised? ==> peerList == old(peerList)
      ensures port.Some? && outcome.Completed? ==> peerList == old(peerList) + [HostPort(host, port.value)]
      ensures participants == old(participants) && transcript == old(transcript)
    {
      port := ParseInt(portText);
      outcome := Completed;
      if port.None? {
        return;
      }
      if attempt.ReachesAddress? && !ValidPort(port.value) {
        return port, Raised(IllegalArgument);
      }
      peerList := peerList + [HostPort(host, port.value)];
    }

    /** `sendTextMessage`, with `/kick` looking the name up among the
        participants: what the window asks of the peer. */
    method SendTextMessage(message: string, local: string) returns (action: Action)
      modifies this
      ensures participants == old(participants) && peerList == old(peerList)
      ensures transcript == old(transcript) + match Interpret(message)
                                              case Nick(n) => ["You changed your name to " + n + "."]
                                              case Invalid => ["Invalid command."]
                                              case Help => [HELP]
                                              case Say(m) => ["<" + local + "> " + m + "\n"]
                                              case _ => []
      ensures match Interpret(message)
              case Nick(n) => action == SetName(n)
              case KickRequest(n) => action == (if KickTarget(message, participants).Some? then KickPeer(n) else NoAction)
              case Say(m) => action == Broadcast(m)
              case _ => action == NoAction
    {
      var cmd := ParseCommand(message);
      match cmd {
        case Ignore => action := NoAction;
        case Nick(n) =>
          action := SetName(n);
          transcript := transcript + ["You changed your name to " + n + "."];
        case KickRequest(n) =>
          action := if Some(n) in participants then KickPeer(n) else NoAction;
        case Invalid =>
          action := NoAction;
          transcript := transcript + ["Invalid command."];
        case Help =>
          action := NoAction;
          transcript := transcript + [HELP];
        case Say(m) =>
          action := Broadcast(m);
          transcript := transcript + ["<" + local + "> " + m + "\n"];
      }
    }
  }

  /** Acknowledgements never list an entry twice. */
  lemma {:induction false} PeerAckedKeepsNoDuplicates(list: seq<string>, host: string, port: int32)
    requires NoDuplicates(list)
    ensures var e := HostPort(host, port);
            NoDuplicates(if e in list then list else list + [e])
  {
  }
}
