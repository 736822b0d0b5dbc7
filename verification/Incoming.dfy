/**
 The records a frontend sends to the backend, one after another and without lengths:
 ParseMessage finds the end of a record only by reading all of its fields.
 */
module Incoming {
  import opened Wrappers
  import opened Octets
  import opened Message
  import opened Sequences

  const CMD_CONNECT: Byte := 3
  const CMD_DISCONNECT: Byte := 4
  const CMD_PLAYER_LIST: Byte := 5
  const CMD_PLAYER_UPDATE: Byte := 6
  const CMD_PRINT: Byte := 7
  const CMD_COMMAND: Byte := 8
  const CMD_MAP: Byte := 11
  const CMD_PING: Byte := 12

  const PCMD_TELEPORT: Byte := 0
  const PCMD_INVITE: Byte := 1

  /** The fields ParsePlayer reads. */
  datatype Join = Join(client: Byte, userinfo: Text, version: Text)

  datatype Record =
    | Ping
    | Print(level: Byte, text: Text)
    | MapChange(name: Text)
    | PlayerList(players: seq<Join>)
    | PlayerUpdate(client: Byte, userinfo: Text)
    | Connect(player: Join)
    | Disconnect(client: Byte)
    | Teleport(client: Byte, target: Text)
    | Invite(client: Byte, text: Text)
    | OtherCommand(sub: Byte)  // a player command ParseCommand has no case for
    | Unknown(op: Byte)        // a byte ParseMessage has no case for

  predicate Dispatched(op: Byte) {
    || op == CMD_PING || op == CMD_PRINT || op == CMD_MAP || op == CMD_PLAYER_LIST
    || op == CMD_PLAYER_UPDATE || op == CMD_CONNECT || op == CMD_DISCONNECT || op == CMD_COMMAND
  }

  /** What the wire can carry: a player count of one byte, and opcodes that mean
      nothing else. */
  predicate WellFormed(r: Record) {
    match r
    case PlayerList(players) => |players| < 256
    case OtherCommand(sub) => sub != PCMD_TELEPORT && sub != PCMD_INVITE
    case Unknown(op) => !Dispatched(op)
    case _ => true
  }

  predicate AllWellFormed(rs: seq<Record>) {
    forall i | 0 <= i < |rs| :: WellFormed(rs[i])
  }

  // ---------------------------------------------------------------- writing

  function EncodeJoin(j: Join): Bytes {
    [j.client] + Terminated(j.userinfo) + Terminated(j.version)
  }

  function EncodeJoins(js: seq<Join>): Bytes {
    if js == [] then [] else EncodeJoin(js[0]) + EncodeJoins(js[1..])
  }

  /** The records that are a fixed header followed by one string. */
  predicate Textual(r: Record) {
    r.Print? || r.MapChange? || r.PlayerUpdate? || r.Teleport? || r.Invite?
  }

  function Header(r: Record): Bytes
    requires Textual(r)
  {
    match r
    case Print(level, _) => [CMD_PRINT, level]
    case MapChange(_) => [CMD_MAP]
    case PlayerUpdate(client, _) => [CMD_PLAYER_UPDATE, client]
    case Teleport(client, _) => [CMD_COMMAND, PCMD_TELEPORT, client]
    case Invite(client, _) => [CMD_COMMAND, PCMD_INVITE, client]
  }

  function Body(r: Record): Text
    requires Textual(r)
  {
    match r
    case Print(_, text) => text
    case MapChange(name) => name
    case PlayerUpdate(_, userinfo) => userinfo
    case Teleport(_, target) => target
    case Invite(_, text) => text
  }

  function Encode(r: Record): (b: Bytes)
    requires WellFormed(r)
    ensures |b| > 0
  {
    match r
    case Ping => [CMD_PING]
    case PlayerList(players) => [CMD_PLAYER_LIST, |players| as Byte] + EncodeJoins(players)
    case Connect(player) => [CMD_CONNECT] + EncodeJoin(player)
    case Disconnect(client) => [CMD_DISCONNECT, client]
    case OtherCommand(sub) => [CMD_COMMAND, sub]
    case Unknown(op) => [op]
    case _ => Header(r) + Terminated(Body(r))
  }

  function EncodeAll(rs: seq<Record>): Bytes
    requires AllWellFormed(rs)
  {
    if rs == [] then [] else Encode(rs[0]) + EncodeAll(rs[1..])
  }

  // ---------------------------------------------------------------- reading

  /** A string preceded by n bytes, and what follows it. */
  function ReadTextAt(data: Bytes, n: nat): (r: Option<(Text, Bytes)>)
    ensures r.Some? ==> n <= |data| && data == data[..n] + Terminated(r.value.0) + r.value.1
  {
    if |data| < n then None
    else
      assert data == data[..n] + data[n..];
      SplitText(data[n..])
  }

  function ReadJoin(data: Bytes): (r: Option<(Join, Bytes)>)
    ensures r.Some? ==> data == EncodeJoin(r.value.0) + r.value.1
  {
    match ReadTextAt(data, 1)
    case None => None
    case Some(ui) =>
      match SplitText(ui.1)
      case None => None
      case Some(version) =>
        JoinBytes(data, ui.0, version.0, ui.1, version.1);
        Some((Join(data[0], ui.0, version.0), version.1))
  }

  lemma JoinBytes(data: Bytes, userinfo: Text, version: Text, behind: Bytes, rest: Bytes)
    requires |data| >= 1 && data == data[..1] + Terminated(userinfo) + behind
    requires behind == Terminated(version) + rest
    ensures data == EncodeJoin(Join(data[0], userinfo, version)) + rest
  {
    hide Terminated;
    assert data[..1] == [data[0]];
    Concat([data[0]] + Terminated(userinfo), Terminated(version), rest);
  }

  function ReadJoins(n: nat, data: Bytes): (r: Option<(seq<Join>, Bytes)>)
    ensures r.Some? ==> |r.value.0| == n && data == EncodeJoins(r.value.0) + r.value.1
  {
    if n == 0 then Some(([], data))
    else
      match ReadJoin(data)
      case None => None
      case Some(first) =>
        match ReadJoins(n - 1, first.1)
        case None => None
        case Some(rest) =>
          JoinsBytes(data, first.0, rest.0, first.1, rest.1);
          Some(([first.0] + rest.0, rest.1))
  }

  lemma JoinsBytes(data: Bytes, first: Join, others: seq<Join>, behind: Bytes, rest: Bytes)
    requires data == EncodeJoin(first) + behind && behind == EncodeJoins(others) + rest
    ensures data == EncodeJoins([first] + others) + rest
  {
    hide EncodeJoin;
    assert ([first] + others)[1..] == others;
    Concat(EncodeJoin(first), EncodeJoins(others), rest);
  }

  /** How many bytes stand before the string, when the record is a textual one. */
  function HeaderLength(data: Bytes): nat
    requires data != []
  {
    if data[0] == CMD_MAP then 1
    else if data[0] == CMD_PRINT || data[0] == CMD_PLAYER_UPDATE then 2
    else if data[0] == CMD_COMMAND && |data| > 1 && (data[1] == PCMD_TELEPORT || data[1] == PCMD_INVITE) then 3
    else 0
  }

  function Rebuild(header: Bytes, text: Text): (r: Record)
    requires header != [] && |header| == HeaderLength(header)
    ensures Textual(r) && Header(r) == header && Body(r) == text
  {
    if header[0] == CMD_MAP then MapChange(text)
    else if header[0] == CMD_PRINT then Print(header[1], text)
    else if header[0] == CMD_PLAYER_UPDATE then PlayerUpdate(header[1], text)
    else if header[1] == PCMD_TELEPORT then Teleport(header[2], text)
    else Invite(header[2], text)
  }

  function ReadTextual(data: Bytes): (r: Option<(Record, Bytes)>)
    requires data != [] && HeaderLength(data) > 0
    ensures r.Some? ==> Textual(r.value.0) && data == Encode(r.value.0) + r.value.1
  {
    var n := HeaderLength(data);
    match ReadTextAt(data, n)
    case None => None
    case Some(p) => Some((Rebuild(data[..n], p.0), p.1))
  }

  lemma ListBytes(data: Bytes, players: seq<Join>, rest: Bytes)
    requires |data| >= 2 && data[0] == CMD_PLAYER_LIST && data[1] as int == |players|
    requires data[2..] == EncodeJoins(players) + rest
    ensures data == Encode(PlayerList(players)) + rest
  {
    hide EncodeJoins;
    var count := |players| as Byte;
    assert count == data[1];
    Concat([CMD_PLAYER_LIST, count], EncodeJoins(players), rest);
    assert data == [data[0], data[1]] + data[2..];
  }

  function ReadPlayers(data: Bytes): (r: Option<(Record, Bytes)>)
    ensures r.Some? ==> WellFormed(r.value.0) && data == Encode(r.value.0) + r.value.1
    requires data != [] && data[0] == CMD_PLAYER_LIST
  {
    if |data| < 2 then None
    else
      match ReadJoins(data[1] as int, data[2..])
      case None => None
      case Some(p) =>
        ListBytes(data, p.0, p.1);
        Some((PlayerList(p.0), p.1))
  }

  function ReadConnect(data: Bytes): (r: Option<(Record, Bytes)>)
    requires data != [] && data[0] == CMD_CONNECT
    ensures r.Some? ==> r.value.0.Connect? && data == Encode(r.value.0) + r.value.1
  {
    match ReadJoin(data[1..])
    case None => None
    case Some(p) =>
      ConnectBytes(data, p.0, p.1);
      Some((Connect(p.0), p.1))
  }

  lemma ConnectBytes(data: Bytes, j: Join, rest: Bytes)
    requires data != [] && data[0] == CMD_CONNECT && data[1..] == EncodeJoin(j) + rest
    ensures data == Encode(Connect(j)) + rest
  {
    hide EncodeJoin;
    Concat([CMD_CONNECT], EncodeJoin(j), rest);
    assert data == [data[0]] + data[1..];
  }

  /** The record at the front of the data and the bytes behind it; None when the data
      ends inside the record. What is read is always the encoding of a record. */
  function ReadRecord(data: Bytes): (r: Option<(Record, Bytes)>)
    requires data != []
    ensures r.Some? ==> WellFormed(r.value.0) && data == Encode(r.value.0) + r.value.1
  {
    var op := data[0];
    if HeaderLength(data) > 0 then ReadTextual(data)
    else if op == CMD_PLAYER_LIST then ReadPlayers(data)
    else if op == CMD_CONNECT then ReadConnect(data)
    else if op == CMD_DISCONNECT || op == CMD_COMMAND then
      if |data| < 2 then None
      else
        assert data == [op, data[1]] + data[2..];
        Some((if op == CMD_DISCONNECT then Disconnect(data[1]) else OtherCommand(data[1]), data[2..]))
    else
      assert data == [op] + data[1..];
      Some((if op == CMD_PING then Ping else Unknown(op), data[1..]))
  }

  /** The records of a message, and the bytes left when it ends inside a record. */
  datatype Parsed = Parsed(records: seq<Record>, rest: Bytes)

  function Parse(data: Bytes): Parsed
    decreases |data|
  {
    if data == [] then Parsed([], [])
    else
      match ReadRecord(data)
      case None => Parsed([], data)
      case Some(p) =>
        var others := Parse(p.1);
        Parsed([p.0] + others.records, others.rest)
  }

  // ---------------------------------------------------------------- one record

  lemma ReadTextEncoded(header: Bytes, t: Text, tail: Bytes)
    ensures var data := header + Terminated(t) + tail;
            data[..|header|] == header && ReadTextAt(data, |header|) == Some((t, tail))
  {
    TextAfter(header, t, tail);
  }

  lemma ReadJoinEncoded(j: Join, tail: Bytes)
    ensures ReadJoin(EncodeJoin(j) + tail) == Some((j, tail))
  {
    var behind := Terminated(j.version) + tail;
    assert EncodeJoin(j) + tail == [j.client] + Terminated(j.userinfo) + behind;
    ReadTextEncoded([j.client], j.userinfo, behind);
    SplitTerminated(j.version, tail);
  }

  lemma {:induction false} ReadJoinsEncoded(js: seq<Join>, tail: Bytes)
    ensures ReadJoins(|js|, EncodeJoins(js) + tail) == Some((js, tail))
  {
    hide EncodeJoin, ReadJoin;
    if js == [] {
      assert [] + tail == tail;
    } else {
      var behind := EncodeJoins(js[1..]) + tail;
      Concat(EncodeJoin(js[0]), EncodeJoins(js[1..]), tail);
      ReadJoinEncoded(js[0], behind);
      ReadJoinsEncoded(js[1..], tail);
      assert [js[0]] + js[1..] == js;
    }
  }

  lemma ListFront(count: Byte, joins: Bytes)
    ensures var data := [CMD_PLAYER_LIST, count] + joins;
            |data| >= 2 && data[0] == CMD_PLAYER_LIST && data[1] == count && data[2..] == joins
  {
  }

  lemma ReadListEncoded(js: seq<Join>, tail: Bytes)
    requires |js| < 256
    ensures ReadPlayers([CMD_PLAYER_LIST, |js| as Byte] + EncodeJoins(js) + tail) == Some((PlayerList(js), tail))
  {
    var joins := EncodeJoins(js) + tail;
    var count := |js| as Byte;
    ReadJoinsEncoded(js, tail);
    ListFront(count, joins);
    Concat([CMD_PLAYER_LIST, count], EncodeJoins(js), tail);
  }

  lemma ReadConnectEncoded(j: Join, tail: Bytes)
    ensures ReadConnect([CMD_CONNECT] + EncodeJoin(j) + tail) == Some((Connect(j), tail))
  {
    assert ([CMD_CONNECT] + EncodeJoin(j) + tail)[1..] == EncodeJoin(j) + tail;
    ReadJoinEncoded(j, tail);
  }

  lemma ReadTextualEncoded(r: Record, tail: Bytes)
    requires Textual(r)
    ensures var data := Header(r) + Terminated(Body(r)) + tail;
            HeaderLength(data) == |Header(r)| && ReadTextual(data) == Some((r, tail))
  {
    ReadTextEncoded(Header(r), Body(r), tail);
    hide ReadTextAt, Terminated;
  }

  /** Byte by byte, what a frontend sends: the records that end in a string ... */
  lemma TextFormat(client: Byte, text: Text)
    ensures Encode(PlayerUpdate(client, text)) == [6, client] + text + [0]
    ensures Encode(Print(client, text)) == [7, client] + text + [0]
    ensures Encode(Teleport(client, text)) == [8, 0, client] + text + [0]
    ensures Encode(Invite(client, text)) == [8, 1, client] + text + [0]
    ensures Encode(MapChange(text)) == [11] + text + [0]
  {
    Concat([6, client], text, [0]);
    Concat([7, client], text, [0]);
    Concat([8, 0, client], text, [0]);
    Concat([8, 1, client], text, [0]);
    Concat([11], text, [0]);
    hide EncodeJoin, EncodeJoins;
  }

  /** ... and the others. */
  lemma WireFormat(client: Byte, text: Text, other: Text)
    ensures Encode(Connect(Join(client, text, other))) == [3, client] + text + [0] + other + [0]
    ensures Encode(Disconnect(client)) == [4, client]
    ensures client > 1 ==> Encode(OtherCommand(client)) == [8, client]
    ensures Encode(Ping) == [12]
  {
    ConnectFormat(client, text, other);
    hide EncodeJoin, EncodeJoins, Header, Body;
  }

  lemma ConnectFormat(client: Byte, text: Text, other: Text)
    ensures [3] + EncodeJoin(Join(client, text, other)) == [3, client] + text + [0] + other + [0]
  {
    Concat([client], text, [0]);
    Concat([client] + text + [0], other, [0]);
    assert [3] + ([client] + text + [0] + other + [0]) == [3, client] + text + [0] + other + [0];
  }

  /** A list is its length in a byte and its joins, each as behind a connect. */
  lemma ListFormat(js: seq<Join>, j: Join)
    requires |js| < 255
    ensures Encode(PlayerList([])) == [5, 0]
    ensures Encode(PlayerList([j] + js))
            == [5, (|js| + 1) as Byte] + (Encode(Connect(j))[1..] + Encode(PlayerList(js))[2..])
  {
    assert ([j] + js)[1..] == js;
    assert Encode(Connect(j))[1..] == EncodeJoin(j);
    assert Encode(PlayerList(js))[2..] == EncodeJoins(js);
    hide EncodeJoin;
  }

  /** An opcode of no record is skipped, and nothing else of a message is. */
  lemma UnknownFormat(op: Byte)
    ensures WellFormed(Unknown(op)) <==> op !in {3, 4, 5, 6, 7, 8, 11, 12}
    ensures WellFormed(Unknown(op)) ==> Encode(Unknown(op)) == [op]
  {
  }

  /** Every handler reads back exactly the fields that were written for it. */
  lemma ReadEncoded(r: Record, tail: Bytes)
    requires WellFormed(r)
    ensures ReadRecord(Encode(r) + tail) == Some((r, tail))
  {
    hide ReadTextual, ReadPlayers, ReadConnect, EncodeJoins, EncodeJoin, Terminated;
    match r {
      case PlayerList(players) => ReadListEncoded(players, tail);
      case Connect(player) => ReadConnectEncoded(player, tail);
      case Disconnect(client) => assert ([CMD_DISCONNECT, client] + tail)[2..] == tail;
      case OtherCommand(sub) => assert ([CMD_COMMAND, sub] + tail)[2..] == tail;
      case Ping => assert ([CMD_PING] + tail)[1..] == tail;
      case Unknown(op) => assert ([op] + tail)[1..] == tail;
      case _ => ReadTextualEncoded(r, tail);
    }
  }

  // ---------------------------------------------------------------- whole messages

  lemma EncodeAllFront(r: Record, rs: seq<Record>)
    requires WellFormed(r) && AllWellFormed(rs)
    ensures AllWellFormed([r] + rs) && EncodeAll([r] + rs) == Encode(r) + EncodeAll(rs)
  {
    assert ([r] + rs)[1..] == rs;
  }

  lemma ParseOneMore(r: Record, tail: Bytes)
    requires WellFormed(r)
    ensures Parse(Encode(r) + tail) == Parsed([r] + Parse(tail).records, Parse(tail).rest)
  {
    ReadEncoded(r, tail);
  }

  /** Framing is a homomorphism: the records of a well-formed prefix come out one by one,
      then the rest of the message is parsed as if it stood alone. */
  lemma {:induction false} ParseEncoded(rs: seq<Record>, tail: Bytes)
    requires AllWellFormed(rs)
    ensures Parse(EncodeAll(rs) + tail) == Parsed(rs + Parse(tail).records, Parse(tail).rest)
    decreases |rs|
  {
    if rs == [] {
      assert EncodeAll(rs) + tail == tail;
      assert rs + Parse(tail).records == Parse(tail).records;
    } else {
      var behind := EncodeAll(rs[1..]) + tail;
      Concat(Encode(rs[0]), EncodeAll(rs[1..]), tail);
      ParseOneMore(rs[0], behind);
      ParseEncoded(rs[1..], tail);
      Concat([rs[0]], rs[1..], Parse(tail).records);
      assert rs == [rs[0]] + rs[1..];
    }
  }

  /** Every message is the encoding of the records it parses to, followed by the bytes
      of a record cut short; so a message consumed to its end has one reading only. */
  lemma {:induction false} ParseIsEncoded(data: Bytes)
    ensures var p := Parse(data);
            && AllWellFormed(p.records)
            && data == EncodeAll(p.records) + p.rest
            && (p.rest != [] ==> ReadRecord(p.rest).None?)
    decreases |data|
  {
    if data != [] {
      match ReadRecord(data)
      case None =>
      case Some(p) =>
        ParseIsEncoded(p.1);
        var others := Parse(p.1);
        EncodeAllFront(p.0, others.records);
        Concat(Encode(p.0), EncodeAll(others.records), others.rest);
    }
  }
}
