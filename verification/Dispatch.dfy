/**
 The receiving side of a frontend: the message buffer with its cursor, the loop of
 ParseMessage over the records in it, and the handlers that change the player table.
 */
module Dispatch {
  import opened Wrappers
  import opened Octets
  import opened Message
  import opened Incoming
  import opened Sequences
  import opened Scoreboard
  import opened Effects
  import opened Ratios
  import Userinfo
  import Invites

  // ---------------------------------------------------------------- the frontend

  /** How a handler ends. `Truncated` is a record the message ends in; what the buffer of
      the libq2 library does then is not part of this model. */
  datatype Outcome = Done | Panicked | Truncated

  class Frontend {
    const lib: Patterns
    const allowInvite: bool
    /** The clock, read once for each message. */
    var now: int
    var data: Bytes
    var index: nat
    var players: array<Player>
    var invites: Invites.InviteBucket
    var playerCount: int
    var rows: seq<StatRow>
    var previousMap: Text
    var currentMap: Text
    var pingCount: nat
    /** Entries a join has overwritten or a new connection dropped. */
    ghost var lost: seq<Player>
    /** What the handlers have read so far: each adds the record it took its fields from. */
    ghost var handled: seq<Record>

    ghost predicate Valid()
      reads this
    {
      index <= |data|
    }

    ghost function Board(): Table
      reads this, players
    {
      Table(players[..], playerCount, rows, lost)
    }

    ghost function Whole(): House
      reads this, players, invites
    {
      House(Board(), allowInvite, invites.State())
    }

    ghost function Kept(): Notes
      reads this
    {
      Notes(previousMap, currentMap, pingCount)
    }

    /** The bytes behind the cursor. */
    ghost function Ahead(): Bytes
      reads this
      requires Valid()
    {
      data[index..]
    }

    /** A frontend as it is loaded at startup, without a table of players. */
    constructor (lib: Patterns, allowInvite: bool, tokens: int, freq: int)
      ensures Valid() && Kept() == Notes([], [], 0) && fresh(players) && fresh(invites)
      ensures Whole() == House(Empty(0), allowInvite, Invites.Bucket(tokens, 0, freq, 0, 0))
      ensures this.lib == lib && handled == []
      ensures Reachable(lib, Board())
    {
      this.lib, this.allowInvite, this.now := lib, allowInvite, 0;
      this.data, this.index := [], 0;
      this.players := new Player[0](_ => VACANT);
      this.invites := new Invites.InviteBucket.Loaded(tokens, freq);
      this.playerCount, this.rows := 0, [];
      this.previousMap, this.currentMap, this.pingCount := [], [], 0;
      this.lost, this.handled := [], [];
      new;
      assert players[..] == seq(0, _ => VACANT);
      EmptyReachable(lib, 0);
    }

    /** The part of HandleConnection that makes room for players and fills the invite
        bucket; nothing else is reset. */
    method Connect(maxPlayers: nat)
      requires Valid()
      modifies this`players, this`lost, this`invites
      ensures Valid() && fresh(players) && fresh(invites)
      ensures Whole() == Reopened(old(Whole()), maxPlayers)
      ensures Reachable(lib, old(Board())) ==> Reachable(lib, Board())
    {
      ghost var before := Board();
      lost := lost + Aboard(players[..]);
      players := new Player[maxPlayers](_ => VACANT);
      invites := new Invites.InviteBucket();
      assert players[..] == seq(maxPlayers, _ => VACANT);
      if Reachable(lib, before) {
        HandshakeKeepsReachable(lib, before, maxPlayers);
      }
    }

    /** What maintenance does for the invites of a frontend. */
    method Maintain(clock: int)
      modifies invites
      ensures Whole() == old(Whole()).(bucket := Invites.Refilled(old(Whole()).bucket, clock))
    {
      invites.InviteBucketAdd(clock);
    }

    // -------------------------------------------------------------- the buffer

    method ReadByte() returns (b: Option<Byte>)
      requires Valid()
      modifies this`index
      ensures Valid()
      ensures b == if old(Ahead()) == [] then None else Some(old(Ahead())[0])
      ensures Ahead() == if old(Ahead()) == [] then [] else old(Ahead())[1..]
    {
      if index >= |data| {
        return None;
      }
      b := Some(data[index]);
      index := index + 1;
    }

    method ReadString() returns (t: Option<Text>)
      requires Valid()
      modifies this`index
      ensures Valid()
      ensures match SplitText(old(Ahead()))
              case None => t == None
              case Some(p) => t == Some(p.0) && Ahead() == p.1
    {
      hide SplitText;
      var end := index;
      while end < |data| && data[end] != 0
        invariant index <= end <= |data|
        invariant (0 as Byte) !in data[index..end]
        decreases |data| - end
      {
        end := end + 1;
      }
      ScannedTo(data, index, end);
      if end == |data| {
        return None;
      }
      t := Some(data[index..end]);
      index := end + 1;
    }

    /** A byte and the string behind it, as most handlers read them. */
    method ReadByteAndString() returns (b: Byte, t: Option<Text>)
      requires Valid()
      modifies this`index
      ensures Valid()
      ensures match ReadTextAt(old(Ahead()), 1)
              case None => t == None
              case Some(p) => b == old(Ahead())[0] && t == Some(p.0) && Ahead() == p.1
    {
      var first := ReadByte();
      if first.None? {
        return 0, None;
      }
      b := first.value;
      t := ReadString();
    }

    // -------------------------------------------------------------- the player table

    method FindPlayer(client: int) returns (found: Option<nat>)
      ensures found == Find(players[..], client)
    {
      if !(client >= 0 && client < players.Length) {
        return None;
      }
      for i := 0 to players.Length
        invariant forall j | 0 <= j < i :: !HasId(client)(players[..][j])
      {
        if players[i].clientId == client && players[i].connectTime > 0 {
          assert HasId(client)(players[..][i]);
          return Some(i);
        }
      }
      return None;
    }

    method FindPlayerByName(name: string) returns (found: Option<nat>)
      ensures found == FindByName(players[..], name)
    {
      for i := 0 to players.Length
        invariant forall j | 0 <= j < i :: !HasName(name)(players[..][j])
      {
        if players[i].name == name {
          assert HasName(name)(players[..][i]);
          return Some(i);
        }
      }
      return None;
    }

    method CalculateKDR(cid: int) returns (kdr: real)
      ensures kdr == CalculatedKdr(players[..], cid)
    {
      if cid < 0 || cid >= players.Length {
        return 0.0;
      }
      var found := FindPlayer(cid);
      if found.None? {
        return 0.0;
      }
      var p := players[found.value];
      var nom, denom, multiplier := p.frags, p.deaths, 1.0;
      if denom > nom {
        nom, denom := denom, nom;
        multiplier := -1.0;
      }
      if denom == 0 {
        return Abs(nom as real) * multiplier;
      }
      return Abs(nom as real / denom as real) * multiplier;
    }

    /** Overwrites one slot. */
    method Store(slot: nat, p: Player)
      requires slot < players.Length
      modifies players
      ensures players[..] == old(players[..])[slot := p]
    {
      players[slot] := p;
    }

    /** Appends the player's row; inserting into the database is taken to succeed. */
    method WritePlayer(client: int)
      modifies this`rows
      ensures rows == old(rows) + if ValidPlayerID(players[..], client) && players[client].connectTime != 0
                                  then [RowOf(players[client], now)] else []
    {
      if client < 0 || client >= players.Length {
        return;
      }
      if players[client].connectTime == 0 {
        return;
      }
      var p := players[client];
      rows := rows + [StatRow(p.frags, p.deaths, p.suicides, p.kdr, now - p.connectTime)];
    }

    method RemovePlayer(client: int)
      modifies this`rows, this`playerCount, players
      ensures Board() == Removed(old(Board()), client, now)
    {
      if !(client >= 0 && client < players.Length) {
        return;
      }
      if players[client].connectTime > 0 {
        WritePlayer(client);
        Store(client, VACANT);
        playerCount := playerCount - 1;
      }
    }

    // -------------------------------------------------------------- the handlers

    /** A handler ends as its effect on the table says. */
    ghost predicate Ends(o: Outcome, r: Result<Table>)
      reads this, players
    {
      match r
      case Panic => o == Panicked
      case Ok(t) => o == Done && Board() == t
    }

    /** The join is what the fields read make; ParseConnect and ParsePlayerlist, which call
        it, add it to their record. */
    method ParsePlayer() returns (o: Outcome, ghost j: Incoming.Join)
      requires Valid()
      modifies this`index, this`lost, this`playerCount, players
      ensures Valid()
      ensures match ReadJoin(old(Ahead()))
              case None => o == Truncated
              case Some(p) => j == p.0 && Ahead() == p.1 && Ends(o, JoinOne(lib, old(Board()), p.0, now))
    {
      hide ReadJoin, Joined, Latin;
      j := Incoming.Join(0, [], []);
      var fields := ReadFields();
      if fields.None? {
        return Truncated, j;
      }
      j := fields.value;
      o := AddPlayer(fields.value.client as int, Latin(fields.value.userinfo), Latin(fields.value.version));
    }

    method ReadFields() returns (j: Option<Incoming.Join>)
      requires Valid()
      modifies this`index
      ensures Valid()
      ensures match ReadJoin(old(Ahead()))
              case None => j == None
              case Some(p) => j == Some(p.0) && Ahead() == p.1
    {
      hide ReadJoin, ReadTextAt, SplitText, Terminated;
      JoinFields(Ahead());
      var clientnum, userinfo := ReadByteAndString();
      if userinfo.None? {
        return None;
      }
      var version := ReadString();
      if version.None? {
        return None;
      }
      return Some(Incoming.Join(clientnum, userinfo.value, version.value));
    }

    /** ParsePlayer behind the reading of its fields. */
    method AddPlayer(client: nat, userinfo: string, version: string) returns (o: Outcome)
      modifies this`lost, this`playerCount, players
      ensures Ends(o, Joined(lib, old(Board()), client, userinfo, version, now))
    {
      hide Userinfo.Parsed, Field;
      if client > players.Length {
        return Done;
      }
      var info := Userinfo.UserinfoMap(userinfo);
      if info.Panic? || client == players.Length {
        return Panicked;
      }
      lost := lost + if InUse(players[client]) then [players[client]] else [];
      Store(client, NewPlayer(lib, client, userinfo, version, info.value, now));
      playerCount := playerCount + 1;
      return Done;
    }

    method ParseConnect() returns (o: Outcome)
      requires Valid()
      modifies this`index, this`lost, this`playerCount, this`handled, players
      ensures Valid()
      ensures match ReadJoin(old(Ahead()))
              case None => o == Truncated
              case Some(p) =>
                && Ahead() == p.1 && Ends(o, JoinOne(lib, old(Board()), p.0, now))
                && (o == Done ==> handled == old(handled) + [Record.Connect(p.0)])
    {
      hide ReadJoin, JoinOne;
      ghost var j;
      o, j := ParsePlayer();
      handled := handled + [Record.Connect(j)];
    }

    method ParsePlayerlist() returns (o: Outcome)
      requires Valid()
      modifies this`index, this`lost, this`playerCount, this`handled, players
      ensures Valid()
      ensures if old(Ahead()) == [] then o != Done
              else
                match ReadJoins(old(Ahead())[0] as int, old(Ahead())[1..])
                case None => o != Done
                case Some(p) =>
                  && (o == Done ==> Ahead() == p.1 && handled == old(handled) + [PlayerList(p.0)])
                  && Ends(o, JoinAll(lib, old(Board()), p.0, now))
    {
      hide ReadJoins, JoinAll;
      var count := ReadByte();
      if count.None? {
        return Truncated;
      }
      ghost var js;
      o, js := ParsePlayers(count.value as int);
      handled := handled + [PlayerList(js)];
    }

    /** The loop of ParsePlayerlist. */
    method ParsePlayers(n: nat) returns (o: Outcome, ghost js: seq<Incoming.Join>)
      requires Valid()
      modifies this`index, this`lost, this`playerCount, players
      ensures Valid()
      ensures match ReadJoins(n, old(Ahead()))
              case None => o != Done
              case Some(p) =>
                && (o == Done ==> Ahead() == p.1 && js == p.0)
                && Ends(o, JoinAll(lib, old(Board()), p.0, now))
    {
      hide ReadJoins, ReadJoin, JoinOne, JoinAll;
      ghost var all := ReadJoins(n, Ahead());
      ghost var left := if all.Some? then all.value.0 else [];
      ghost var result := JoinAll(lib, Board(), left, now);
      var i := 0;
      js := [];
      while i < n
        invariant 0 <= i <= n && Valid()
        invariant all.Some? ==> js + left == all.value.0
        invariant all.None? ==> ReadJoins(n - i, Ahead()).None?
        invariant all.Some? ==> ReadJoins(n - i, Ahead()) == Some((left, all.value.1))
        invariant all.Some? ==> JoinAll(lib, Board(), left, now) == result
      {
        JoinsFront(n - i, Ahead());
        JoinAllFront(lib, Board(), left, now);
        ghost var j;
        o, j := ParsePlayer();
        if o != Done {
          return;
        }
        js := js + [j];
        left := if all.Some? then left[1..] else [];
        i := i + 1;
      }
      JoinsFront(0, Ahead());
      JoinAllFront(lib, Board(), [], now);
      return Done, js;
    }

    method ParseDisconnect() returns (o: Outcome)
      requires Valid()
      modifies this`index, this`rows, this`playerCount, this`handled, players
      ensures Valid()
      ensures if old(Ahead()) == [] then o == Truncated
              else
                && Ahead() == old(Ahead())[1..] && Ends(o, Ok(Left(old(Board()), old(Ahead())[0] as int, now)))
                && handled == old(handled) + [Disconnect(old(Ahead())[0])]
    {
      var b := ReadByte();
      if b.None? {
        return Truncated;
      }
      handled := handled + [Disconnect(b.value)];
      var clientnum := b.value as int;
      if clientnum < 0 || clientnum > players.Length {
        return Done;
      }
      var pl := FindPlayer(clientnum);
      if pl.None? {
        return Done;
      }
      RemovePlayer(clientnum);
      return Done;
    }

    method ParsePlayerUpdate() returns (o: Outcome)
      requires Valid()
      modifies this`index, this`handled, players
      ensures Valid()
      ensures match ReadTextAt(old(Ahead()), 1)
              case None => o == Truncated
              case Some(p) =>
                && Ahead() == p.1 && Ends(o, Updated(lib, old(Board()), old(Ahead())[0] as int, Latin(p.0)))
                && handled == old(handled) + [PlayerUpdate(old(Ahead())[0], p.0)]
    {
      var clientnum, text := ReadByteAndString();
      if text.None? {
        return Truncated;
      }
      handled := handled + [PlayerUpdate(clientnum, text.value)];
      var userinfo := Latin(text.value);
      var hash := lib.md5(userinfo);
      var found := FindPlayer(clientnum as int);
      if found.None? {
        return Done;
      }
      var player := players[found.value];
      if hash == player.userInfoHash {
        return Done;
      }
      var info := Userinfo.UserinfoMap(userinfo);
      if info.Panic? {
        return Panicked;
      }
      player := player.(userinfoMap := info.value, name := Field(info.value, "name"),
                        cookie := Field(info.value, "cl_cookie"), userInfoHash := hash);
      Store(found.value, player);
      return Done;
    }

    /** The two-player patterns are tried before the others, each table in its order. */
    method CalculateDeath(obit: string) returns (death: Option<Death>)
      ensures death == DeathOf(lib, players[..], obit)
    {
      for i := 0 to |lib.duo|
        invariant forall j | 0 <= j < i :: lib.duo[j].read(obit).None?
      {
        var names := lib.duo[i].read(obit);
        if names.Some? {
          var victim := FindPlayerByName(names.value.0);
          var murderer := FindPlayerByName(names.value.1);
          return Some(Death(victim, murderer, lib.duo[i].means, false));
        }
      }
      for i := 0 to |lib.solo|
        invariant forall j | 0 <= j < i :: lib.solo[j].read(obit).None?
      {
        var name := lib.solo[i].read(obit);
        if name.Some? {
          var victim := FindPlayerByName(name.value);
          return Some(Death(victim, None, lib.solo[i].means, true));
        }
      }
      return None;
    }

    method ParseObituary(obit: string) returns (o: Outcome)
      modifies players
      ensures Ends(o, Scored(lib, old(Board()), obit))
    {
      hide DeathOf, SoloScored, DuoScored;
      if obit == "" {
        return Done;
      }
      var death := CalculateDeath(obit);
      if death.None? || death.value.victim.None? {
        return Done;
      }
      var cidV := players[death.value.victim.value].clientId;
      if cidV < 0 || cidV >= players.Length {
        return Panicked;
      }
      if death.value.murderer.None? {
        ScoreSolo(cidV);
        return Done;
      }
      var cidM := players[death.value.murderer.value].clientId;
      if cidM < 0 || cidM >= players.Length {
        return Panicked;
      }
      ScoreDuo(cidV, cidM);
      return Done;
    }

    method ScoreSolo(cid: nat)
      requires cid < players.Length
      modifies players
      ensures players[..] == SoloScored(old(players[..]), cid)
    {
      var p := players[cid];
      Store(cid, p.(deaths := p.deaths + 1, suicides := p.suicides + 1, frags := p.frags - 1));
      Rate(cid);
    }

    method ScoreDuo(cidV: nat, cidM: nat)
      requires cidV < players.Length && cidM < players.Length
      modifies players
      ensures players[..] == DuoScored(old(players[..]), cidV, cidM)
    {
      hide CalculatedKdr;
      Store(cidV, players[cidV].(deaths := players[cidV].deaths + 1));
      Store(cidM, players[cidM].(frags := players[cidM].frags + 1));
      Rate(cidV);
      Rate(cidM);
    }

    /** Renews the stored ratio of one slot. */
    method Rate(cid: nat)
      requires cid < players.Length
      modifies players
      ensures players[..] == Rated(old(players[..]), cid)
    {
      var kdr := CalculateKDR(cid);
      Store(cid, players[cid].(kdr := kdr));
    }

    method ParsePrint() returns (o: Outcome)
      requires Valid()
      modifies this`index, this`handled, players
      ensures Valid()
      ensures match ReadTextAt(old(Ahead()), 1)
              case None => o == Truncated
              case Some(p) =>
                && Ahead() == p.1 && Ends(o, Printed(lib, old(Board()), old(Ahead())[0], p.0))
                && handled == old(handled) + [Print(old(Ahead())[0], p.0)]
    {
      hide Scored, Latin, SplitText;
      var level, text := ReadByteAndString();
      if text.None? {
        return Truncated;
      }
      handled := handled + [Print(level, text.value)];
      if |text.value| == 0 {
        return Panicked;
      }
      var stripped := Latin(text.value[..|text.value| - 1]);
      if level == PRINT_MEDIUM {
        o := ParseObituary(stripped);
        return;
      }
      return Done;
    }

    /** A handler ends as its effect on the players and the invites says. */
    ghost predicate EndsAt(o: Outcome, r: Result<House>)
      reads this, players, invites
    {
      match r
      case Panic => o == Panicked
      case Ok(h) => o == Done && Whole() == h
    }

    /** The player commands. Both read all their fields before anything can stop them. */
    method ParseCommand() returns (o: Outcome)
      requires Valid()
      modifies this`index, this`handled, players, invites
      ensures Valid()
      ensures var ahead := old(Ahead());
              if ahead == [] then o == Truncated
              else if ahead[0] != PCMD_TELEPORT && ahead[0] != PCMD_INVITE then
                && EndsAt(o, Ok(old(Whole()))) && Ahead() == ahead[1..]
                && handled == old(handled) + [OtherCommand(ahead[0])]
              else
                match ReadTextAt(ahead, 2)
                case None => o == Truncated
                case Some(p) =>
                  if ahead[0] == PCMD_TELEPORT then
                    && EndsAt(o, Ok(old(Whole()))) && Ahead() == p.1
                    && handled == old(handled) + [Record.Teleport(ahead[1], p.0)]
                  else
                    && EndsAt(o, Asked(old(Whole()), ahead[1] as int, now)) && Ahead() == p.1
                    && handled == old(handled) + [Record.Invite(ahead[1], p.0)]
    {
      hide ReadTextAt, SplitText, Asked;
      ghost var ahead := Ahead();
      var cmd := ReadByte();
      if cmd.None? {
        return Truncated;
      }
      FieldsBehind(ahead);
      if cmd.value == PCMD_TELEPORT {
        o := Teleport();
      } else if cmd.value == PCMD_INVITE {
        o := Invite();
      } else {
        handled := handled + [OtherCommand(cmd.value)];
        return Done;
      }
    }

    /** The fields of Teleport; where it sends the player is not modelled. */
    method Teleport() returns (o: Outcome)
      requires Valid()
      modifies this`index, this`handled
      ensures Valid()
      ensures match ReadTextAt(old(Ahead()), 1)
              case None => o == Truncated
              case Some(p) =>
                && o == Done && Ahead() == p.1
                && handled == old(handled) + [Record.Teleport(old(Ahead())[0], p.0)]
    {
      var player, target := ReadByteAndString();
      if target.None? {
        return Truncated;
      }
      handled := handled + [Record.Teleport(player, target.value)];
      return Done;
    }

    method Invite() returns (o: Outcome)
      requires Valid()
      modifies this`index, this`handled, players, invites
      ensures Valid()
      ensures match ReadTextAt(old(Ahead()), 1)
              case None => o == Truncated
              case Some(p) =>
                && EndsAt(o, Asked(old(Whole()), old(Ahead())[0] as int, now)) && Ahead() == p.1
                && handled == old(handled) + [Record.Invite(old(Ahead())[0], p.0)]
    {
      hide ReadTextAt, Asked;
      var client, text := ReadByteAndString();
      if text.None? {
        return Truncated;
      }
      handled := handled + [Record.Invite(client, text.value)];
      ghost var before := Whole();
      var reply := AskInvite(client as int);
      o := if reply.Crashed? then Panicked else Done;
    }

    /** Invite behind the reading of its fields. The announcement to the other frontends is
        left out, and so are the replies' texts. */
    method AskInvite(client: int) returns (reply: Invites.Reply)
      modifies players, invites
      ensures reply == ReplyTo(old(Whole()), client, now)
      ensures match Asked(old(Whole()), client, now)
              case Panic => reply.Crashed?
              case Ok(h) => !reply.Crashed? && Whole() == h
    {
      ViewAt(Whole(), client);
      var found := FindPlayer(client);
      if !allowInvite {
        return Invites.NotAllowed;
      }
      if invites.tokens == 0 {
        return Invites.NoTokens;
      }
      if found.None? {
        return Invites.Crashed;
      }
      var p := players[found.value];
      var available, invtime := p.tenant.available, now - p.tenant.lastInvite;
      if available == 0 {
        if invtime > 600 {
          available := 3;
        } else {
          return Invites.OutOfInvites(600 - invtime);
        }
      } else if invtime < 30 {
        return Invites.TooSoon(30 - invtime);
      }
      Store(found.value, p.(tenant := Invites.Tenant(available - 1, now, p.tenant.invites + 1)));
      invites.Spend();
      return Invites.Sent;
    }

    method ParseMap() returns (o: Outcome)
      requires Valid()
      modifies this`index, this`handled, this`previousMap, this`currentMap
      ensures Valid()
      ensures match SplitText(old(Ahead()))
              case None => o == Truncated
              case Some(p) =>
                && o == Done && Ahead() == p.1 && handled == old(handled) + [MapChange(p.0)]
                && previousMap == old(currentMap) && currentMap == p.0
    {
      var mapname := ReadString();
      if mapname.None? {
        return Truncated;
      }
      previousMap := currentMap;
      currentMap := mapname.value;
      handled := handled + [MapChange(mapname.value)];
      return Done;
    }

    /** The pings are counted here; what is sent back is in the session. */
    method Pong()
      modifies this`pingCount, this`handled
      ensures pingCount == old(pingCount) + 1 && handled == old(handled) + [Ping]
    {
      pingCount := pingCount + 1;
      handled := handled + [Ping];
    }

    // -------------------------------------------------------------- ParseMessage

    /** The handler of a record did what the record stands for, and read that record. */
    ghost predicate Follows(o: Outcome, read: Option<(Record, Bytes)>, before: House, calls: seq<Record>, kept: Notes)
      reads this, players, invites
      requires Valid()
    {
      match read
      case None => o != Done
      case Some(p) =>
        && EndsAt(o, Handled(lib, before, p.0, now))
        && (o == Done ==> Ahead() == p.1 && handled == calls + [p.0] && Kept() == Noted(kept, p.0))
    }

    /** The cases of ParseMessage whose record is a string behind a short header. */
    method HandleTextual(op: Byte) returns (o: Outcome)
      requires Valid() && (op == CMD_PRINT || op == CMD_MAP || op == CMD_PLAYER_UPDATE)
      modifies this`index, this`handled, this`previousMap, this`currentMap, players
      ensures Valid()
      ensures Follows(o, ReadRecord([op] + old(Ahead())), old(Whole()), old(handled), old(Kept()))
    {
      hide ReadRecord, ReadTextAt, SplitText;
      hide Printed, Updated, JoinOne, JoinAll, Left;
      ghost var start := [op] + Ahead();
      assert start[1..] == Ahead();
      TextFields(start);
      if op == CMD_PRINT {
        o := ParsePrint();
      } else if op == CMD_MAP {
        o := ParseMap();
      } else {
        o := ParsePlayerUpdate();
      }
    }

    method HandleCommand() returns (o: Outcome)
      requires Valid()
      modifies this`index, this`handled, players, invites
      ensures Valid()
      ensures Follows(o, ReadRecord([CMD_COMMAND] + old(Ahead())), old(Whole()), old(handled), old(Kept()))
    {
      hide ReadRecord, ReadTextAt, SplitText, Asked;
      ghost var start := [CMD_COMMAND] + Ahead();
      assert start[1..] == Ahead();
      TextFields(start);
      OtherFields(start);
      o := ParseCommand();
    }

    method HandleOther(op: Byte) returns (o: Outcome)
      requires Valid() && op != CMD_PRINT && op != CMD_MAP && op != CMD_PLAYER_UPDATE && op != CMD_COMMAND
      modifies this`index, this`lost, this`rows, this`playerCount, this`pingCount, this`handled, players
      ensures Valid()
      ensures Follows(o, ReadRecord([op] + old(Ahead())), old(Whole()), old(handled), old(Kept()))
    {
      hide ReadRecord, ReadJoin, ReadJoins;
      hide Printed, Updated, JoinOne, JoinAll, Left;
      ghost var start := [op] + Ahead();
      assert start[1..] == Ahead();
      OtherFields(start);
      o := Done;
      if op == CMD_PING {
        Pong();
      } else if op == CMD_PLAYER_LIST {
        o := ParsePlayerlist();
      } else if op == CMD_CONNECT {
        o := ParseConnect();
      } else if op == CMD_DISCONNECT {
        o := ParseDisconnect();
      } else {
        handled := handled + [Unknown(op)];
      }
    }

    /** One pass of the loop: an opcode byte and the handler it selects. */
    method HandleRecord() returns (o: Outcome)
      requires Valid() && Ahead() != []
      modifies this`index, this`lost, this`rows, this`playerCount, players, invites
      modifies this`pingCount, this`previousMap, this`currentMap, this`handled
      ensures Valid()
      ensures Follows(o, ReadRecord(old(Ahead())), old(Whole()), old(handled), old(Kept()))
    {
      hide ReadRecord, Follows;
      ghost var start := Ahead();
      var op := ReadByte();
      assert [op.value] + Ahead() == start;
      if op.value == CMD_PRINT || op.value == CMD_MAP || op.value == CMD_PLAYER_UPDATE {
        o := HandleTextual(op.value);
      } else if op.value == CMD_COMMAND {
        o := HandleCommand();
      } else {
        o := HandleOther(op.value);
      }
    }

    /** Works through a message to its end. When every record of it can be read and none
        panics, the cursor reaches the end, the handlers have read exactly these records in
        order, and the table, map and pings are what the records make of them. */
    method ParseMessage() returns (o: Outcome)
      requires Valid()
      modifies this`index, this`lost, this`rows, this`playerCount, players, invites
      modifies this`pingCount, this`previousMap, this`currentMap, this`handled
      ensures Valid()
      ensures var p := Parse(old(Ahead()));
              var r := HandledAll(lib, old(Whole()), p.records, now);
              && (o == Done <==> p.rest == [] && r.Ok?)
              && (o == Done ==> Ahead() == [] && Whole() == r.value && handled == old(handled) + p.records)
              && (o == Done ==> Kept() == NotedAll(old(Kept()), p.records))
              && (p.rest == [] && r.Panic? ==> o == Panicked)
    {
      hide ReadRecord, Handled, Noted;
      ghost var start, whole, calls, kept := Ahead(), Whole(), handled, Kept();
      ghost var before: seq<Record> := [];
      assert handled == calls + before;
      while index < |data|
        invariant Valid()
        invariant Parse(start) == Parsed(before + Parse(Ahead()).records, Parse(Ahead()).rest)
        invariant HandledAll(lib, whole, before, now) == Ok(Whole())
        invariant handled == calls + before && Kept() == NotedAll(kept, before)
        decreases |data| - index
      {
        ghost var ahead := Ahead();
        o := HandleRecord();
        ParseFront(ahead);
        if ReadRecord(ahead).Some? {
          ghost var r := ReadRecord(ahead).value.0;
          HandledOneMore(lib, whole, before, r, now);
          NotedOneMore(kept, before, r);
          Concat(before, [r], Parse(ReadRecord(ahead).value.1).records);
          Concat(calls, before, [r]);
          if o != Done {
            PanicsForGood(lib, whole, before + [r], Parse(ReadRecord(ahead).value.1).records, now);
          }
          before := before + [r];
        }
        if o != Done {
          return;
        }
      }
      assert before + [] == before;
      return Done;
    }

    /** One read from the connection, decrypted: a new buffer, parsed to its end. A table
        that was reachable stays so, with all that is proved of reachable tables. */
    method Receive(input: Bytes, clock: int) returns (o: Outcome)
      modifies this`data, this`index, this`now, this`lost, this`rows, this`playerCount, players, invites
      modifies this`pingCount, this`previousMap, this`currentMap, this`handled
      ensures Valid()
      ensures var p := Parse(input);
              var r := HandledAll(lib, old(Whole()), p.records, clock);
              && (o == Done <==> p.rest == [] && r.Ok?)
              && (o == Done ==> Ahead() == [] && Whole() == r.value && handled == old(handled) + p.records)
              && (o == Done ==> Kept() == NotedAll(old(Kept()), p.records))
              && (p.rest == [] && r.Panic? ==> o == Panicked)
      ensures clock > 0 && Reachable(lib, old(Board())) && o == Done ==> Reachable(lib, Board())
    {
      hide Reachable, HandledAll, Parse, NotedAll;
      ghost var before := Whole();
      data, index, now := input, 0, clock;
      assert Ahead() == input;
      o := ParseMessage();
      if clock > 0 && Reachable(lib, before.table) && o == Done {
        MessageKeepsReachable(lib, before, Parse(input).records, clock);
      }
    }
  }

  /** The fields behind the command byte. */
  lemma FieldsBehind(data: Bytes)
    requires data != []
    ensures ReadTextAt(data, 2) == ReadTextAt(data[1..], 1)
    ensures ReadTextAt(data, 2).Some? ==> |data| >= 2 && data[1..][0] == data[1]
  {
    if |data| >= 2 {
      assert data[1..][1..] == data[2..];
    }
  }

  lemma JoinFields(data: Bytes)
    ensures ReadJoin(data) ==
            match ReadTextAt(data, 1) {
              case None => None
              case Some(ui) => match SplitText(ui.1) {
                case None => None
                case Some(version) => Some((Incoming.Join(data[0], ui.0, version.0), version.1)) } }
  {
    hide ReadTextAt, SplitText, Terminated;
  }

  lemma JoinsFront(n: nat, data: Bytes)
    ensures ReadJoins(n, data) ==
            if n == 0 then Some(([], data))
            else match ReadJoin(data) {
              case None => None
              case Some(first) => match ReadJoins(n - 1, first.1) {
                case None => None
                case Some(rest) => Some(([first.0] + rest.0, rest.1)) } }
    ensures ReadJoins(n, data).Some? ==> |ReadJoins(n, data).value.0| == n
  {
    hide ReadJoin, EncodeJoin;
  }

  lemma JoinAllFront(lib: Library, t: Table, js: seq<Incoming.Join>, now: int)
    ensures JoinAll(lib, t, js, now) ==
            if js == [] then Ok(t)
            else match JoinOne(lib, t, js[0], now) {
              case Panic => Panic
              case Ok(t') => JoinAll(lib, t', js[1..], now) }
  {
    hide JoinOne;
  }

  lemma ParseFront(data: Bytes)
    requires data != []
    ensures Parse(data) == match ReadRecord(data) {
              case None => Parsed([], data)
              case Some(p) => Parsed([p.0] + Parse(p.1).records, Parse(p.1).rest) }
    ensures ReadRecord(data).Some? ==> |ReadRecord(data).value.1| < |data|
  {
  }

  // ---------------------------------------------------------------- reading field by field

  /** What ReadRecord reads, in terms of the bytes behind the opcode. */
  lemma TextFields(data: Bytes)
    requires data != []
    ensures var op, d := data[0], data[1..];
            && (op == CMD_PRINT ==> ReadRecord(data) == match ReadTextAt(d, 1) {
                  case None => None case Some(p) => Some((Print(d[0], p.0), p.1)) })
            && (op == CMD_PLAYER_UPDATE ==> ReadRecord(data) == match ReadTextAt(d, 1) {
                  case None => None case Some(p) => Some((PlayerUpdate(d[0], p.0), p.1)) })
            && (op == CMD_MAP ==> ReadRecord(data) == match SplitText(d) {
                  case None => None case Some(p) => Some((MapChange(p.0), p.1)) })
            && (op == CMD_COMMAND && d != [] && (d[0] == PCMD_TELEPORT || d[0] == PCMD_INVITE) ==>
                  ReadRecord(data) == match ReadTextAt(d, 2) {
                    case None => None
                    case Some(p) =>
                      Some((if d[0] == PCMD_TELEPORT then Teleport(d[1], p.0) else Invite(d[1], p.0), p.1)) })
  {
    hide SplitText, Terminated;
    assert data[1..][0..] == data[1..];
    if |data| >= 2 {
      assert data[1..][1..] == data[2..];
      if |data| >= 3 {
        assert data[1..][2..] == data[3..];
      }
    }
  }

  lemma OtherFields(data: Bytes)
    requires data != []
    ensures var op, d := data[0], data[1..];
            && (op == CMD_PING ==> ReadRecord(data) == Some((Ping, d)))
            && (Dispatched(op) || ReadRecord(data) == Some((Unknown(op), d)))
            && (op == CMD_CONNECT ==> ReadRecord(data) == match ReadJoin(d) {
                  case None => None case Some(p) => Some((Connect(p.0), p.1)) })
            && (op == CMD_PLAYER_LIST ==>
                ReadRecord(data) == if d == [] then None else match ReadJoins(d[0] as int, d[1..]) {
                  case None => None case Some(p) => Some((PlayerList(p.0), p.1)) })
            && (op == CMD_DISCONNECT ==>
                ReadRecord(data) == if d == [] then None else Some((Disconnect(d[0]), d[1..])))
            && (op == CMD_COMMAND && d == [] ==> ReadRecord(data) == None)
            && (op == CMD_COMMAND && d != [] && d[0] != PCMD_TELEPORT && d[0] != PCMD_INVITE ==>
                  ReadRecord(data) == Some((OtherCommand(d[0]), d[1..])))
  {
    hide SplitText, Terminated, ReadTextAt, ReadJoin, ReadJoins, EncodeJoin, EncodeJoins;
    if |data| >= 2 {
      assert data[1..][1..] == data[2..];
    }
  }
}
