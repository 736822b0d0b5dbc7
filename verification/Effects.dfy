/**
 What the records of a frontend do to its players, their scores and their invites, and
 what holds of that: over one message, and over all that a frontend lives through.
 */
module Effects {
  import opened Wrappers
  import opened Octets
  import opened Message
  import opened Incoming
  import opened Sequences
  import opened Scoreboard
  import Userinfo
  import Invites

  const PRINT_MEDIUM: Byte := 1

  // ---------------------------------------------------------------- what a record does

  function JoinAll(lib: Library, t: Table, js: seq<Incoming.Join>, now: int): Result<Table>
    decreases |js|
  {
    if js == [] then Ok(t)
    else
      match JoinOne(lib, t, js[0], now)
      case Panic => Panic
      case Ok(t') => JoinAll(lib, t', js[1..], now)
  }

  function JoinOne(lib: Library, t: Table, j: Incoming.Join, now: int): Result<Table> {
    Joined(lib, t, j.client as int, Latin(j.userinfo), Latin(j.version), now)
  }

  /** ParsePrint cuts the last character off, which an empty text does not have; only
      prints of medium level are read as obituaries. */
  function Printed(lib: Library, t: Table, level: Byte, text: Text): Result<Table> {
    if text == [] then Panic
    else if level == PRINT_MEDIUM then Scored(lib, t, Latin(text[..|text| - 1]))
    else Ok(t)
  }

  /** What a record does to the table; invites are no concern of this. */
  function OnTable(lib: Library, t: Table, r: Record, now: int): Result<Table> {
    match r
    case Print(level, text) => Printed(lib, t, level, text)
    case PlayerList(players) => JoinAll(lib, t, players, now)
    case PlayerUpdate(client, userinfo) => Updated(lib, t, client as int, Latin(userinfo))
    case Connect(player) => JoinOne(lib, t, player, now)
    case Disconnect(client) => Ok(Left(t, client as int, now))
    case _ => Ok(t)
  }

  /** All that records act on: the players, and what limits their invites. */
  datatype House = House(table: Table, allowed: bool, bucket: Invites.Bucket)

  /** The invite fields of the player FindPlayer finds. */
  function TenantOf(ps: seq<Player>, client: int): Option<Invites.Tenant> {
    match Find(ps, client)
    case None => None
    case Some(i) => Some(ps[i].tenant)
  }

  /** A house as the invite command sees it. */
  function View(h: House): Invites.State {
    var ps := h.table.players;
    Invites.State(h.allowed, h.bucket, seq(|ps|, i requires 0 <= i < |ps| => TenantOf(ps, i)))
  }

  function ReplyTo(h: House, client: int, now: int): Invites.Reply {
    Invites.ReplyTo(View(h), client, now)
  }

  /** Only an invite that is sent changes anything; one of an unknown player who gets as
      far as being named stops the backend. */
  function Asked(h: House, client: int, now: int): Result<House> {
    match ReplyTo(h, client, now)
    case Crashed => Panic
    case Sent =>
      var tenant := Invites.Served(View(h).slots[client].value, now);
      Ok(h.(table := Tenanted(h.table, client, tenant), bucket := Invites.Spent(h.bucket)))
    case _ => Ok(h)
  }

  /** A new connection: a vacant table and a full bucket. */
  function Reopened(h: House, maxPlayers: nat): House {
    h.(table := Reconnected(h.table, maxPlayers), bucket := Invites.Start(h.allowed, maxPlayers).bucket)
  }

  function Handled(lib: Library, h: House, r: Record, now: int): Result<House> {
    if r.Invite? then Asked(h, r.client as int, now)
    else
      match OnTable(lib, h.table, r, now)
      case Panic => Panic
      case Ok(t) => Ok(h.(table := t))
  }

  function HandledAll(lib: Library, h: House, rs: seq<Record>, now: int): Result<House> {
    if rs == [] then Ok(h)
    else
      match HandledAll(lib, h, rs[..|rs| - 1], now)
      case Panic => Panic
      case Ok(h') => Handled(lib, h', rs[|rs| - 1], now)
  }

  lemma HandledOneMore(lib: Library, h: House, rs: seq<Record>, r: Record, now: int)
    ensures HandledAll(lib, h, rs + [r], now)
            == match HandledAll(lib, h, rs, now) { case Panic => Panic case Ok(h') => Handled(lib, h', r, now) }
  {
    assert (rs + [r])[..|rs|] == rs;
  }

  lemma {:induction false} PanicsForGood(lib: Library, h: House, rs: seq<Record>, more: seq<Record>, now: int)
    requires HandledAll(lib, h, rs, now).Panic?
    ensures HandledAll(lib, h, rs + more, now).Panic?
    decreases |more|
  {
    if more == [] {
      assert rs + more == rs;
    } else {
      assert (rs + more)[..|rs + more| - 1] == rs + more[..|more| - 1];
      PanicsForGood(lib, h, rs, more[..|more| - 1], now);
    }
  }

  /** What a frontend keeps of its records beside the players: its map, the one before,
      and how many pings it has sent. */
  datatype Notes = Notes(previousMap: Text, currentMap: Text, pings: nat)

  function Noted(n: Notes, r: Record): Notes {
    match r
    case MapChange(name) => n.(previousMap := n.currentMap, currentMap := name)
    case Ping => n.(pings := n.pings + 1)
    case _ => n
  }

  function NotedAll(n: Notes, rs: seq<Record>): Notes {
    if rs == [] then n else Noted(NotedAll(n, rs[..|rs| - 1]), rs[|rs| - 1])
  }

  lemma NotedOneMore(n: Notes, rs: seq<Record>, r: Record)
    ensures NotedAll(n, rs + [r]) == Noted(NotedAll(n, rs), r)
  {
    assert (rs + [r])[..|rs|] == rs;
  }

  /** The view, slot by slot, is what FindPlayer finds. */
  lemma ViewAt(h: House, client: int)
    ensures Invites.Known(View(h), client) <==> Find(h.table.players, client).Some?
    ensures Find(h.table.players, client).Some? ==>
              View(h).slots[client].value == h.table.players[Find(h.table.players, client).value].tenant
  {
  }

  // ---------------------------------------------------------------- bytes and table runs

  function JoinEvent(j: Incoming.Join, now: int): Event {
    Event.Join(j.client as int, Latin(j.userinfo), Latin(j.version), now)
  }

  function JoinEvents(js: seq<Incoming.Join>, now: int): seq<Event> {
    if js == [] then [] else [JoinEvent(js[0], now)] + JoinEvents(js[1..], now)
  }

  /** The table events a record stands for; that of an invite depends on whether it is sent. */
  function Events(h: House, r: Record, now: int): seq<Event> {
    match r
    case Invite(client, _) =>
      if ReplyTo(h, client as int, now) != Invites.Sent then []
      else [Serve(client as int, Invites.Served(View(h).slots[client].value, now))]
    case Print(level, text) =>
      if text != [] && level == PRINT_MEDIUM then [Obituary(Latin(text[..|text| - 1]))] else []
    case PlayerList(players) => JoinEvents(players, now)
    case PlayerUpdate(client, userinfo) => [Update(client as int, Latin(userinfo))]
    case Connect(player) => [JoinEvent(player, now)]
    case Disconnect(client) => [Leave(client as int, now)]
    case _ => []
  }

  lemma {:induction false} RunAppend(lib: Library, t: Table, a: seq<Event>, b: seq<Event>)
    ensures Run(lib, t, a + b) == match Run(lib, t, a) { case Panic => Panic case Ok(t') => Run(lib, t', b) }
    decreases |a|
  {
    hide Scoreboard.Next;
    if a == [] {
      assert a + b == b;
    } else {
      assert (a + b)[1..] == a[1..] + b;
      var next := Scoreboard.Next(lib, t, a[0]);
      if next.Ok? {
        RunAppend(lib, next.value, a[1..], b);
      }
    }
  }

  lemma RunOne(lib: Library, t: Table, e: Event)
    ensures Run(lib, t, [e]) == Scoreboard.Next(lib, t, e)
  {
    hide Scoreboard.Next;
    assert [e][1..] == [];
  }

  lemma {:induction false} JoinsAreRun(lib: Library, t: Table, js: seq<Incoming.Join>, now: int)
    ensures JoinAll(lib, t, js, now) == Run(lib, t, JoinEvents(js, now))
    decreases |js|
  {
    hide Joined;
    if js != [] {
      assert JoinEvents(js, now)[1..] == JoinEvents(js[1..], now);
      var next := JoinOne(lib, t, js[0], now);
      if next.Ok? {
        JoinsAreRun(lib, next.value, js[1..], now);
      }
    }
  }

  lemma TableRecordIsRun(lib: Library, h: House, r: Record, now: int)
    requires !r.Invite?
    ensures OnTable(lib, h.table, r, now)
            == if r.Print? && r.text == [] then Panic else Run(lib, h.table, Events(h, r, now))
  {
    hide Joined, Updated, Left, Scored, Latin, JoinAll, JoinEvents;
    var es := Events(h, r, now);
    if r.PlayerList? {
      JoinsAreRun(lib, h.table, r.players, now);
    } else if |es| == 1 {
      assert es == [es[0]];
      RunOne(lib, h.table, es[0]);
    }
  }

  /** The panics that no table event has: a print without text, an invite that crashes. */
  predicate PanicsItself(h: House, r: Record, now: int) {
    (r.Print? && r.text == []) || (r.Invite? && ReplyTo(h, r.client as int, now).Crashed?)
  }

  /** A record has the effect of the table events it stands for, panics included. */
  lemma RecordIsRun(lib: Library, h: House, r: Record, now: int)
    ensures Handled(lib, h, r, now).Panic?
            <==> PanicsItself(h, r, now) || Run(lib, h.table, Events(h, r, now)).Panic?
    ensures Handled(lib, h, r, now).Ok? ==>
              var h' := Handled(lib, h, r, now).value;
              && Run(lib, h.table, Events(h, r, now)) == Ok(h'.table) && h'.allowed == h.allowed
              && (h'.bucket != h.bucket ==> r.Invite?)
  {
    hide OnTable, Tenanted, View;
    if !r.Invite? {
      TableRecordIsRun(lib, h, r, now);
      hide Events;
    } else if ReplyTo(h, r.client as int, now) == Invites.Sent {
      RunOne(lib, h.table, Events(h, r, now)[0]);
    }
  }

  // ---------------------------------------------------------------- what stops the backend

  predicate StopsAny(slots: nat, js: seq<Incoming.Join>) {
    exists j :: 0 <= j < |js| && StopsJoin(slots, js[j].client as int, Latin(js[j].userinfo))
  }

  /** The records a frontend with a reachable table does not survive. */
  predicate Stops(lib: Library, h: House, r: Record) {
    var t := h.table;
    match r
    case Print(_, text) => text == []
    case PlayerList(players) => StopsAny(|t.players|, players)
    case PlayerUpdate(client, userinfo) => StopsUpdate(lib, t, client as int, Latin(userinfo))
    case Connect(player) => StopsJoin(|t.players|, player.client as int, Latin(player.userinfo))
    case Invite(client, _) => h.allowed && h.bucket.tokens != 0 && !PlayerSlotInUse(t.players, client as int)
    case _ => false
  }

  lemma JoinOneStops(lib: Library, t: Table, j: Incoming.Join, now: int)
    ensures JoinOne(lib, t, j, now).Panic? <==> StopsJoin(|t.players|, j.client as int, Latin(j.userinfo))
    ensures JoinOne(lib, t, j, now).Ok? ==> |JoinOne(lib, t, j, now).value.players| == |t.players|
  {
    Userinfo.PanicsOnOddTokens(Latin(j.userinfo));
    hide Userinfo.Parsed, Userinfo.Unpaired, Latin, NewPlayer;
  }

  lemma {:induction false} JoinsStop(lib: Library, t: Table, js: seq<Incoming.Join>, now: int)
    ensures JoinAll(lib, t, js, now).Panic? <==> StopsAny(|t.players|, js)
    decreases |js|
  {
    hide JoinOne, StopsJoin, Latin;
    if js != [] {
      JoinOneStops(lib, t, js[0], now);
      var next := JoinOne(lib, t, js[0], now);
      if next.Ok? {
        JoinsStop(lib, next.value, js[1..], now);
        StopsRest(|t.players|, js);
      }
    }
  }

  lemma StopsRest(slots: nat, js: seq<Incoming.Join>)
    requires js != [] && !StopsJoin(slots, js[0].client as int, Latin(js[0].userinfo))
    ensures StopsAny(slots, js) <==> StopsAny(slots, js[1..])
  {
    hide StopsJoin, Latin;
    var rest := js[1..];
    if j :| 0 <= j < |js| && StopsJoin(slots, js[j].client as int, Latin(js[j].userinfo)) {
      assert rest[j - 1] == js[j];
    }
    if j :| 0 <= j < |rest| && StopsJoin(slots, rest[j].client as int, Latin(rest[j].userinfo)) {
      assert js[j + 1] == rest[j];
    }
  }

  lemma PrintStops(lib: Patterns, t: Table, level: Byte, text: Text)
    requires Reachable(lib, t)
    ensures Printed(lib, t, level, text).Panic? <==> text == []
  {
    ReachableConsistent(lib, t);
    hide Scored, Latin, Reachable, Consistent;
    if text != [] {
      ObituaryKeeps(lib, t, Latin(text[..|text| - 1]));
    }
  }

  lemma UpdateStops(lib: Patterns, t: Table, client: nat, userinfo: string)
    requires Reachable(lib, t)
    ensures Updated(lib, t, client, userinfo).Panic? <==> StopsUpdate(lib, t, client, userinfo)
  {
    hide Reachable, Updated, StopsUpdate;
    PanicsExactly(lib, t, Update(client, userinfo));
  }

  lemma InviteStops(lib: Patterns, h: House, client: nat, now: int)
    requires Reachable(lib, h.table)
    ensures Asked(h, client, now).Panic?
            <==> h.allowed && h.bucket.tokens != 0 && !PlayerSlotInUse(h.table.players, client)
  {
    SeenExactly(lib, h, client);
    hide Reachable, Tenanted, View, PlayerSlotInUse, Invites.Served, Invites.Spent;
    var s := View(h);
    assert ReplyTo(h, client, now).Crashed? <==> s.allowed && s.bucket.tokens != 0 && !Invites.Known(s, client);
  }

  /** In a reachable table the invite command knows exactly the players in use. */
  lemma SeenExactly(lib: Patterns, h: House, client: int)
    requires Reachable(lib, h.table)
    ensures View(h).allowed == h.allowed && View(h).bucket == h.bucket
    ensures Invites.Known(View(h), client) <==> PlayerSlotInUse(h.table.players, client)
  {
    hide Reachable, Consistent, Sound;
    ReachableConsistent(lib, h.table);
    assert Sound(h.table.players) by { ConsistentSound(h.table); }
    FindIsSlot(h.table.players, client);
    ViewAt(h, client);
    hide Find, TenantOf, Invites.Known;
  }

  lemma ConsistentSound(t: Table)
    requires Consistent(t)
    ensures Sound(t.players)
  {
  }

  /** From a reachable table a handler panics exactly on these records. */
  lemma RecordStopsExactly(lib: Patterns, h: House, r: Record, now: int)
    requires Reachable(lib, h.table)
    ensures Handled(lib, h, r, now).Panic? <==> Stops(lib, h, r)
  {
    hide Reachable, Printed, JoinAll, JoinOne, Updated, Asked, StopsAny, StopsJoin, StopsUpdate, Latin, PlayerSlotInUse;
    match r {
      case Print(level, text) => PrintStops(lib, h.table, level, text);
      case PlayerList(players) => JoinsStop(lib, h.table, players, now);
      case PlayerUpdate(client, userinfo) => UpdateStops(lib, h.table, client as int, Latin(userinfo));
      case Connect(player) => JoinOneStops(lib, h.table, player, now);
      case Invite(client, _) => InviteStops(lib, h, client as int, now);
      case _ =>
    }
  }

  /** A message panics exactly when some record of it is one that the frontend, as the
      records before left it, does not survive. */
  lemma {:induction false} MessageStopsExactly(lib: Patterns, h: House, rs: seq<Record>, now: int)
    requires Reachable(lib, h.table) && now > 0
    ensures HandledAll(lib, h, rs, now).Panic? <==>
              exists i :: 0 <= i < |rs| && HandledAll(lib, h, rs[..i], now).Ok?
                          && Stops(lib, HandledAll(lib, h, rs[..i], now).value, rs[i])
    decreases |rs|
  {
    hide Handled, Stops, Reachable;
    if rs != [] {
      var n, front := |rs| - 1, rs[..|rs| - 1];
      MessageStopsExactly(lib, h, front, now);
      forall i | 0 <= i <= n ensures front[..i] == rs[..i] {
      }
      assert forall i | 0 <= i < n :: front[i] == rs[i];
      if HandledAll(lib, h, front, now).Ok? {
        MessageKeepsReachable(lib, h, front, now);
        RecordStopsExactly(lib, HandledAll(lib, h, front, now).value, rs[n], now);
      } else {
        var i :| 0 <= i < n && HandledAll(lib, h, front[..i], now).Ok?
                 && Stops(lib, HandledAll(lib, h, front[..i], now).value, front[i]);
        assert rs[..i] == front[..i] && rs[i] == front[i];
      }
    }
  }

  // ---------------------------------------------------------------- reachable tables

  lemma EmptyReachable(lib: Patterns, maxPlayers: nat)
    ensures Reachable(lib, Empty(maxPlayers))
  {
    assert AllClocked([]) && Run(lib, Empty(maxPlayers), []) == Ok(Empty(maxPlayers));
  }

  lemma HandshakeKeepsReachable(lib: Patterns, t: Table, maxPlayers: nat)
    requires Reachable(lib, t)
    ensures Reachable(lib, Reconnected(t, maxPlayers))
  {
    hide Scoreboard.Run, Reconnected;
    var slots: nat, es: seq<Event> :| AllClocked(es) && Run(lib, Empty(slots), es) == Ok(t);
    RunAppend(lib, Empty(slots), es, [Handshake(maxPlayers)]);
    RunOne(lib, t, Handshake(maxPlayers));
    assert AllClocked(es + [Handshake(maxPlayers)]);
    assert Run(lib, Empty(slots), es + [Handshake(maxPlayers)]) == Ok(Reconnected(t, maxPlayers));
  }

  lemma {:induction false} JoinEventsClocked(js: seq<Incoming.Join>, now: int)
    requires now > 0
    ensures AllClocked(JoinEvents(js, now))
  {
    if js != [] {
      JoinEventsClocked(js[1..], now);
    }
  }

  lemma EventsClocked(h: House, r: Record, now: int)
    requires now > 0
    ensures AllClocked(Events(h, r, now))
  {
    hide Latin, View, JoinEvents;
    if r.PlayerList? {
      JoinEventsClocked(r.players, now);
    }
  }

  /** A record a handler survives takes a reachable table to a reachable table. */
  lemma RecordKeepsReachable(lib: Patterns, h: House, r: Record, now: int)
    requires Reachable(lib, h.table) && now > 0 && Handled(lib, h, r, now).Ok?
    ensures Reachable(lib, Handled(lib, h, r, now).value.table)
  {
    hide Scoreboard.Run, Handled, Events;
    var maxPlayers: nat, es: seq<Event> :| AllClocked(es) && Run(lib, Empty(maxPlayers), es) == Ok(h.table);
    var more := Events(h, r, now);
    RecordIsRun(lib, h, r, now);
    RunAppend(lib, Empty(maxPlayers), es, more);
    EventsClocked(h, r, now);
    assert AllClocked(es + more);
    assert Run(lib, Empty(maxPlayers), es + more) == Ok(Handled(lib, h, r, now).value.table);
  }

  /** Whatever bytes a frontend sends, as long as no handler panics, the table they leave
      is reachable: every property of reachable tables holds after every message. */
  lemma {:induction false} MessageKeepsReachable(lib: Patterns, h: House, rs: seq<Record>, now: int)
    requires Reachable(lib, h.table) && now > 0 && HandledAll(lib, h, rs, now).Ok?
    ensures Reachable(lib, HandledAll(lib, h, rs, now).value.table)
  {
    hide Handled, Reachable;
    if rs != [] {
      MessageKeepsReachable(lib, h, rs[..|rs| - 1], now);
      RecordKeepsReachable(lib, HandledAll(lib, h, rs[..|rs| - 1], now).value, rs[|rs| - 1], now);
    }
  }

  /** The same list of records has the same effect in one message or split over two, and
      handlers are called on exactly these records. */
  lemma SplitMessage(lib: Library, h: House, a: seq<Record>, b: seq<Record>, now: int)
    requires AllWellFormed(a) && AllWellFormed(b)
    ensures AllWellFormed(a + b) && Parse(EncodeAll(a + b)) == Parsed(a + b, [])
    ensures HandledAll(lib, h, Parse(EncodeAll(a + b)).records, now)
            == match HandledAll(lib, h, Parse(EncodeAll(a)).records, now) {
                 case Panic => Panic
                 case Ok(h') => HandledAll(lib, h', Parse(EncodeAll(b)).records, now) }
  {
    hide Handled, Parse;
    WholeMessage(a);
    WholeMessage(b);
    WholeMessage(a + b);
    HandledAppend(lib, h, a, b, now);
  }

  lemma WholeMessage(rs: seq<Record>)
    requires AllWellFormed(rs)
    ensures Parse(EncodeAll(rs)) == Parsed(rs, [])
  {
    ParseEncoded(rs, []);
    assert EncodeAll(rs) + [] == EncodeAll(rs) && rs + [] == rs;
  }

  lemma {:induction false} HandledAppend(lib: Library, h: House, a: seq<Record>, b: seq<Record>, now: int)
    ensures HandledAll(lib, h, a + b, now)
            == match HandledAll(lib, h, a, now) { case Panic => Panic case Ok(h') => HandledAll(lib, h', b, now) }
    decreases |b|
  {
    hide Handled;
    if b == [] {
      assert a + b == a;
    } else {
      assert (a + b)[..|a + b| - 1] == a + b[..|b| - 1];
      HandledAppend(lib, h, a, b[..|b| - 1], now);
    }
  }
}
