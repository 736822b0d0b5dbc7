/**
 The players of one frontend: a fixed table of slots, changed by joins, leaves,
 userinfo updates and obituaries. The rows written to the database and the entries
 overwritten by a rejoin or dropped by a new connection are kept on record, so that points can be accounted for.
 */
module Scoreboard {
  import opened Wrappers
  import opened Ratios
  import Userinfo
  import Invites

  datatype Player = Player(
    clientId: int,
    connectTime: int,
    name: string,
    ip: string,
    userinfo: string,
    userinfoMap: map<string, string>,
    userInfoHash: string,
    cookie: string,
    version: string,
    deaths: int,
    frags: int,
    suicides: int,
    kdr: real,
    tenant: Invites.Tenant)

  const VACANT := Player(0, 0, "", "", "", map[], "", "", "", 0, 0, 0, 0.0, Invites.NEWCOMER)

  datatype StatRow = StatRow(frags: int, deaths: int, suicides: int, kdr: real, playTime: int)

  datatype Table = Table(players: seq<Player>, playerCount: int, rows: seq<StatRow>, lost: seq<Player>)

  /** The pattern tables of CalculateDeath; a pattern yields the names it captures. */
  datatype DuoTest = DuoTest(read: string -> Option<(string, string)>, means: int)
  datatype SoloTest = SoloTest(read: string -> Option<string>, means: int)

  /** The library calls: the MD5 digest of a userinfo string and the obituary patterns. */
  datatype Library = Library(md5: string -> string, duo: seq<DuoTest>, solo: seq<SoloTest>)

  /** Every pattern captures with (.+), so names are never empty. */
  ghost predicate CapturesNames(lib: Library) {
    && (forall i, s | 0 <= i < |lib.duo| && lib.duo[i].read(s).Some? ::
          lib.duo[i].read(s).value.0 != "" && lib.duo[i].read(s).value.1 != "")
    && (forall i, s | 0 <= i < |lib.solo| && lib.solo[i].read(s).Some? :: lib.solo[i].read(s).value != "")
  }

  type Patterns = lib: Library | CapturesNames(lib) witness Library(s => s, [], [])

  // ---------------------------------------------------------------- frontend/player.go

  predicate InUse(p: Player) { p.connectTime > 0 }

  predicate ValidPlayerID(ps: seq<Player>, client: int) { 0 <= client < |ps| }

  predicate PlayerSlotInUse(ps: seq<Player>, slot: int) {
    ValidPlayerID(ps, slot) && InUse(ps[slot])
  }

  /** The first player passing a test. */
  function First(ps: seq<Player>, test: Player -> bool): (r: Option<nat>)
    ensures r.Some? ==> r.value < |ps| && test(ps[r.value]) && forall j | 0 <= j < r.value :: !test(ps[j])
    ensures r.None? ==> forall j | 0 <= j < |ps| :: !test(ps[j])
  {
    if ps == [] then None
    else
      var n := |ps| - 1;
      var front := First(ps[..n], test);
      assert forall j | 0 <= j < n :: ps[..n][j] == ps[j];
      if front.Some? then front else if test(ps[n]) then Some(n) else None
  }

  function HasId(client: int): Player -> bool {
    (p: Player) => p.clientId == client && p.connectTime > 0
  }

  function HasName(name: string): Player -> bool {
    (p: Player) => p.name == name
  }

  /** The index FindPlayer points to. */
  function Find(ps: seq<Player>, client: int): Option<nat> {
    if !ValidPlayerID(ps, client) then None else First(ps, HasId(client))
  }

  function FindByName(ps: seq<Player>, name: string): Option<nat> {
    First(ps, HasName(name))
  }

  function CalculatedKdr(ps: seq<Player>, cid: int): real {
    if cid < 0 || cid >= |ps| then 0.0
    else
      match Find(ps, cid)
      case None => 0.0
      case Some(i) => Kdr(ps[i].frags, ps[i].deaths)
  }

  function RowOf(p: Player, now: int): StatRow {
    StatRow(p.frags, p.deaths, p.suicides, p.kdr, now - p.connectTime)
  }

  function Removed(t: Table, client: int, now: int): Table {
    if !PlayerSlotInUse(t.players, client) then t
    else t.(rows := t.rows + [RowOf(t.players[client], now)],
            players := t.players[client := VACANT],
            playerCount := t.playerCount - 1)
  }

  // ---------------------------------------------------------------- backend/parse.go

  function Field(info: map<string, string>, key: string): string {
    if key in info then info[key] else ""
  }

  function NewPlayer(
    lib: Library, client: int, userinfo: string, version: string, info: map<string, string>, now: int): Player
  {
    Player(client, now, Field(info, "name"), Field(info, "ip"), userinfo, info, lib.md5(userinfo),
           Field(info, "cl_cookie"), version, 0, 0, 0, 0.0, Invites.NEWCOMER)
  }

  /** ParsePlayer after its fields are read. A client number equal to the number of slots
      passes the check and is then out of range. */
  function Joined(lib: Library, t: Table, client: nat, userinfo: string, version: string, now: int): Result<Table> {
    if client > |t.players| then Ok(t)
    else
      match Userinfo.Parsed(userinfo)
      case Panic => Panic
      case Ok(info) =>
        if client == |t.players| then Panic
        else
          var held := t.players[client];
          Ok(t.(players := t.players[client := NewPlayer(lib, client, userinfo, version, info, now)],
                playerCount := t.playerCount + 1,
                lost := t.lost + if InUse(held) then [held] else []))
  }

  function Left(t: Table, client: nat, now: int): Table {
    if client > |t.players| then t
    else if Find(t.players, client).None? then t
    else Removed(t, client, now)
  }

  function Refreshed(lib: Library, p: Player, userinfo: string, info: map<string, string>): Player {
    p.(userinfoMap := info, name := Field(info, "name"), cookie := Field(info, "cl_cookie"),
       userInfoHash := lib.md5(userinfo))
  }

  function Updated(lib: Library, t: Table, client: nat, userinfo: string): Result<Table> {
    match Find(t.players, client)
    case None => Ok(t)
    case Some(i) =>
      if lib.md5(userinfo) == t.players[i].userInfoHash then Ok(t)
      else
        match Userinfo.Parsed(userinfo)
        case Panic => Panic
        case Ok(info) => Ok(t.(players := t.players[i := Refreshed(lib, t.players[i], userinfo, info)]))
  }

  /** Keeps the books of a player whose invite was sent. */
  function Tenanted(t: Table, client: int, tenant: Invites.Tenant): Table {
    match Find(t.players, client)
    case None => t
    case Some(i) => t.(players := t.players[i := t.players[i].(tenant := tenant)])
  }

  // ---------------------------------------------------------------- frontend/meansofdeath.go

  /** Victim and murderer are slots; either may be missing although the text was read. */
  datatype Death = Death(victim: Option<nat>, murderer: Option<nat>, means: int, solo: bool)

  function FirstDuo(tests: seq<DuoTest>, obit: string): (r: Option<nat>)
    ensures r.Some? ==> r.value < |tests| && tests[r.value].read(obit).Some?
    ensures r.Some? ==> forall j | 0 <= j < r.value :: tests[j].read(obit).None?
    ensures r.None? ==> forall j | 0 <= j < |tests| :: tests[j].read(obit).None?
  {
    if tests == [] then None
    else if tests[0].read(obit).Some? then Some(0)
    else
      match FirstDuo(tests[1..], obit)
      case None => None
      case Some(k) => Some(k + 1)
  }

  function FirstSolo(tests: seq<SoloTest>, obit: string): (r: Option<nat>)
    ensures r.Some? ==> r.value < |tests| && tests[r.value].read(obit).Some?
    ensures r.Some? ==> forall j | 0 <= j < r.value :: tests[j].read(obit).None?
    ensures r.None? ==> forall j | 0 <= j < |tests| :: tests[j].read(obit).None?
  {
    if tests == [] then None
    else if tests[0].read(obit).Some? then Some(0)
    else
      match FirstSolo(tests[1..], obit)
      case None => None
      case Some(k) => Some(k + 1)
  }

  /** The two-player patterns come first; None is an obituary no pattern recognises. */
  function DeathOf(lib: Library, ps: seq<Player>, obit: string): (d: Option<Death>)
    ensures d.Some? && d.value.victim.Some? ==> d.value.victim.value < |ps|
    ensures d.Some? && d.value.murderer.Some? ==> d.value.murderer.value < |ps|
  {
    match FirstDuo(lib.duo, obit)
    case Some(k) =>
      var names := lib.duo[k].read(obit).value;
      Some(Death(FindByName(ps, names.0), FindByName(ps, names.1), lib.duo[k].means, false))
    case None =>
      match FirstSolo(lib.solo, obit)
      case Some(k) => Some(Death(FindByName(ps, lib.solo[k].read(obit).value), None, lib.solo[k].means, true))
      case None => None
  }

  // ---------------------------------------------------------------- ParseObituary

  function Rated(ps: seq<Player>, cid: int): seq<Player>
    requires ValidPlayerID(ps, cid)
  {
    ps[cid := ps[cid].(kdr := CalculatedKdr(ps, cid))]
  }

  function SoloScored(ps: seq<Player>, cid: int): seq<Player>
    requires ValidPlayerID(ps, cid)
  {
    var p := ps[cid];
    Rated(ps[cid := p.(deaths := p.deaths + 1, suicides := p.suicides + 1, frags := p.frags - 1)], cid)
  }

  function DuoScored(ps: seq<Player>, victim: int, murderer: int): seq<Player>
    requires ValidPlayerID(ps, victim) && ValidPlayerID(ps, murderer)
  {
    var died := ps[victim := ps[victim].(deaths := ps[victim].deaths + 1)];
    var killed := died[murderer := died[murderer].(frags := died[murderer].frags + 1)];
    Rated(Rated(killed, victim), murderer)
  }

  /** The scores are written through the ClientID of the players found by name. */
  function Scored(lib: Library, t: Table, obit: string): Result<Table> {
    var death := if obit == "" then None else DeathOf(lib, t.players, obit);
    if death.None? || death.value.victim.None? then Ok(t)
    else
      var victim := t.players[death.value.victim.value].clientId;
      if !ValidPlayerID(t.players, victim) then Panic
      else if death.value.murderer.None? then
        Ok(t.(players := SoloScored(t.players, victim)))
      else
        var murderer := t.players[death.value.murderer.value].clientId;
        if !ValidPlayerID(t.players, murderer) then Panic
        else Ok(t.(players := DuoScored(t.players, victim, murderer)))
  }

  // ---------------------------------------------------------------- HandleConnection

  /** The players still in the table, in the order of their slots. */
  function Aboard(ps: seq<Player>): seq<Player> {
    if ps == [] then []
    else Aboard(ps[..|ps| - 1]) + if InUse(ps[|ps| - 1]) then [ps[|ps| - 1]] else []
  }

  /** A new connection gets a new table, of the size its greeting names; the player count
      is not reset. Whoever is in the old table is dropped without a row. */
  function Reconnected(t: Table, maxPlayers: nat): Table {
    t.(players := seq(maxPlayers, _ => VACANT), lost := t.lost + Aboard(t.players))
  }

  // ---------------------------------------------------------------- runs

  datatype Event =
    | Handshake(maxPlayers: nat)
    | Join(client: nat, userinfo: string, version: string, now: int)
    | Leave(client: nat, now: int)
    | Update(client: nat, userinfo: string)
    | Obituary(text: string)
    | Serve(client: nat, tenant: Invites.Tenant)  // an invite of the player was sent

  function Next(lib: Library, t: Table, e: Event): Result<Table> {
    match e
    case Handshake(maxPlayers) => Ok(Reconnected(t, maxPlayers))
    case Join(client, userinfo, version, now) => Joined(lib, t, client, userinfo, version, now)
    case Leave(client, now) => Ok(Left(t, client, now))
    case Update(client, userinfo) => Updated(lib, t, client, userinfo)
    case Obituary(text) => Scored(lib, t, text)
    case Serve(client, tenant) => Ok(Tenanted(t, client, tenant))
  }

  function Run(lib: Library, t: Table, es: seq<Event>): Result<Table>
    decreases |es|
  {
    if es == [] then Ok(t)
    else
      match Next(lib, t, es[0])
      case Panic => Panic
      case Ok(t') => Run(lib, t', es[1..])
  }

  function Empty(maxPlayers: nat): Table {
    Table(seq(maxPlayers, _ => VACANT), 0, [], [])
  }

  /** The clock is past the beginning of Unix time. */
  predicate Clocked(e: Event) {
    e.Join? ==> e.now > 0
  }

  predicate AllClocked(es: seq<Event>) {
    forall i | 0 <= i < |es| :: Clocked(es[i])
  }

  // ---------------------------------------------------------------- the invariant

  predicate SlotFits(p: Player, i: int) {
    p == VACANT || (p.connectTime > 0 && p.clientId == i)
  }

  predicate FairScore(p: Player) {
    && p.kdr == Kdr(p.frags, p.deaths)
    && 0 <= p.suicides <= p.deaths && p.frags + p.suicides >= 0
  }

  predicate Sound(ps: seq<Player>) {
    forall i | 0 <= i < |ps| :: SlotFits(ps[i], i) && FairScore(ps[i])
  }

  function Sum<T>(value: T -> int, s: seq<T>): int {
    if s == [] then 0 else Sum(value, s[..|s| - 1]) + value(s[|s| - 1])
  }

  lemma {:induction false} SumUpdate<T>(value: T -> int, s: seq<T>, i: nat, x: T)
    requires i < |s|
    ensures Sum(value, s[i := x]) == Sum(value, s) - value(s[i]) + value(x)
  {
    var n := |s| - 1;
    if i == n {
      assert s[i := x][..n] == s[..n];
    } else {
      assert s[i := x][..n] == s[..n][i := x];
      SumUpdate(value, s[..n], i, x);
    }
  }

  lemma SumOneMore<T>(value: T -> int, s: seq<T>, x: T)
    ensures Sum(value, s + [x]) == Sum(value, s) + value(x)
  {
    assert (s + [x])[..|s|] == s;
  }

  /** What a player's score is off balance: every death is someone's frag, or a suicide
      that also costs a frag. */
  function Off(p: Player): int { p.deaths - p.frags - 2 * p.suicides }

  function RowOff(r: StatRow): int { r.deaths - r.frags - 2 * r.suicides }

  function Occupied(p: Player): int { if InUse(p) then 1 else 0 }

  function Balance(t: Table): int {
    Sum(Off, t.players) + Sum(RowOff, t.rows) + Sum(Off, t.lost)
  }

  predicate Consistent(t: Table) {
    && Sound(t.players)
    && Balance(t) == 0
    && t.playerCount == Sum(Occupied, t.players) + |t.lost|
  }

  lemma CleanSlate()
    ensures Kdr(0, 0) == 0.0
  {
  }

  lemma {:induction false} EmptySums(n: nat)
    ensures Sum(Off, seq(n, _ => VACANT)) == 0 && Sum(Occupied, seq(n, _ => VACANT)) == 0
  {
    if n > 0 {
      EmptySums(n - 1);
      assert seq(n, _ => VACANT)[..n - 1] == seq(n - 1, _ => VACANT);
    }
  }

  lemma EmptyConsistent(n: nat)
    ensures Consistent(Empty(n))
  {
    EmptySums(n);
    EmptySound(n);
    assert Empty(n).rows == [] && Empty(n).lost == [];
  }

  lemma EmptySound(n: nat)
    ensures Sound(seq(n, _ => VACANT))
  {
    hide Kdr;
    CleanSlate();
  }

  /** In a sound table FindPlayer finds slot i exactly for the number i of a slot in use. */
  lemma FindIsSlot(ps: seq<Player>, client: int)
    requires Sound(ps)
    ensures Find(ps, client) == if PlayerSlotInUse(ps, client) then Some(client) else None
  {
    hide Kdr;
    if ValidPlayerID(ps, client) {
      var found := First(ps, HasId(client));
      if found.Some? {
        assert SlotFits(ps[found.value], found.value) && HasId(client)(ps[found.value]);
      }
      if InUse(ps[client]) {
        assert SlotFits(ps[client], client) && HasId(client)(ps[client]);
      }
    }
  }

  /** A non-empty name leads to a slot in use that carries its own number. */
  lemma NameIsSlot(ps: seq<Player>, name: string)
    requires Sound(ps) && name != ""
    ensures var found := FindByName(ps, name);
            && (found.Some? ==> found.value < |ps| && ps[found.value].clientId == found.value
                                && ps[found.value].name == name && PlayerSlotInUse(ps, found.value))
            && (found.None? ==> forall i | 0 <= i < |ps| :: ps[i].name != name)
  {
    hide Kdr;
    var found := FindByName(ps, name);
    if found.Some? {
      assert HasName(name)(ps[found.value]);
      assert SlotFits(ps[found.value], found.value);
    } else {
      forall i | 0 <= i < |ps| ensures ps[i].name != name {
        assert !HasName(name)(ps[i]);
      }
    }
  }

  // ---------------------------------------------------------------- each event

  /** Replacing a slot changes the two sums by what the slot gains. */
  lemma SlotReplaced(ps: seq<Player>, i: nat, p: Player)
    requires Sound(ps) && i < |ps| && SlotFits(p, i) && FairScore(p)
    ensures Sound(ps[i := p])
    ensures Sum(Off, ps[i := p]) == Sum(Off, ps) - Off(ps[i]) + Off(p)
    ensures Sum(Occupied, ps[i := p]) == Sum(Occupied, ps) - Occupied(ps[i]) + Occupied(p)
  {
    hide Kdr;
    SumUpdate(Off, ps, i, p);
    SumUpdate(Occupied, ps, i, p);
  }

  lemma {:induction false} SumAppend<T>(value: T -> int, a: seq<T>, b: seq<T>)
    ensures Sum(value, a + b) == Sum(value, a) + Sum(value, b)
    decreases |b|
  {
    if b == [] {
      assert a + b == a;
    } else {
      assert (a + b)[..|a + b| - 1] == a + b[..|b| - 1];
      SumAppend(value, a, b[..|b| - 1]);
    }
  }

  lemma AboardOneMore(ps: seq<Player>, p: Player)
    ensures Aboard(ps + [p]) == Aboard(ps) + if InUse(p) then [p] else []
  {
    assert (ps + [p])[..|ps|] == ps;
  }

  lemma NothingAboard()
    ensures Sum(Off, Aboard([])) == Sum(Off, []) && |Aboard([])| == Sum(Occupied, [])
  {
  }

  /** Vacant slots weigh nothing, so the players aboard carry the whole of both sums. */
  lemma {:induction false} AboardSums(ps: seq<Player>)
    requires Sound(ps)
    ensures Sum(Off, Aboard(ps)) == Sum(Off, ps) && |Aboard(ps)| == Sum(Occupied, ps)
  {
    hide Sound, Sum, Kdr, Aboard;
    if ps == [] {
      NothingAboard();
    } else {
      var front, last := ps[..|ps| - 1], ps[|ps| - 1];
      assert ps == front + [last];
      SoundFront(ps);
      AboardSums(front);
      AboardOneMore(front, last);
      SumOneMore(Off, front, last);
      SumOneMore(Occupied, front, last);
      if InUse(last) {
        SumOneMore(Off, Aboard(front), last);
      } else {
        assert Aboard(ps) == Aboard(front);
      }
    }
  }

  lemma SoundFront(ps: seq<Player>)
    requires Sound(ps) && ps != []
    ensures Sound(ps[..|ps| - 1]) && (ps[|ps| - 1] == VACANT || InUse(ps[|ps| - 1]))
  {
    hide FairScore;
    assert SlotFits(ps[|ps| - 1], |ps| - 1);
  }

  /** A new connection moves the scores of those aboard to the entries lost, and leaves the
      player count too high by their number. */
  lemma ReconnectKeeps(t: Table, maxPlayers: nat)
    requires Consistent(t)
    ensures Consistent(Reconnected(t, maxPlayers))
  {
    AboardSums(t.players);
    SumAppend(Off, t.lost, Aboard(t.players));
    EmptySums(maxPlayers);
    EmptySound(maxPlayers);
  }

  lemma JoinKeeps(lib: Library, t: Table, client: nat, userinfo: string, version: string, now: int)
    requires Consistent(t) && now > 0
    ensures var r := Joined(lib, t, client, userinfo, version, now);
            r.Ok? ==> Consistent(r.value)
  {
    hide Kdr;
    CleanSlate();
    var r := Joined(lib, t, client, userinfo, version, now);
    if r.Ok? && client < |t.players| {
      var held := t.players[client];
      assert SlotFits(held, client);
      SlotReplaced(t.players, client, r.value.players[client]);
      if InUse(held) {
        SumOneMore(Off, t.lost, held);
      } else {
        assert t.lost + [] == t.lost;
      }
    }
  }

  lemma RowBalances(p: Player, now: int)
    ensures RowOff(RowOf(p, now)) == Off(p)
  {
  }

  lemma RemovedSums(t: Table, client: nat, now: int)
    requires PlayerSlotInUse(t.players, client)
    ensures Balance(Removed(t, client, now)) == Balance(t)
    ensures Sum(Occupied, Removed(t, client, now).players) == Sum(Occupied, t.players) - 1
  {
    var p := t.players[client];
    SumUpdate(Off, t.players, client, VACANT);
    SumUpdate(Occupied, t.players, client, VACANT);
    SumOneMore(RowOff, t.rows, RowOf(p, now));
    RowBalances(p, now);
  }

  lemma RemovedSound(ps: seq<Player>, client: nat)
    requires Sound(ps) && client < |ps|
    ensures Sound(ps[client := VACANT])
  {
    hide Kdr;
    CleanSlate();
  }

  /** Removing a player moves the score from the slot to the rows. */
  lemma RemovedKeeps(t: Table, client: nat, now: int)
    requires Consistent(t) && PlayerSlotInUse(t.players, client)
    ensures Consistent(Removed(t, client, now))
  {
    hide Kdr, Sum;
    RemovedSums(t, client, now);
    RemovedSound(t.players, client);
  }

  lemma LeaveKeeps(t: Table, client: nat, now: int)
    requires Consistent(t)
    ensures Consistent(Left(t, client, now))
  {
    FindIsSlot(t.players, client);
    if PlayerSlotInUse(t.players, client) {
      RemovedKeeps(t, client, now);
    }
  }

  lemma UpdateKeeps(lib: Library, t: Table, client: nat, userinfo: string)
    requires Consistent(t)
    ensures var r := Updated(lib, t, client, userinfo);
            r.Ok? ==> Consistent(r.value)
  {
    hide Kdr;
    FindIsSlot(t.players, client);
    var r := Updated(lib, t, client, userinfo);
    if r.Ok? && r.value != t {
      assert SlotFits(t.players[client], client) && FairScore(t.players[client]);
      SlotReplaced(t.players, client, r.value.players[client]);
    }
  }

  lemma ServeKeeps(t: Table, client: nat, tenant: Invites.Tenant)
    requires Consistent(t)
    ensures Consistent(Tenanted(t, client, tenant))
  {
    hide Kdr;
    FindIsSlot(t.players, client);
    if PlayerSlotInUse(t.players, client) {
      assert SlotFits(t.players[client], client) && FairScore(t.players[client]);
      SlotReplaced(t.players, client, t.players[client].(tenant := tenant));
    }
  }

  /** A player's numbers after some deaths, suicides and frags, with the ratio renewed. */
  function Scoring(p: Player, deaths: int, suicides: int, frags: int): Player {
    p.(deaths := p.deaths + deaths, suicides := p.suicides + suicides, frags := p.frags + frags,
       kdr := Kdr(p.frags + frags, p.deaths + deaths))
  }

  predicate Fits(ps: seq<Player>) {
    forall i | 0 <= i < |ps| :: SlotFits(ps[i], i)
  }

  /** The ratio renewed through the table is the ratio of the slot itself. */
  lemma RatedIsKdr(ps: seq<Player>, cid: nat)
    requires cid < |ps| && InUse(ps[cid]) && Fits(ps)
    ensures Rated(ps, cid) == ps[cid := ps[cid].(kdr := Kdr(ps[cid].frags, ps[cid].deaths))]
  {
    hide Kdr;
    var found := First(ps, HasId(cid));
    assert SlotFits(ps[cid], cid) && HasId(cid)(ps[cid]);
    assert found.Some?;
    assert SlotFits(ps[found.value], found.value) && HasId(cid)(ps[found.value]);
  }

  /** A death without a known opponent: one death, one suicide, one frag less. */
  lemma SoloIsScoring(ps: seq<Player>, cid: nat)
    requires Sound(ps) && cid < |ps| && InUse(ps[cid])
    ensures SoloScored(ps, cid) == ps[cid := Scoring(ps[cid], 1, 1, -1)]
  {
    hide Kdr;
    var p := ps[cid];
    assert SlotFits(p, cid);
    var hit := ps[cid := p.(deaths := p.deaths + 1, suicides := p.suicides + 1, frags := p.frags - 1)];
    RatedIsKdr(hit, cid);
  }

  lemma SelfKillIsScoring(ps: seq<Player>, cid: nat)
    requires Sound(ps) && cid < |ps| && InUse(ps[cid])
    ensures DuoScored(ps, cid, cid) == ps[cid := Scoring(ps[cid], 1, 0, 1)]
  {
    hide Kdr;
    assert SlotFits(ps[cid], cid);
    var died := ps[cid := ps[cid].(deaths := ps[cid].deaths + 1)];
    var killed := died[cid := died[cid].(frags := died[cid].frags + 1)];
    RatedIsKdr(killed, cid);
    var once := Rated(killed, cid);
    RatedIsKdr(once, cid);
    hide CalculatedKdr, Sound, Fits;
    Overwritten(ps, cid, died[cid], killed[cid], once[cid], Rated(once, cid)[cid]);
  }

  lemma KillIsScoring(ps: seq<Player>, victim: nat, murderer: nat)
    requires Sound(ps) && victim < |ps| && murderer < |ps| && InUse(ps[victim]) && InUse(ps[murderer])
    requires victim != murderer
    ensures DuoScored(ps, victim, murderer)
            == ps[victim := Scoring(ps[victim], 1, 0, 0)][murderer := Scoring(ps[murderer], 0, 0, 1)]
  {
    hide Kdr, CalculatedKdr;
    assert SlotFits(ps[victim], victim) && SlotFits(ps[murderer], murderer);
    var died := ps[victim := ps[victim].(deaths := ps[victim].deaths + 1)];
    var killed := died[murderer := died[murderer].(frags := died[murderer].frags + 1)];
    KilledFits(ps, victim, murderer);
    RatedIsKdr(killed, victim);
    var once := Rated(killed, victim);
    RatedIsKdr(once, murderer);
    hide Rated, Sound, Fits, SlotFits;
    Interleaved(ps, victim, murderer, died[victim], killed[murderer], once[victim], Rated(once, murderer)[murderer]);
  }

  lemma KilledFits(ps: seq<Player>, victim: nat, murderer: nat)
    requires Sound(ps) && victim < |ps| && murderer < |ps| && InUse(ps[victim]) && InUse(ps[murderer])
    ensures var died := ps[victim := ps[victim].(deaths := ps[victim].deaths + 1)];
            Fits(died[murderer := died[murderer].(frags := died[murderer].frags + 1)])
  {
    hide Kdr;
    assert SlotFits(ps[victim], victim) && SlotFits(ps[murderer], murderer);
  }

  /** A kill: the victim's slot gains a death, the murderer's a frag, and both ratios are
      renewed; a player named on both sides gains both. */
  lemma DuoIsScoring(ps: seq<Player>, victim: nat, murderer: nat)
    requires Sound(ps) && victim < |ps| && murderer < |ps| && InUse(ps[victim]) && InUse(ps[murderer])
    ensures DuoScored(ps, victim, murderer)
            == if victim == murderer then ps[victim := Scoring(ps[victim], 1, 0, 1)]
               else ps[victim := Scoring(ps[victim], 1, 0, 0)][murderer := Scoring(ps[murderer], 0, 0, 1)]
  {
    hide *;
    if victim == murderer {
      SelfKillIsScoring(ps, victim);
    } else {
      KillIsScoring(ps, victim, murderer);
    }
  }

  lemma Overwritten<T>(s: seq<T>, i: nat, a: T, b: T, c: T, d: T)
    requires i < |s|
    ensures s[i := a][i := b][i := c][i := d] == s[i := d]
  {
  }

  lemma Interleaved<T>(s: seq<T>, i: nat, j: nat, a: T, b: T, c: T, d: T)
    requires i < |s| && j < |s| && i != j
    ensures s[i := a][j := b][i := c][j := d] == s[i := c][j := d]
  {
  }

  lemma ScoringKeeps(ps: seq<Player>, cid: nat, deaths: int, suicides: int, frags: int)
    requires Sound(ps) && cid < |ps| && InUse(ps[cid])
    requires 0 <= suicides <= deaths && frags + suicides >= 0
    ensures var after := ps[cid := Scoring(ps[cid], deaths, suicides, frags)];
            && Sound(after)
            && Sum(Off, after) == Sum(Off, ps) + deaths - frags - 2 * suicides
            && Sum(Occupied, after) == Sum(Occupied, ps)
  {
    hide Kdr;
    assert SlotFits(ps[cid], cid) && FairScore(ps[cid]);
    SlotReplaced(ps, cid, Scoring(ps[cid], deaths, suicides, frags));
  }

  /** Who scores what. With a known opponent, or one's own name in that place, the victim
      gains a death and the opponent a frag; an unknown opponent makes it a suicide. */
  predicate ObituaryEffect(ps: seq<Player>, after: seq<Player>, victim: nat, murderer: Option<nat>)
    requires victim < |ps| && (murderer.Some? ==> murderer.value < |ps|)
  {
    match murderer
    case None => after == ps[victim := Scoring(ps[victim], 1, 1, -1)]
    case Some(m) =>
      after == if victim == m then ps[victim := Scoring(ps[victim], 1, 0, 1)]
               else ps[victim := Scoring(ps[victim], 1, 0, 0)][m := Scoring(ps[m], 0, 0, 1)]
  }

  lemma DeathFindsSlots(lib: Patterns, ps: seq<Player>, obit: string)
    requires Sound(ps)
    ensures var d := DeathOf(lib, ps, obit);
            && (d.Some? && d.value.victim.Some? ==>
                  && PlayerSlotInUse(ps, d.value.victim.value)
                  && ps[d.value.victim.value].clientId == d.value.victim.value)
            && (d.Some? && d.value.murderer.Some? ==>
                  && PlayerSlotInUse(ps, d.value.murderer.value)
                  && ps[d.value.murderer.value].clientId == d.value.murderer.value)
  {
    hide Kdr;
    match FirstDuo(lib.duo, obit) {
      case Some(k) =>
        var names := lib.duo[k].read(obit).value;
        NameIsSlot(ps, names.0);
        NameIsSlot(ps, names.1);
      case None =>
        match FirstSolo(lib.solo, obit) {
          case Some(k) => NameIsSlot(ps, lib.solo[k].read(obit).value);
          case None =>
        }
    }
  }

  /** In a consistent table an obituary never panics and scores the slots its names lead to. */
  lemma ObituaryScores(lib: Patterns, t: Table, obit: string)
    requires Consistent(t)
    ensures var r := Scored(lib, t, obit);
            var d := if obit == "" then None else DeathOf(lib, t.players, obit);
            && r.Ok?
            && (d.None? || d.value.victim.None? ==> r.value == t)
            && (d.Some? && d.value.victim.Some? ==>
                  && PlayerSlotInUse(t.players, d.value.victim.value)
                  && (d.value.murderer.Some? ==> PlayerSlotInUse(t.players, d.value.murderer.value))
                  && r.value == t.(players := r.value.players)
                  && ObituaryEffect(t.players, r.value.players, d.value.victim.value, d.value.murderer))
  {
    hide Kdr;
    var ps := t.players;
    var d := if obit == "" then None else DeathOf(lib, ps, obit);
    if d.Some? && d.value.victim.Some? {
      DeathFindsSlots(lib, ps, obit);
      var v := d.value.victim.value;
      if d.value.murderer.None? {
        SoloIsScoring(ps, v);
      } else {
        DuoIsScoring(ps, v, d.value.murderer.value);
      }
    }
  }

  lemma EffectKeeps(ps: seq<Player>, after: seq<Player>, victim: nat, murderer: Option<nat>)
    requires Sound(ps) && PlayerSlotInUse(ps, victim)
    requires murderer.Some? ==> PlayerSlotInUse(ps, murderer.value)
    requires ObituaryEffect(ps, after, victim, murderer)
    ensures Sound(after) && Sum(Off, after) == Sum(Off, ps) && Sum(Occupied, after) == Sum(Occupied, ps)
  {
    hide Kdr, Sum;
    match murderer {
      case None => ScoringKeeps(ps, victim, 1, 1, -1);
      case Some(m) =>
        if victim == m {
          ScoringKeeps(ps, victim, 1, 0, 1);
        } else {
          ScoringKeeps(ps, victim, 1, 0, 0);
          ScoringKeeps(ps[victim := Scoring(ps[victim], 1, 0, 0)], m, 0, 0, 1);
        }
    }
  }

  lemma ObituaryKeeps(lib: Patterns, t: Table, obit: string)
    requires Consistent(t)
    ensures Scored(lib, t, obit).Ok? && Consistent(Scored(lib, t, obit).value)
  {
    hide Kdr, Sum, Sound, Scored, ObituaryEffect, DeathOf;
    ObituaryScores(lib, t, obit);
    var d := if obit == "" then None else DeathOf(lib, t.players, obit);
    if d.Some? && d.value.victim.Some? {
      EffectKeeps(t.players, Scored(lib, t, obit).value.players, d.value.victim.value, d.value.murderer);
    }
  }

  lemma EventKeeps(lib: Patterns, t: Table, e: Event)
    requires Consistent(t) && Clocked(e)
    ensures Next(lib, t, e).Ok? ==> Consistent(Next(lib, t, e).value)
  {
    match e {
      case Handshake(maxPlayers) => ReconnectKeeps(t, maxPlayers);
      case Join(client, userinfo, version, now) => JoinKeeps(lib, t, client, userinfo, version, now);
      case Leave(client, now) => LeaveKeeps(t, client, now);
      case Update(client, userinfo) => UpdateKeeps(lib, t, client, userinfo);
      case Obituary(text) => ObituaryKeeps(lib, t, text);
      case Serve(client, tenant) => ServeKeeps(t, client, tenant);
    }
  }

  lemma {:induction false} RunKeeps(lib: Patterns, t: Table, es: seq<Event>)
    requires Consistent(t) && AllClocked(es)
    ensures Run(lib, t, es).Ok? ==> Consistent(Run(lib, t, es).value)
    decreases |es|
  {
    if es != [] {
      assert Clocked(es[0]);
      assert AllClocked(es[1..]);
      EventKeeps(lib, t, es[0]);
      if Next(lib, t, es[0]).Ok? {
        RunKeeps(lib, Next(lib, t, es[0]).value, es[1..]);
      }
    }
  }

  // ---------------------------------------------------------------- reachable tables

  ghost predicate Reachable(lib: Patterns, t: Table) {
    exists maxPlayers: nat, es: seq<Event> :: AllClocked(es) && Run(lib, Empty(maxPlayers), es) == Ok(t)
  }

  lemma ReachableConsistent(lib: Patterns, t: Table)
    requires Reachable(lib, t)
    ensures Consistent(t)
  {
    var maxPlayers: nat, es: seq<Event> :| AllClocked(es) && Run(lib, Empty(maxPlayers), es) == Ok(t);
    EmptyConsistent(maxPlayers);
    RunKeeps(lib, Empty(maxPlayers), es);
  }

  function Deaths(p: Player): int { p.deaths }
  function Frags(p: Player): int { p.frags }
  function Suicides(p: Player): int { p.suicides }
  function RowDeaths(r: StatRow): int { r.deaths }
  function RowFrags(r: StatRow): int { r.frags }
  function RowSuicides(r: StatRow): int { r.suicides }

  function TotalDeaths(t: Table): int { Sum(Deaths, t.players) + Sum(RowDeaths, t.rows) + Sum(Deaths, t.lost) }
  function TotalFrags(t: Table): int { Sum(Frags, t.players) + Sum(RowFrags, t.rows) + Sum(Frags, t.lost) }
  function TotalSuicides(t: Table): int { Sum(Suicides, t.players) + Sum(RowSuicides, t.rows) + Sum(Suicides, t.lost) }

  lemma {:induction false} OffSplits(ps: seq<Player>)
    ensures Sum(Off, ps) == Sum(Deaths, ps) - Sum(Frags, ps) - 2 * Sum(Suicides, ps)
  {
    if ps != [] {
      OffSplits(ps[..|ps| - 1]);
    }
  }

  lemma {:induction false} RowOffSplits(rs: seq<StatRow>)
    ensures Sum(RowOff, rs) == Sum(RowDeaths, rs) - Sum(RowFrags, rs) - 2 * Sum(RowSuicides, rs)
  {
    if rs != [] {
      RowOffSplits(rs[..|rs| - 1]);
    }
  }

  /** Conservation: in every reachable table the deaths ever scored are the frags plus
      twice the suicides, over live slots, rows written and entries overwritten by a join
      or dropped by a new connection. */
  lemma ScoresConserved(lib: Patterns, t: Table)
    requires Reachable(lib, t)
    ensures TotalDeaths(t) == TotalFrags(t) + 2 * TotalSuicides(t)
  {
    ReachableConsistent(lib, t);
    OffSplits(t.players);
    OffSplits(t.lost);
    RowOffSplits(t.rows);
  }

  /** In every reachable table each stored ratio is the one its numbers give, and it is
      0 only for a clean slate, at least 1 in size otherwise, and negative exactly with
      more deaths than frags. */
  lemma RatiosCurrent(lib: Patterns, t: Table, slot: nat)
    requires Reachable(lib, t) && slot < |t.players|
    ensures var p := t.players[slot];
            && p.kdr == CalculatedKdr(t.players, slot)
            && (p.kdr == 0.0 <==> p.frags == 0 && p.deaths == 0)
            && (p.kdr != 0.0 ==> Abs(p.kdr) >= 1.0)
            && (p.kdr < 0.0 <==> p.deaths > p.frags)
  {
    ReachableConsistent(lib, t);
    var p := t.players[slot];
    assert SlotFits(p, slot) && FairScore(p);
    FindIsSlot(t.players, slot);
    BoundedExactly(p.frags, p.deaths);
  }

  /** How an obituary moves the ratios of the players it names: being killed never raises
      one; a kill lowers the killer's, and a suicide raises the victim's, exactly under the
      conditions that the swap and the negative frags bring about. */
  predicate RatiosMove(ps: seq<Player>, after: seq<Player>, victim: nat, murderer: Option<nat>)
    requires |after| == |ps| && victim < |ps| && (murderer.Some? ==> murderer.value < |ps|)
  {
    var v := ps[victim];
    match murderer
    case None => after[victim].kdr > v.kdr <==> v.frags < 0 && v.frags + v.deaths > 0
    case Some(m) =>
      m != victim ==>
        && after[victim].kdr <= v.kdr
        && (after[m].kdr < ps[m].kdr <==> ps[m].frags <= -2)
  }

  lemma EffectMovesRatios(ps: seq<Player>, after: seq<Player>, victim: nat, murderer: Option<nat>)
    requires Sound(ps) && victim < |ps| && (murderer.Some? ==> murderer.value < |ps|)
    requires ObituaryEffect(ps, after, victim, murderer)
    ensures |after| == |ps| && RatiosMove(ps, after, victim, murderer)
  {
    hide Kdr;
    var v := ps[victim];
    assert FairScore(v);
    match murderer {
      case None =>
        SuicideRaisesExactly(v.frags, v.deaths);
      case Some(m) =>
        assert FairScore(ps[m]);
        DeathsLower(v.frags, v.deaths);
        FragLowersExactly(ps[m].frags, ps[m].deaths);
    }
  }

  /** Every obituary of a reachable table that names a player moves ratios in this way. */
  lemma ObituaryMovesRatios(lib: Patterns, t: Table, obit: string)
    requires Reachable(lib, t)
    ensures var r := Scored(lib, t, obit);
            var d := if obit == "" then None else DeathOf(lib, t.players, obit);
            && r.Ok? && |r.value.players| == |t.players|
            && (d.Some? && d.value.victim.Some? ==>
                  RatiosMove(t.players, r.value.players, d.value.victim.value, d.value.murderer))
  {
    ReachableConsistent(lib, t);
    ObituaryScores(lib, t, obit);
    var d := if obit == "" then None else DeathOf(lib, t.players, obit);
    hide Kdr, Scored, DeathOf, Reachable, RatiosMove, ObituaryEffect;
    if d.Some? && d.value.victim.Some? {
      EffectMovesRatios(t.players, Scored(lib, t, obit).value.players, d.value.victim.value, d.value.murderer);
    }
  }

  /** In every reachable table a slot in use carries its own number, FindPlayer finds
      exactly the slots in use, a name leads to its own slot, and the player count exceeds
      the occupied slots by the number of players overwritten or dropped. */
  lemma SlotsAgree(lib: Patterns, t: Table, client: int, name: string)
    requires Reachable(lib, t)
    ensures PlayerSlotInUse(t.players, client) ==> t.players[client].clientId == client
    ensures Find(t.players, client) == if PlayerSlotInUse(t.players, client) then Some(client) else None
    ensures name != "" && FindByName(t.players, name).Some? ==>
              t.players[FindByName(t.players, name).value].clientId == FindByName(t.players, name).value
    ensures t.playerCount - Sum(Occupied, t.players) == |t.lost|
  {
    ReachableConsistent(lib, t);
    FindIsSlot(t.players, client);
    if PlayerSlotInUse(t.players, client) {
      assert SlotFits(t.players[client], client);
    }
    if name != "" {
      NameIsSlot(t.players, name);
    }
  }

  /** How many players a run drops without removing them: those in a slot a join
      overwrites, and those aboard when a new connection replaces the table. */
  function Dropped(lib: Library, t: Table, es: seq<Event>): nat
    decreases |es|
  {
    if es == [] then 0
    else
      match Next(lib, t, es[0])
      case Panic => 0
      case Ok(t') =>
        (match es[0]
         case Join(client, _, _, _) => if PlayerSlotInUse(t.players, client) then 1 else 0
         case Handshake(_) => |Aboard(t.players)|
         case _ => 0)
        + Dropped(lib, t', es[1..])
  }

  lemma {:induction false} DroppedAreLost(lib: Library, t: Table, es: seq<Event>)
    requires Run(lib, t, es).Ok?
    ensures |Run(lib, t, es).value.lost| == |t.lost| + Dropped(lib, t, es)
    decreases |es|
  {
    hide Kdr, Scored;
    if es != [] {
      if es[0].Obituary? {
        ScoredKeepsLost(lib, t, es[0]);
      }
      DroppedAreLost(lib, Next(lib, t, es[0]).value, es[1..]);
    }
  }

  lemma ScoredKeepsLost(lib: Library, t: Table, e: Event)
    requires e.Obituary? && Next(lib, t, e).Ok?
    ensures Next(lib, t, e).value.lost == t.lost
  {
  }

  /** From an empty table, the player count exceeds the occupied slots by the number of
      players overwritten by a join or dropped by a new connection. */
  lemma CountExceedsByDropped(lib: Patterns, maxPlayers: nat, es: seq<Event>)
    requires AllClocked(es) && Run(lib, Empty(maxPlayers), es).Ok?
    ensures var t := Run(lib, Empty(maxPlayers), es).value;
            t.playerCount - Sum(Occupied, t.players) == Dropped(lib, Empty(maxPlayers), es)
  {
    hide Kdr;
    EmptyConsistent(maxPlayers);
    RunKeeps(lib, Empty(maxPlayers), es);
    DroppedAreLost(lib, Empty(maxPlayers), es);
  }

  /** What joins the client number one past the last slot, or a slot with a key that has
      no value, is not survived. */
  predicate StopsJoin(slots: nat, client: nat, userinfo: string) {
    client == slots || (client < slots && Userinfo.Unpaired(userinfo))
  }

  predicate StopsUpdate(lib: Library, t: Table, client: nat, userinfo: string) {
    && PlayerSlotInUse(t.players, client)
    && lib.md5(userinfo) != t.players[client].userInfoHash
    && Userinfo.Unpaired(userinfo)
  }

  /** From a reachable table exactly these joins and updates panic, and nothing else. */
  lemma PanicsExactly(lib: Patterns, t: Table, e: Event)
    requires Reachable(lib, t)
    ensures Next(lib, t, e).Panic? <==>
              match e
              case Join(client, userinfo, _, _) => StopsJoin(|t.players|, client, userinfo)
              case Update(client, userinfo) => StopsUpdate(lib, t, client, userinfo)
              case _ => false
  {
    hide Kdr;
    ReachableConsistent(lib, t);
    match e {
      case Join(_, userinfo, _, _) => Userinfo.PanicsOnOddTokens(userinfo);
      case Update(client, userinfo) =>
        FindIsSlot(t.players, client);
        Userinfo.PanicsOnOddTokens(userinfo);
      case Obituary(text) => ObituaryKeeps(lib, t, text);
      case _ =>
    }
  }
}
