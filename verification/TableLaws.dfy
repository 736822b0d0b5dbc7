/**
 What each record of a frontend does to its players, field by field: who gains a death or
 a frag, what a join, an update and a leave put where, and how prints become obituaries.
 */
module TableLaws {
  import opened Wrappers
  import opened Octets
  import opened Message
  import opened Incoming
  import opened Scoreboard
  import opened Effects
  import opened Ratios
  import Userinfo
  import Invites

  // ---------------------------------------------------------------- names and patterns

  /** The first slot with this name. */
  predicate Named(ps: seq<Player>, name: string, slot: nat) {
    slot < |ps| && ps[slot].name == name && forall j | 0 <= j < slot :: ps[j].name != name
  }

  predicate Nobody(ps: seq<Player>, name: string) {
    forall j | 0 <= j < |ps| :: ps[j].name != name
  }

  /** The first two-player pattern to read the text reads these two names. */
  predicate ReadsTwo(lib: Library, obit: string, k: nat, a: string, b: string) {
    && k < |lib.duo| && lib.duo[k].read(obit) == Some((a, b))
    && forall j | 0 <= j < k :: lib.duo[j].read(obit).None?
  }

  /** No two-player pattern reads the text, and the first other one to do so reads this name. */
  predicate ReadsOne(lib: Library, obit: string, k: nat, a: string) {
    && (forall j | 0 <= j < |lib.duo| :: lib.duo[j].read(obit).None?)
    && k < |lib.solo| && lib.solo[k].read(obit) == Some(a)
    && forall j | 0 <= j < k :: lib.solo[j].read(obit).None?
  }

  predicate ReadsNothing(lib: Library, obit: string) {
    && (forall j | 0 <= j < |lib.duo| :: lib.duo[j].read(obit).None?)
    && (forall j | 0 <= j < |lib.solo| :: lib.solo[j].read(obit).None?)
  }

  lemma NamedIsFound(ps: seq<Player>, name: string)
    ensures forall i: nat | Named(ps, name, i) :: FindByName(ps, name) == Some(i)
    ensures Nobody(ps, name) ==> FindByName(ps, name) == None
  {
    var found := FindByName(ps, name);
    if found.Some? {
      assert HasName(name)(ps[found.value]);
      assert forall j | 0 <= j < found.value :: !HasName(name)(ps[j]);
    } else {
      assert forall j | 0 <= j < |ps| :: !HasName(name)(ps[j]);
    }
    forall i: nat | Named(ps, name, i) ensures found == Some(i) {
      assert HasName(name)(ps[i]);
    }
  }

  lemma DuoDeath(lib: Library, ps: seq<Player>, obit: string, k: nat, a: string, b: string)
    requires ReadsTwo(lib, obit, k, a, b)
    ensures DeathOf(lib, ps, obit).Some?
    ensures var d := DeathOf(lib, ps, obit).value;
            && (forall v: nat | Named(ps, a, v) :: d.victim == Some(v)) && (Nobody(ps, a) ==> d.victim == None)
            && (forall m: nat | Named(ps, b, m) :: d.murderer == Some(m)) && (Nobody(ps, b) ==> d.murderer == None)
  {
    NamedIsFound(ps, a);
    NamedIsFound(ps, b);
    hide FindByName, Named, Nobody;
    var first := FirstDuo(lib.duo, obit);
    assert first == Some(k);
  }

  lemma SoloDeath(lib: Library, ps: seq<Player>, obit: string, k: nat, a: string)
    requires ReadsOne(lib, obit, k, a)
    ensures DeathOf(lib, ps, obit).Some?
    ensures var d := DeathOf(lib, ps, obit).value;
            && (forall v: nat | Named(ps, a, v) :: d.victim == Some(v)) && (Nobody(ps, a) ==> d.victim == None)
            && d.murderer == None
  {
    NamedIsFound(ps, a);
    hide FindByName, Named, Nobody;
    assert FirstDuo(lib.duo, obit) == None;
    assert FirstSolo(lib.solo, obit) == Some(k);
  }

  // ---------------------------------------------------------------- obituaries

  /** The table after an obituary whose victim and murderer are known. */
  lemma EffectOf(lib: Patterns, t: Table, obit: string, v: nat, murderer: Option<nat>)
    requires Consistent(t) && obit != "" && v < |t.players| && (murderer.Some? ==> murderer.value < |t.players|)
    requires DeathOf(lib, t.players, obit).Some?
    requires DeathOf(lib, t.players, obit).value.victim == Some(v)
    requires DeathOf(lib, t.players, obit).value.murderer == murderer
    ensures Scored(lib, t, obit).Ok?
    ensures var t' := Scored(lib, t, obit).value;
            t' == t.(players := t'.players) && ObituaryEffect(t.players, t'.players, v, murderer)
  {
    ObituaryScores(lib, t, obit);
    hide Scored, DeathOf, Consistent, ObituaryEffect;
  }

  /** "a was railed by b": the player called a gains a death, the one called b a frag. */
  lemma KillScores(lib: Patterns, t: Table, obit: string, k: nat, a: string, b: string, v: nat, m: nat)
    requires Consistent(t) && obit != "" && ReadsTwo(lib, obit, k, a, b)
    requires Named(t.players, a, v) && Named(t.players, b, m) && v != m
    ensures var p, q := t.players[v], t.players[m];
            Scored(lib, t, obit)
            == Ok(t.(players := t.players[v := p.(deaths := p.deaths + 1, kdr := Kdr(p.frags, p.deaths + 1))]
                                         [m := q.(frags := q.frags + 1, kdr := Kdr(q.frags + 1, q.deaths))]))
  {
    DuoDeath(lib, t.players, obit, k, a, b);
    hide Kdr, Scored, DeathOf, Consistent, ReadsTwo, Named;
    EffectOf(lib, t, obit, v, Some(m));
  }

  /** A player named on both sides gains both. */
  lemma OwnKillScores(lib: Patterns, t: Table, obit: string, k: nat, a: string, v: nat)
    requires Consistent(t) && obit != "" && ReadsTwo(lib, obit, k, a, a) && Named(t.players, a, v)
    ensures var p := t.players[v];
            Scored(lib, t, obit)
            == Ok(t.(players := t.players[v := p.(deaths := p.deaths + 1, frags := p.frags + 1,
                                                  kdr := Kdr(p.frags + 1, p.deaths + 1))]))
  {
    DuoDeath(lib, t.players, obit, k, a, a);
    hide Kdr, Scored, DeathOf, Consistent, ReadsTwo, Named;
    EffectOf(lib, t, obit, v, Some(v));
  }

  /** Killed by nobody known, or by nobody at all: a death, a suicide and one frag less. */
  lemma LoneDeathScores(lib: Patterns, t: Table, obit: string, k: nat, a: string, b: string, v: nat)
    requires Consistent(t) && obit != "" && Named(t.players, a, v)
    requires (ReadsTwo(lib, obit, k, a, b) && Nobody(t.players, b)) || ReadsOne(lib, obit, k, a)
    ensures var p := t.players[v];
            Scored(lib, t, obit)
            == Ok(t.(players := t.players[v := p.(deaths := p.deaths + 1, suicides := p.suicides + 1,
                                                  frags := p.frags - 1, kdr := Kdr(p.frags - 1, p.deaths + 1))]))
  {
    if ReadsOne(lib, obit, k, a) {
      SoloDeath(lib, t.players, obit, k, a);
    } else {
      DuoDeath(lib, t.players, obit, k, a, b);
    }
    hide Kdr, Scored, DeathOf, Consistent, ReadsTwo, ReadsOne, Nobody;
    LoneEffect(lib, t, obit, v);
  }

  lemma LoneEffect(lib: Patterns, t: Table, obit: string, v: nat)
    requires Consistent(t) && obit != "" && v < |t.players|
    requires DeathOf(lib, t.players, obit).Some?
    requires DeathOf(lib, t.players, obit).value.victim == Some(v)
    requires DeathOf(lib, t.players, obit).value.murderer == None
    ensures var p := t.players[v];
            Scored(lib, t, obit)
            == Ok(t.(players := t.players[v := p.(deaths := p.deaths + 1, suicides := p.suicides + 1,
                                                  frags := p.frags - 1, kdr := Kdr(p.frags - 1, p.deaths + 1))]))
  {
    hide Kdr, Scored, DeathOf, Consistent;
    EffectOf(lib, t, obit, v, None);
  }

  /** A victim nobody knows, whoever the killer, or a text no pattern reads: no effect. */
  lemma NothingScores(lib: Patterns, t: Table, obit: string, k: nat, a: string, b: string)
    requires || obit == "" || ReadsNothing(lib, obit)
             || (Nobody(t.players, a) && (ReadsTwo(lib, obit, k, a, b) || ReadsOne(lib, obit, k, a)))
    ensures Scored(lib, t, obit) == Ok(t)
  {
    if obit != "" {
      if ReadsNothing(lib, obit) {
        assert FirstDuo(lib.duo, obit) == None && FirstSolo(lib.solo, obit) == None;
      } else if ReadsTwo(lib, obit, k, a, b) {
        DuoDeath(lib, t.players, obit, k, a, b);
      } else {
        SoloDeath(lib, t.players, obit, k, a);
      }
    }
  }

  // ---------------------------------------------------------------- prints

  /** A print of medium level, without its last character, is an obituary; every other
      print leaves the players alone, and none does anything else. */
  lemma PrintScores(lib: Library, h: House, level: Byte, text: Text, last: Byte, now: int)
    requires last != 0
    ensures Handled(lib, h, Print(1, text + [last]), now)
            == match Scored(lib, h.table, Latin(text)) { case Panic => Panic case Ok(t) => Ok(h.(table := t)) }
    ensures level != 1 ==> Handled(lib, h, Print(level, text + [last]), now) == Ok(h)
  {
    hide Scored, Latin;
    var full: Text := text + [last];
    assert full[..|full| - 1] == text;
  }

  // ---------------------------------------------------------------- joins

  /** What a userinfo string says of a key. */
  function Said(info: map<string, string>, key: string): string {
    if key in info then info[key] else ""
  }

  /** A join puts a player into the slot of its number, with a clean slate, the clock as its
      beginning, and every other field from what was sent. Whoever was there is lost. */
  lemma JoinSeats(lib: Library, h: House, j: Incoming.Join, info: map<string, string>, now: int)
    requires j.client as int < |h.table.players| && Userinfo.Parsed(Latin(j.userinfo)) == Ok(info)
    ensures var slot, t := j.client as int, h.table;
            var r := Handled(lib, h, Connect(j), now);
            && r.Ok?
            && var t', p := r.value.table, r.value.table.players[slot];
            && r.value == h.(table := t') && t'.rows == t.rows && t'.playerCount == t.playerCount + 1
            && t'.players == t.players[slot := p]
            && t'.lost == t.lost + (if t.players[slot].connectTime > 0 then [t.players[slot]] else [])
            && p.clientId == slot && p.connectTime == now
            && p.name == Said(info, "name") && p.ip == Said(info, "ip") && p.cookie == Said(info, "cl_cookie")
            && p.userinfo == Latin(j.userinfo) && p.userinfoMap == info && p.version == Latin(j.version)
            && p.userInfoHash == lib.md5(Latin(j.userinfo))
            && p.deaths == p.frags == p.suicides == 0 && p.kdr == 0.0
            && p.tenant == Invites.Tenant(0, 0, 0)
  {
    hide Latin, Userinfo.Parsed;
  }

  /** A number past the table is passed over. */
  lemma FarJoinIgnored(lib: Library, h: House, j: Incoming.Join, now: int)
    requires j.client as int > |h.table.players|
    ensures Handled(lib, h, Connect(j), now) == Ok(h)
  {
  }

  /** With userinfo written as pairs, the name is that of the last pair called "name". */
  lemma JoinNames(lib: Library, h: House, j: Incoming.Join, pairs: seq<Userinfo.Pair>, i: nat, now: int)
    requires j.client as int < |h.table.players|
    requires Userinfo.Clean(pairs) && Latin(j.userinfo) == Userinfo.Print(pairs)
    requires i < |pairs| && pairs[i].0 == "name" && forall k | i < k < |pairs| :: pairs[k].0 != "name"
    ensures Handled(lib, h, Connect(j), now).Ok?
    ensures Handled(lib, h, Connect(j), now).value.table.players[j.client as int].name == pairs[i].1
  {
    Userinfo.RoundTrip(pairs);
    Userinfo.LastWinsHolds(pairs);
    var info := Userinfo.LastWins(pairs);
    assert "name" in info && info["name"] == pairs[i].1;
    NameStays(info);
    hide Userinfo.SplitAddress, Userinfo.LastWins, Userinfo.Print, Userinfo.Clean, Latin;
    JoinSeats(lib, h, j, Userinfo.SplitAddress(info), now);
  }

  lemma NameStays(info: Userinfo.Info)
    ensures "name" in Userinfo.SplitAddress(info) <==> "name" in info
    ensures "name" in info ==> Userinfo.SplitAddress(info)["name"] == info["name"]
  {
    Userinfo.AddressSplit(info, "", "", "");
  }

  function Connects(js: seq<Incoming.Join>): seq<Record> {
    seq(|js|, i requires 0 <= i < |js| => Connect(js[i]))
  }

  /** A list of players is so many connects. */
  lemma ListIsConnects(lib: Library, h: House, js: seq<Incoming.Join>, now: int)
    ensures Handled(lib, h, PlayerList(js), now) == HandledAll(lib, h, Connects(js), now)
  {
    hide JoinOne;
    ConnectsAre(lib, h, js, now);
  }

  lemma {:induction false} ConnectsAre(lib: Library, h: House, js: seq<Incoming.Join>, now: int)
    ensures HandledAll(lib, h, Connects(js), now)
            == match JoinAll(lib, h.table, js, now) { case Panic => Panic case Ok(t) => Ok(h.(table := t)) }
    decreases |js|
  {
    hide JoinOne;
    if js == [] {
      assert Connects(js) == [];
    } else {
      assert Connects(js) == [Connect(js[0])] + Connects(js[1..]);
      HandledAppend(lib, h, [Connect(js[0])], Connects(js[1..]), now);
      assert [Connect(js[0])][..0] == [] && HandledAll(lib, h, [], now) == Ok(h);
      assert HandledAll(lib, h, [Connect(js[0])], now) == Handled(lib, h, Connect(js[0]), now);
      var next := JoinOne(lib, h.table, js[0], now);
      if next.Ok? {
        ConnectsAre(lib, h.(table := next.value), js[1..], now);
      }
    }
  }

  // ---------------------------------------------------------------- leaves and updates

  /** Who leaves gets a row of exactly the numbers in the slot, which is vacant then. */
  lemma LeaveWrites(lib: Patterns, h: House, client: Byte, now: int)
    requires Consistent(h.table) && PlayerSlotInUse(h.table.players, client as int)
    ensures var t, p := h.table, h.table.players[client as int];
            Handled(lib, h, Disconnect(client), now)
            == Ok(h.(table := t.(players := t.players[client as int := VACANT], playerCount := t.playerCount - 1,
                                 rows := t.rows + [StatRow(p.frags, p.deaths, p.suicides, p.kdr,
                                                           now - p.connectTime)])))
    ensures VACANT.connectTime == 0 && VACANT.name == "" && VACANT.deaths == VACANT.frags == VACANT.suicides == 0
  {
    hide Consistent, Sound, Find, Printed, JoinAll, JoinOne, Updated, Asked;
    ConsistentSound(h.table);
    FindIsSlot(h.table.players, client as int);
  }

  lemma StrangerLeaves(lib: Patterns, h: House, client: Byte, now: int)
    requires Consistent(h.table) && !PlayerSlotInUse(h.table.players, client as int)
    ensures Handled(lib, h, Disconnect(client), now) == Ok(h)
  {
    hide Consistent, Sound, Find, Removed, PlayerSlotInUse, Printed, JoinAll, JoinOne, Updated, Asked;
    ConsistentSound(h.table);
    FindIsSlot(h.table.players, client as int);
  }

  /** A userinfo with another digest renews the map, the name, the cookie and the digest of
      its player, and nothing else. */
  lemma UpdateRenews(lib: Patterns, h: House, client: Byte, ui: Text, info: map<string, string>, now: int)
    requires Consistent(h.table) && PlayerSlotInUse(h.table.players, client as int)
    requires lib.md5(Latin(ui)) != h.table.players[client as int].userInfoHash
    requires Userinfo.Parsed(Latin(ui)) == Ok(info)
    ensures var slot, t := client as int, h.table;
            Handled(lib, h, PlayerUpdate(client, ui), now)
            == Ok(h.(table := t.(players := t.players[slot := t.players[slot].(
                   userinfoMap := info, name := Said(info, "name"), cookie := Said(info, "cl_cookie"),
                   userInfoHash := lib.md5(Latin(ui)))])))
  {
    hide Consistent, Sound, Latin, Userinfo.Parsed, Find, Printed, JoinAll, JoinOne, Asked;
    ConsistentSound(h.table);
    FindIsSlot(h.table.players, client as int);
  }

  /** With the same digest, or of nobody, an update does nothing. */
  lemma IdleUpdate(lib: Patterns, h: House, client: Byte, ui: Text, now: int)
    requires Consistent(h.table)
    requires PlayerSlotInUse(h.table.players, client as int) ==>
               lib.md5(Latin(ui)) == h.table.players[client as int].userInfoHash
    ensures Handled(lib, h, PlayerUpdate(client, ui), now) == Ok(h)
  {
    hide Consistent, Sound, Latin, Find, Printed, JoinAll, JoinOne, Asked;
    ConsistentSound(h.table);
    FindIsSlot(h.table.players, client as int);
  }

  /** No other record does anything to the players or the invites. */
  lemma OthersLeaveAlone(lib: Library, h: House, r: Record, now: int)
    requires r.Ping? || r.MapChange? || r.Teleport? || r.OtherCommand? || r.Unknown?
    ensures Handled(lib, h, r, now) == Ok(h)
  {
  }

  // ---------------------------------------------------------------- invites

  /** An invite that is sent takes a token from the bucket and is booked on its player. */
  lemma InviteBooks(lib: Patterns, h: House, client: Byte, text: Text, now: int)
    requires Reachable(lib, h.table) && PlayerSlotInUse(h.table.players, client as int)
    ensures var slot, t := client as int, h.table;
            var p := t.players[slot].tenant;
            var sent := h.allowed && h.bucket.tokens != 0
                        && now - p.lastInvite >= (if p.available == 0 then 601 else 30);
            var booked := Invites.Tenant(if p.available == 0 then 2 else p.available - 1, now, p.invites + 1);
            Handled(lib, h, Invite(client, text), now)
            == if !sent then Ok(h)
               else Ok(h.(table := t.(players := t.players[slot := t.players[slot].(tenant := booked)]),
                          bucket := h.bucket.(tokens := h.bucket.tokens - 1, useCount := h.bucket.useCount + 1)))
  {
    SeenExactly(lib, h, client as int);
    ReachableConsistent(lib, h.table);
    FindIsSlot(h.table.players, client as int);
    ViewAt(h, client as int);
    hide Reachable, Consistent, Find, TenantOf, View;
  }

  // ---------------------------------------------------------------- map and pings

  function Pings(rs: seq<Record>): nat {
    if rs == [] then 0 else Pings(rs[..|rs| - 1]) + if rs[|rs| - 1].Ping? then 1 else 0
  }

  /** Every ping is counted. */
  lemma {:induction false} PingsCounted(n: Notes, rs: seq<Record>)
    ensures NotedAll(n, rs).pings == n.pings + Pings(rs)
    decreases |rs|
  {
    if rs != [] {
      PingsCounted(n, rs[..|rs| - 1]);
    }
  }

  predicate NoMap(rs: seq<Record>) {
    forall i | 0 <= i < |rs| :: !rs[i].MapChange?
  }

  lemma {:induction false} MapsStay(n: Notes, a: seq<Record>, rs: seq<Record>)
    requires NoMap(rs)
    ensures NotedAll(n, a + rs).currentMap == NotedAll(n, a).currentMap
    ensures NotedAll(n, a + rs).previousMap == NotedAll(n, a).previousMap
    decreases |rs|
  {
    if rs == [] {
      assert a + rs == a;
    } else {
      var front := rs[..|rs| - 1];
      assert (a + rs)[..|a + rs| - 1] == a + front;
      MapsStay(n, a, front);
    }
  }

  /** The maps kept are the last two that were sent: the last one, and the one current
      before it. */
  lemma MapsKept(n: Notes, a: seq<Record>, name: Text, rs: seq<Record>)
    requires NoMap(rs)
    ensures NotedAll(n, a + [MapChange(name)] + rs).currentMap == name
    ensures NotedAll(n, a + [MapChange(name)] + rs).previousMap == NotedAll(n, a).currentMap
  {
    NotedOneMore(n, a, MapChange(name));
    MapsStay(n, a + [MapChange(name)], rs);
    hide NotedAll;
  }
}
