/**
 All that a frontend lives through: connections, messages and maintenance. Its invites are
 those of the throttling protocol, so the limits proved there hold for what messages do.
 */
module Lifetime {
  import opened Wrappers
  import opened Octets
  import opened Message
  import opened Incoming
  import opened Scoreboard
  import opened Effects
  import Invites

  datatype Input =
    | Connection(maxPlayers: nat)
    | Message(records: seq<Record>, now: int)
    | Maintenance(now: int)

  function Happens(lib: Library, h: House, i: Input): Result<House> {
    match i
    case Connection(maxPlayers) => Ok(Reopened(h, maxPlayers))
    case Message(records, now) => HandledAll(lib, h, records, now)
    case Maintenance(now) => Ok(h.(bucket := Invites.Refilled(h.bucket, now)))
  }

  function Live(lib: Library, h: House, inputs: seq<Input>): Result<House>
    decreases |inputs|
  {
    if inputs == [] then Ok(h)
    else
      match Happens(lib, h, inputs[0])
      case Panic => Panic
      case Ok(h') => Live(lib, h', inputs[1..])
  }

  predicate ClockedInputs(inputs: seq<Input>) {
    forall i | 0 <= i < |inputs| :: inputs[i].Message? ==> inputs[i].now > 0
  }

  // ---------------------------------------------------------------- as invites see it

  function JoinSlots(js: seq<Incoming.Join>): seq<Invites.Event> {
    if js == [] then [] else [Invites.Join(js[0].client as int)] + JoinSlots(js[1..])
  }

  function OfRecord(r: Record, now: int): seq<Invites.Event> {
    match r
    case Connect(player) => [Invites.Join(player.client as int)]
    case PlayerList(players) => JoinSlots(players)
    case Disconnect(client) => [Invites.Leave(client as int)]
    case Invite(client, _) => [Invites.Ask(client as int, now)]
    case _ => []
  }

  function OfRecords(rs: seq<Record>, now: int): seq<Invites.Event> {
    if rs == [] then [] else OfRecords(rs[..|rs| - 1], now) + OfRecord(rs[|rs| - 1], now)
  }

  function OfInput(i: Input): seq<Invites.Event> {
    match i
    case Connection(maxPlayers) => [Invites.Handshake(maxPlayers)]
    case Message(records, now) => OfRecords(records, now)
    case Maintenance(now) => [Invites.Tick(now)]
  }

  function OfInputs(inputs: seq<Input>): seq<Invites.Event> {
    if inputs == [] then [] else OfInput(inputs[0]) + OfInputs(inputs[1..])
  }

  // ---------------------------------------------------------------- the slots of a table

  function Slots(ps: seq<Player>): seq<Option<Invites.Tenant>> {
    seq(|ps|, i requires 0 <= i < |ps| => if InUse(ps[i]) then Some(ps[i].tenant) else None)
  }

  lemma ViewIsSlots(h: House)
    requires Sound(h.table.players)
    ensures View(h) == Invites.State(h.allowed, h.bucket, Slots(h.table.players))
  {
    hide Sound;
    var ps := h.table.players;
    forall i | 0 <= i < |ps| ensures View(h).slots[i] == Slots(ps)[i] {
      FindIsSlot(ps, i);
    }
    assert View(h).slots == Slots(ps);
  }

  lemma SlotSet(ps: seq<Player>, i: nat, p: Player)
    requires i < |ps|
    ensures Slots(ps[i := p]) == Slots(ps)[i := if InUse(p) then Some(p.tenant) else None]
  {
  }

  lemma SlotKept(ps: seq<Player>, i: nat, p: Player)
    requires i < |ps| && InUse(p) == InUse(ps[i]) && p.tenant == ps[i].tenant
    ensures Slots(ps[i := p]) == Slots(ps)
  {
  }

  lemma JoinedSlots(lib: Library, t: Table, client: nat, userinfo: string, version: string, now: int)
    requires Joined(lib, t, client, userinfo, version, now).Ok? && now > 0
    ensures var ps := Joined(lib, t, client, userinfo, version, now).value.players;
            Slots(ps) == if client < |t.players| then Slots(t.players)[client := Some(Invites.NEWCOMER)]
                         else Slots(t.players)
  {
    hide Slots;
    var t' := Joined(lib, t, client, userinfo, version, now).value;
    if client < |t.players| {
      SlotSet(t.players, client, t'.players[client]);
    }
  }

  lemma LeftSlots(t: Table, client: nat, now: int)
    requires Sound(t.players)
    ensures Slots(Left(t, client, now).players)
            == if client < |t.players| then Slots(t.players)[client := None] else Slots(t.players)
  {
    hide Sound;
    FindIsSlot(t.players, client);
    if PlayerSlotInUse(t.players, client) {
      SlotSet(t.players, client, VACANT);
    } else if client < |t.players| {
      assert Slots(t.players)[client] == None;
    }
  }

  lemma UpdatedSlots(lib: Library, t: Table, client: nat, userinfo: string)
    requires Updated(lib, t, client, userinfo).Ok?
    ensures Slots(Updated(lib, t, client, userinfo).value.players) == Slots(t.players)
  {
    hide Slots;
    var found := Find(t.players, client);
    var t' := Updated(lib, t, client, userinfo).value;
    if found.Some? && t' != t {
      SlotKept(t.players, found.value, t'.players[found.value]);
    }
  }

  lemma EffectSlots(ps: seq<Player>, after: seq<Player>, victim: nat, murderer: Option<nat>)
    requires victim < |ps| && (murderer.Some? ==> murderer.value < |ps|)
    requires ObituaryEffect(ps, after, victim, murderer)
    ensures Slots(after) == Slots(ps)
  {
    hide Slots;
    match murderer {
      case None => SlotKept(ps, victim, after[victim]);
      case Some(m) =>
        SlotKept(ps, victim, if m == victim then after[victim] else Scoring(ps[victim], 1, 0, 0));
        if m != victim {
          var died := ps[victim := Scoring(ps[victim], 1, 0, 0)];
          SlotKept(died, m, Scoring(ps[m], 0, 0, 1));
        }
    }
  }

  lemma ScoredSlots(lib: Patterns, t: Table, obit: string)
    requires Consistent(t)
    ensures Scored(lib, t, obit).Ok? && Slots(Scored(lib, t, obit).value.players) == Slots(t.players)
  {
    ObituaryScores(lib, t, obit);
    var d := if obit == "" then None else DeathOf(lib, t.players, obit);
    hide Scored, DeathOf, ObituaryEffect, Slots, Consistent;
    if d.Some? && d.value.victim.Some? {
      EffectSlots(t.players, Scored(lib, t, obit).value.players, d.value.victim.value, d.value.murderer);
    }
  }

  // ---------------------------------------------------------------- records and messages

  lemma RunOfOne(s: Invites.State, e: Invites.Event)
    ensures Invites.Run(s, [e]) == Invites.Next(s, e)
  {
    assert [e][1..] == [];
  }

  /** A house whose slots change keeps the rest of its view. */
  function With(h: House, slots: seq<Option<Invites.Tenant>>): Invites.State {
    Invites.State(h.allowed, h.bucket, slots)
  }

  lemma {:induction false} JoinAllSlots(lib: Library, h: House, js: seq<Incoming.Join>, now: int)
    requires JoinAll(lib, h.table, js, now).Ok? && now > 0
    ensures var t := JoinAll(lib, h.table, js, now).value;
            With(h, Slots(t.players)) == Invites.Run(With(h, Slots(h.table.players)), JoinSlots(js))
    decreases |js|
  {
    hide Joined, Slots, Latin;
    if js != [] {
      var j := js[0];
      var next := JoinOne(lib, h.table, j, now);
      JoinedSlots(lib, h.table, j.client as int, Latin(j.userinfo), Latin(j.version), now);
      SlotCount(h.table.players);
      JoinAllSlots(lib, h.(table := next.value), js[1..], now);
      assert JoinSlots(js)[1..] == JoinSlots(js[1..]);
    }
  }

  lemma SlotCount(ps: seq<Player>)
    ensures |Slots(ps)| == |ps|
  {
  }

  lemma AskedSlots(h: House, client: nat, now: int)
    requires Consistent(h.table) && Asked(h, client, now).Ok?
    ensures var h' := Asked(h, client, now).value;
            With(h', Slots(h'.table.players)) == Invites.Invited(With(h, Slots(h.table.players)), client, now)
  {
    hide Consistent, Slots, Sound;
    assert Sound(h.table.players) by { ConsistentSound(h.table); }
    ViewIsSlots(h);
    FindIsSlot(h.table.players, client);
    ViewAt(h, client);
    hide View;
    var ps := h.table.players;
    if ReplyTo(h, client, now).Sent? {
      SlotCount(ps);
      SlotSet(ps, client, ps[client].(tenant := Invites.Served(ps[client].tenant, now)));
    }
  }

  lemma RunOfSlot(s: Invites.State, client: nat, now: int)
    ensures Invites.Run(s, [Invites.Join(client)])
            == if client < |s.slots| then s.(slots := s.slots[client := Some(Invites.NEWCOMER)]) else s
    ensures Invites.Run(s, [Invites.Leave(client)])
            == if client < |s.slots| then s.(slots := s.slots[client := None]) else s
    ensures Invites.Run(s, [Invites.Ask(client, now)]) == Invites.Invited(s, client, now)
  {
    RunOfOne(s, Invites.Join(client));
    RunOfOne(s, Invites.Leave(client));
    RunOfOne(s, Invites.Ask(client, now));
    hide Invites.Run, Invites.Invited;
  }

  lemma RunOfNone(s: Invites.State)
    ensures Invites.Run(s, []) == s
  {
  }

  lemma PrintedSlots(lib: Patterns, t: Table, level: Byte, text: Text)
    requires Consistent(t) && Printed(lib, t, level, text).Ok?
    ensures Slots(Printed(lib, t, level, text).value.players) == Slots(t.players)
  {
    hide Consistent, Scored, Slots, Latin;
    if text != [] {
      ScoredSlots(lib, t, Latin(text[..|text| - 1]));
    }
  }

  lemma JoinOneSlots(lib: Library, t: Table, j: Incoming.Join, now: int)
    requires JoinOne(lib, t, j, now).Ok? && now > 0
    ensures Slots(JoinOne(lib, t, j, now).value.players)
            == if j.client as int < |t.players| then Slots(t.players)[j.client as int := Some(Invites.NEWCOMER)]
               else Slots(t.players)
  {
    hide Joined, Slots, Latin;
    JoinedSlots(lib, t, j.client as int, Latin(j.userinfo), Latin(j.version), now);
  }

  lemma JoinRecordSlots(lib: Library, h: House, j: Incoming.Join, now: int)
    requires JoinOne(lib, h.table, j, now).Ok? && now > 0
    ensures With(h, Slots(JoinOne(lib, h.table, j, now).value.players))
            == Invites.Run(With(h, Slots(h.table.players)), [Invites.Join(j.client as int)])
  {
    JoinOneSlots(lib, h.table, j, now);
    RunOfSlot(With(h, Slots(h.table.players)), j.client as int, now);
    SlotCount(h.table.players);
    hide JoinOne, Slots, Invites.Run;
  }

  lemma LeaveRecordSlots(h: House, client: nat, now: int)
    requires Sound(h.table.players)
    ensures With(h, Slots(Left(h.table, client, now).players))
            == Invites.Run(With(h, Slots(h.table.players)), [Invites.Leave(client)])
  {
    LeftSlots(h.table, client, now);
    RunOfSlot(With(h, Slots(h.table.players)), client, now);
    SlotCount(h.table.players);
    hide Left, Slots, Invites.Run;
  }

  /** The records that concern no invite and no slot. */
  lemma IdleRecordSlots(lib: Patterns, h: House, r: Record, now: int)
    requires Consistent(h.table) && !r.Invite? && !r.Connect? && !r.PlayerList? && !r.Disconnect?
    requires OnTable(lib, h.table, r, now).Ok?
    ensures With(h, Slots(OnTable(lib, h.table, r, now).value.players))
            == Invites.Run(With(h, Slots(h.table.players)), OfRecord(r, now))
  {
    hide Slots, Updated, Printed, Latin, Consistent, Invites.Run;
    RunOfNone(With(h, Slots(h.table.players)));
    match r {
      case Print(level, text) => PrintedSlots(lib, h.table, level, text);
      case PlayerUpdate(client, userinfo) => UpdatedSlots(lib, h.table, client as int, Latin(userinfo));
      case _ =>
    }
  }

  lemma TableSlots(lib: Patterns, h: House, r: Record, now: int)
    requires Consistent(h.table) && now > 0 && !r.Invite? && OnTable(lib, h.table, r, now).Ok?
    ensures With(h, Slots(OnTable(lib, h.table, r, now).value.players))
            == Invites.Run(With(h, Slots(h.table.players)), OfRecord(r, now))
  {
    ConsistentSound(h.table);
    hide Consistent, Sound, Slots, Latin, Left, Updated, Printed, JoinOne, JoinAll, JoinSlots, Invites.Run;
    if r.Connect? {
      JoinRecordSlots(lib, h, r.player, now);
    } else if r.Disconnect? {
      LeaveRecordSlots(h, r.client as int, now);
    } else if r.PlayerList? {
      JoinAllSlots(lib, h, r.players, now);
    } else {
      IdleRecordSlots(lib, h, r, now);
    }
  }

  /** What a record does to the slots is what its invite events do. */
  lemma RecordSlots(lib: Patterns, h: House, r: Record, now: int)
    requires Consistent(h.table) && now > 0 && Handled(lib, h, r, now).Ok?
    ensures var h' := Handled(lib, h, r, now).value;
            With(h', Slots(h'.table.players)) == Invites.Run(With(h, Slots(h.table.players)), OfRecord(r, now))
  {
    hide Consistent, Slots, OnTable, Asked;
    if r.Invite? {
      AskedSlots(h, r.client as int, now);
      RunOfSlot(With(h, Slots(h.table.players)), r.client as int, now);
    } else {
      TableSlots(lib, h, r, now);
    }
    hide Invites.Run;
  }

  /** A record changes a frontend, as its invites see it, by its invite events. */
  lemma RecordIsInvites(lib: Patterns, h: House, r: Record, now: int)
    requires Reachable(lib, h.table) && now > 0 && Handled(lib, h, r, now).Ok?
    ensures View(Handled(lib, h, r, now).value) == Invites.Run(View(h), OfRecord(r, now))
  {
    RecordKeepsReachable(lib, h, r, now);
    var h' := Handled(lib, h, r, now).value;
    hide Handled, Reachable, Slots;
    ReachableConsistent(lib, h.table);
    ReachableConsistent(lib, h'.table);
    ViewIsSlots(h);
    ViewIsSlots(h');
    RecordSlots(lib, h, r, now);
  }

  lemma {:induction false} MessageIsInvites(lib: Patterns, h: House, rs: seq<Record>, now: int)
    requires Reachable(lib, h.table) && now > 0 && HandledAll(lib, h, rs, now).Ok?
    ensures View(HandledAll(lib, h, rs, now).value) == Invites.Run(View(h), OfRecords(rs, now))
    decreases |rs|
  {
    hide Handled, Reachable, View;
    if rs != [] {
      var front, last := rs[..|rs| - 1], rs[|rs| - 1];
      var h' := HandledAll(lib, h, front, now).value;
      MessageIsInvites(lib, h, front, now);
      MessageKeepsReachable(lib, h, front, now);
      RecordIsInvites(lib, h', last, now);
      Invites.AcceptedAppend(View(h), OfRecords(front, now), OfRecord(last, now));
    }
  }

  // ---------------------------------------------------------------- a frontend's life

  lemma InputIsInvites(lib: Patterns, h: House, i: Input)
    requires Reachable(lib, h.table) && (i.Message? ==> i.now > 0) && Happens(lib, h, i).Ok?
    ensures Reachable(lib, Happens(lib, h, i).value.table)
    ensures View(Happens(lib, h, i).value) == Invites.Run(View(h), OfInput(i))
  {
    match i {
      case Connection(maxPlayers) =>
        HandshakeKeepsReachable(lib, h.table, maxPlayers);
        RunOfOne(View(h), Invites.Handshake(maxPlayers));
        VacantView(h, maxPlayers);
      case Message(records, now) =>
        MessageKeepsReachable(lib, h, records, now);
        MessageIsInvites(lib, h, records, now);
      case Maintenance(now) =>
        RunOfOne(View(h), Invites.Tick(now));
    }
  }

  lemma VacantView(h: House, maxPlayers: nat)
    ensures View(Reopened(h, maxPlayers)) == Invites.Start(h.allowed, maxPlayers)
  {
    var ps := Reopened(h, maxPlayers).table.players;
    assert forall i | 0 <= i < |ps| :: ps[i] == VACANT;
    forall i | 0 <= i < |ps| ensures TenantOf(ps, i) == None {
      assert Find(ps, i) == None;
    }
    assert View(Reopened(h, maxPlayers)).slots == seq(maxPlayers, _ => None);
  }

  /** Over a whole life a frontend's invites are a run of the throttling protocol, and its
      table stays reachable. */
  lemma {:induction false} LifeIsInvites(lib: Patterns, h: House, inputs: seq<Input>)
    requires Reachable(lib, h.table) && ClockedInputs(inputs) && Live(lib, h, inputs).Ok?
    ensures Reachable(lib, Live(lib, h, inputs).value.table)
    ensures View(Live(lib, h, inputs).value) == Invites.Run(View(h), OfInputs(inputs))
    decreases |inputs|
  {
    hide Reachable, View, Happens, OfInput;
    if inputs != [] {
      assert inputs[0].Message? ==> inputs[0].now > 0;
      InputIsInvites(lib, h, inputs[0]);
      assert forall i | 0 <= i < |inputs| - 1 :: inputs[1..][i] == inputs[i + 1];
      LifeIsInvites(lib, Happens(lib, h, inputs[0]).value, inputs[1..]);
      Invites.AcceptedAppend(View(h), OfInput(inputs[0]), OfInputs(inputs[1..]));
    }
  }

  predicate InputDuring(i: Input, from: int, to: int) {
    match i
    case Connection(_) => false
    case Message(_, now) => from <= now <= to
    case Maintenance(now) => from <= now <= to
  }

  lemma {:induction false} JoinsTimeless(js: seq<Incoming.Join>)
    ensures forall i | 0 <= i < |JoinSlots(js)| :: JoinSlots(js)[i].Join?
  {
    if js != [] {
      JoinsTimeless(js[1..]);
    }
  }

  lemma {:induction false} RecordsDuring(rs: seq<Record>, now: int, from: int, to: int)
    requires from <= now <= to
    ensures forall i | 0 <= i < |OfRecords(rs, now)| ::
              Invites.During(OfRecords(rs, now)[i], from, to) && !OfRecords(rs, now)[i].Handshake?
  {
    if rs != [] {
      var front, last := rs[..|rs| - 1], rs[|rs| - 1];
      RecordsDuring(front, now, from, to);
      if last.PlayerList? {
        JoinsTimeless(last.players);
      }
    }
  }

  lemma {:induction false} InputsDuring(inputs: seq<Input>, from: int, to: int)
    requires forall i | 0 <= i < |inputs| :: InputDuring(inputs[i], from, to)
    ensures Invites.Connected(OfInputs(inputs))
    ensures forall i | 0 <= i < |OfInputs(inputs)| :: Invites.During(OfInputs(inputs)[i], from, to)
    decreases |inputs|
  {
    if inputs != [] {
      assert InputDuring(inputs[0], from, to);
      if inputs[0].Message? {
        RecordsDuring(inputs[0].records, inputs[0].now, from, to);
      }
      InputsDuring(inputs[1..], from, to);
      hide OfInput;
      var first, rest := OfInput(inputs[0]), OfInputs(inputs[1..]);
      forall i | 0 <= i < |first + rest|
        ensures Invites.During((first + rest)[i], from, to) && !(first + rest)[i].Handshake?
      {
        if i >= |first| {
          assert (first + rest)[i] == rest[i - |first|];
        }
      }
    }
  }

  /** Whatever a frontend sends and however often maintenance runs, the use count of its
      bucket grows by no more than the limit in any span of one connection, whatever went
      before in the frontend's life. */
  lemma UsesLimited(
    lib: Patterns, h: House, maxPlayers: nat, before: seq<Input>, inputs: seq<Input>, from: int, span: nat)
    requires Reachable(lib, h.table) && ClockedInputs(before) && ClockedInputs(inputs)
    requires Live(lib, Reopened(h, maxPlayers), before).Ok?
    requires Live(lib, Live(lib, Reopened(h, maxPlayers), before).value, inputs).Ok?
    requires forall i | 0 <= i < |inputs| :: InputDuring(inputs[i], from, from + span)
    ensures var h1 := Live(lib, Reopened(h, maxPlayers), before).value;
            var h2 := Live(lib, h1, inputs).value;
            var uses := h2.bucket.useCount - h1.bucket.useCount;
            0 <= uses <= Invites.MAX_INVITE_TOKENS + 1 + span / (Invites.REFILL_SECONDS + 1)
  {
    var h0 := Reopened(h, maxPlayers);
    HandshakeKeepsReachable(lib, h.table, maxPlayers);
    VacantView(h, maxPlayers);
    hide Reopened, Reachable, Live;
    LifeIsInvites(lib, h0, before);
    var h1 := Live(lib, h0, before).value;
    LifeIsInvites(lib, h1, inputs);
    InputsDuring(inputs, from, from + span);
    Invites.RunConfigured(View(h0), OfInputs(before));
    Invites.BucketConserved(View(h1), OfInputs(inputs));
    Invites.ConnectionLimit(View(h1), OfInputs(inputs), from, span);
  }
}
