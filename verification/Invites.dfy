/**
 Invite throttling: a token bucket of the frontend, refilled by maintenance, and a
 limit of three invites in quick succession for each player.
 */
module Invites {
  import opened Wrappers

  const MAX_INVITE_TOKENS: int := 3
  const REFILL_SECONDS: int := 30

  datatype Bucket = Bucket(tokens: int, max: int, freq: int, lastAddition: int, useCount: int)

  /** The invite fields of the player in one slot; all zero when the player joins. */
  datatype Tenant = Tenant(available: int, lastInvite: int, invites: int)

  const NEWCOMER := Tenant(0, 0, 0)

  datatype State = State(allowed: bool, bucket: Bucket, slots: seq<Option<Tenant>>)

  datatype Reply =
    | NotAllowed
    | NoTokens
    | OutOfInvites(wait: int)
    | TooSoon(wait: int)
    | Sent
    | Crashed  // the asking player is unknown and is dereferenced all the same

  predicate Refills(b: Bucket, now: int) {
    b.tokens < b.max && now - b.lastAddition > b.freq
  }

  function Refilled(b: Bucket, now: int): Bucket {
    if Refills(b, now) then b.(tokens := b.tokens + 1, lastAddition := now) else b
  }

  predicate Known(s: State, client: int) {
    0 <= client < |s.slots| && s.slots[client].Some?
  }

  function ReplyTo(s: State, client: int, now: int): Reply {
    if !s.allowed then NotAllowed
    else if s.bucket.tokens == 0 then NoTokens
    else if !Known(s, client) then Crashed
    else
      var p := s.slots[client].value;
      var elapsed := now - p.lastInvite;
      if p.available == 0 then if elapsed > 600 then Sent else OutOfInvites(600 - elapsed)
      else if elapsed < 30 then TooSoon(30 - elapsed)
      else Sent
  }

  function Spent(b: Bucket): Bucket {
    b.(tokens := b.tokens - 1, useCount := b.useCount + 1)
  }

  /** The player after an invite that was sent. */
  function Served(p: Tenant, now: int): Tenant {
    Tenant((if p.available == 0 then 3 else p.available) - 1, now, p.invites + 1)
  }

  function Invited(s: State, client: int, now: int): State {
    if !ReplyTo(s, client, now).Sent? then s
    else s.(bucket := Spent(s.bucket), slots := s.slots[client := Some(Served(s.slots[client].value, now))])
  }

  class InviteBucket {
    var tokens: int
    const max: int
    const freq: int
    var lastAddition: int
    var useCount: int

    ghost function State(): Bucket
      reads this
    {
      Bucket(tokens, max, freq, lastAddition, useCount)
    }

    /** The bucket HandleConnection gives a frontend. */
    constructor ()
      ensures State() == Bucket(MAX_INVITE_TOKENS, MAX_INVITE_TOKENS, REFILL_SECONDS, 0, 0)
    {
      tokens, max, freq := MAX_INVITE_TOKENS, MAX_INVITE_TOKENS, REFILL_SECONDS;
      lastAddition, useCount := 0, 0;
    }

    /** A bucket as a frontend is loaded with; its maximum is set by the first handshake. */
    constructor Loaded(tokens: int, freq: int)
      ensures State() == Bucket(tokens, 0, freq, 0, 0)
    {
      this.tokens, max, this.freq := tokens, 0, freq;
      lastAddition, useCount := 0, 0;
    }

    /** Takes out the token of an invite that was sent. */
    method Spend()
      modifies this
      ensures State() == Spent(old(State()))
    {
      tokens := tokens - 1;
      useCount := useCount + 1;
    }

    method InviteBucketAdd(now: int)
      modifies this
      ensures State() == Refilled(old(State()), now)
    {
      if tokens < max && now - lastAddition > freq {
        tokens := tokens + 1;
        lastAddition := now;
      }
    }
  }

  // ---------------------------------------------------------------- runs

  datatype Event =
    | Handshake(maxPlayers: nat)  // a new connection
    | Tick(now: int)              // a maintenance run
    | Ask(client: int, now: int)  // a player issues the invite command
    | Join(client: int)
    | Leave(client: int)

  function Start(allowed: bool, maxPlayers: nat): State {
    State(allowed, Bucket(MAX_INVITE_TOKENS, MAX_INVITE_TOKENS, REFILL_SECONDS, 0, 0), seq(maxPlayers, _ => None))
  }

  function Next(s: State, e: Event): State {
    match e
    case Handshake(maxPlayers) => Start(s.allowed, maxPlayers)
    case Tick(now) => s.(bucket := Refilled(s.bucket, now))
    case Ask(client, now) => Invited(s, client, now)
    case Join(client) =>
      if 0 <= client < |s.slots| then s.(slots := s.slots[client := Some(NEWCOMER)]) else s
    case Leave(client) =>
      if 0 <= client < |s.slots| then s.(slots := s.slots[client := None]) else s
  }

  function Run(s: State, es: seq<Event>): State
    decreases |es|
  {
    if es == [] then s else Run(Next(s, es[0]), es[1..])
  }

  predicate Accepts(s: State, e: Event) {
    e.Ask? && ReplyTo(s, e.client, e.now).Sent?
  }

  /** How many invites a run accepts. */
  function Accepted(s: State, es: seq<Event>): nat
    decreases |es|
  {
    if es == [] then 0 else (if Accepts(s, es[0]) then 1 else 0) + Accepted(Next(s, es[0]), es[1..])
  }

  /** When the accepted invites of one player were made. */
  function AcceptedTimes(s: State, es: seq<Event>, client: int): seq<int>
    decreases |es|
  {
    if es == [] then []
    else
      (if Accepts(s, es[0]) && es[0].client == client then [es[0].now] else [])
      + AcceptedTimes(Next(s, es[0]), es[1..], client)
  }

  /** When the run added a token to the bucket. */
  function Additions(s: State, es: seq<Event>): seq<int>
    decreases |es|
  {
    if es == [] then []
    else
      (if es[0].Tick? && Refills(s.bucket, es[0].now) then [es[0].now] else [])
      + Additions(Next(s, es[0]), es[1..])
  }

  /** The events of one connection. */
  predicate Connected(es: seq<Event>) {
    forall i | 0 <= i < |es| :: !es[i].Handshake?
  }

  function Connections(es: seq<Event>): nat {
    if es == [] then 0 else (if es[0].Handshake? then 1 else 0) + Connections(es[1..])
  }

  predicate Sound(s: State) {
    && 0 <= s.bucket.tokens <= s.bucket.max && s.bucket.freq >= 0
    && forall i | 0 <= i < |s.slots| && s.slots[i].Some? :: 0 <= s.slots[i].value.available <= 2
  }

  lemma NextKeeps(s: State, e: Event)
    requires Sound(s)
    ensures Sound(Next(s, e))
    ensures !e.Handshake? ==> Next(s, e).bucket.max == s.bucket.max && Next(s, e).bucket.freq == s.bucket.freq
  {
  }

  /** A frontend's bucket is always one of those HandleConnection makes. */
  predicate Configured(s: State) {
    Sound(s) && s.bucket.max == MAX_INVITE_TOKENS && s.bucket.freq == REFILL_SECONDS
  }

  lemma {:induction false} RunConfigured(s: State, es: seq<Event>)
    requires Configured(s)
    ensures Configured(Run(s, es))
    decreases |es|
  {
    if es != [] {
      NextKeeps(s, es[0]);
      RunConfigured(Next(s, es[0]), es[1..]);
    }
  }

  // ---------------------------------------------------------------- the bucket

  /** In every run of one connection the bucket stays between empty and full, and every
      token used was there at the start or has been added since. */
  lemma {:induction false} BucketConserved(s: State, es: seq<Event>)
    requires Sound(s) && Connected(es)
    ensures var b := Run(s, es).bucket;
            && Sound(Run(s, es))
            && 0 <= b.tokens <= b.max == s.bucket.max && b.freq == s.bucket.freq
            && b.tokens + b.useCount - |Additions(s, es)| == s.bucket.tokens + s.bucket.useCount
            && b.useCount == s.bucket.useCount + Accepted(s, es)
    decreases |es|
  {
    if es != [] {
      NextKeeps(s, es[0]);
      assert Connected(es[1..]);
      BucketConserved(Next(s, es[0]), es[1..]);
    }
  }

  /** Tokens are added more than `freq` seconds apart. */
  lemma {:induction false} AdditionsApart(s: State, es: seq<Event>)
    requires Sound(s) && Connected(es)
    ensures var adds := Additions(s, es);
            && (adds != [] ==> adds[0] - s.bucket.lastAddition > s.bucket.freq)
            && forall i | 0 <= i < |adds| - 1 :: adds[i + 1] - adds[i] > s.bucket.freq
    decreases |es|
  {
    if es != [] {
      NextKeeps(s, es[0]);
      assert Connected(es[1..]);
      AdditionsApart(Next(s, es[0]), es[1..]);
    }
  }

  lemma {:induction false} SpanOf(times: seq<int>, gap: nat)
    requires times != [] && forall i | 0 <= i < |times| - 1 :: times[i + 1] - times[i] > gap
    ensures times[|times| - 1] - times[0] >= (|times| - 1) * (gap + 1)
    decreases |times|
  {
    if |times| > 1 {
      SpanOf(times[..|times| - 1], gap);
      assert (|times| - 1) * (gap + 1) == (|times| - 2) * (gap + 1) + (gap + 1);
    }
  }

  /** The event takes place in the given span of time; joins and leaves carry no time. */
  predicate During(e: Event, from: int, to: int) {
    match e
    case Tick(now) => from <= now <= to
    case Ask(_, now) => from <= now <= to
    case _ => true
  }

  lemma {:induction false} AdditionsDuring(s: State, es: seq<Event>, from: int, to: int)
    requires forall i | 0 <= i < |es| :: During(es[i], from, to)
    ensures forall i | 0 <= i < |Additions(s, es)| :: from <= Additions(s, es)[i] <= to
    decreases |es|
  {
    if es != [] {
      assert forall i | 0 <= i < |es[1..]| :: es[1..][i] == es[i + 1];
      AdditionsDuring(Next(s, es[0]), es[1..], from, to);
    }
  }

  lemma AdditionsWithin(s: State, es: seq<Event>, from: int, span: nat)
    requires Configured(s) && Connected(es)
    requires forall i | 0 <= i < |es| :: During(es[i], from, from + span)
    ensures |Additions(s, es)| <= 1 + span / (REFILL_SECONDS + 1)
  {
    var adds := Additions(s, es);
    if adds != [] {
      AdditionsApart(s, es);
      SpanOf(adds, REFILL_SECONDS);
      AdditionsDuring(s, es, from, from + span);
      assert from <= adds[0] && adds[|adds| - 1] <= from + span;
      assert 31 * (|adds| - 1) <= span;
    }
  }

  lemma ConnectionLimit(s: State, es: seq<Event>, from: int, span: nat)
    requires Configured(s) && Connected(es)
    requires forall i | 0 <= i < |es| :: During(es[i], from, from + span)
    ensures Accepted(s, es) <= MAX_INVITE_TOKENS + 1 + span / (REFILL_SECONDS + 1)
  {
    BucketConserved(s, es);
    AdditionsWithin(s, es, from, span);
  }

  lemma {:induction false} AcceptedAppend(s: State, a: seq<Event>, b: seq<Event>)
    ensures Accepted(s, a + b) == Accepted(s, a) + Accepted(Run(s, a), b)
    ensures Run(s, a + b) == Run(Run(s, a), b)
    decreases |a|
  {
    hide Next, Accepts;
    if a == [] {
      assert a + b == b;
    } else {
      assert (a + b)[1..] == a[1..] + b;
      AcceptedAppend(Next(s, a[0]), a[1..], b);
    }
  }

  lemma {:induction false} ConnectionsAppend(a: seq<Event>, b: seq<Event>)
    ensures Connections(a + b) == Connections(a) + Connections(b)
  {
    if a == [] {
      assert a + b == b;
    } else {
      assert (a + b)[1..] == a[1..] + b;
      ConnectionsAppend(a[1..], b);
    }
  }

  /** Connection by connection, from the last one back. */
  lemma {:induction false} LimitOver(s: State, es: seq<Event>, from: int, span: nat)
    requires Configured(s)
    requires forall i | 0 <= i < |es| :: During(es[i], from, from + span)
    ensures Accepted(s, es) <= (1 + Connections(es)) * (MAX_INVITE_TOKENS + 1 + span / (REFILL_SECONDS + 1))
    decreases |es|
  {
    hide Accepted, Run, Next, Connections, Configured;
    if Connected(es) {
      ConnectionLimit(s, es, from, span);
      NoConnections(es);
    } else {
      var k := LastHandshake(es);
      var a, b := es[..k], es[k..];
      assert es == a + b;
      LimitOver(s, a, from, span);
      RunConfigured(s, a);
      AcceptedAppend(s, a, b);
      ConnectionsAppend(a, b);
      LastConnection(Run(s, a), b, from, span);
      OneMoreTime(Connections(a), MAX_INVITE_TOKENS + 1 + span / (REFILL_SECONDS + 1));
    }
  }

  lemma OneMoreTime(k: nat, each: int)
    ensures (1 + k) * each + each == (1 + (k + 1)) * each
  {
  }

  /** A new connection and what follows it. */
  lemma LastConnection(s: State, es: seq<Event>, from: int, span: nat)
    requires Configured(s) && es != [] && es[0].Handshake? && Connected(es[1..])
    requires forall i | 0 <= i < |es| :: During(es[i], from, from + span)
    ensures Accepted(s, es) <= MAX_INVITE_TOKENS + 1 + span / (REFILL_SECONDS + 1)
    ensures Connections(es) == 1
  {
    NextKeeps(s, es[0]);
    NoConnections(es[1..]);
    assert forall i | 0 <= i < |es[1..]| :: es[1..][i] == es[i + 1];
    ConnectionLimit(Next(s, es[0]), es[1..], from, span);
  }

  lemma {:induction false} NoConnections(es: seq<Event>)
    requires Connected(es)
    ensures Connections(es) == 0
  {
    if es != [] {
      assert Connected(es[1..]);
      NoConnections(es[1..]);
    }
  }

  function LastHandshake(es: seq<Event>): (k: nat)
    requires !Connected(es)
    ensures k < |es| && es[k].Handshake? && Connected(es[k + 1..])
  {
    var n := |es| - 1;
    if es[n].Handshake? then n
    else
      assert exists i :: 0 <= i < n && es[..n][i].Handshake? by {
        var i :| 0 <= i < |es| && es[i].Handshake?;
        assert es[..n][i].Handshake?;
      }
      var k := LastHandshake(es[..n]);
      assert es[k + 1..] == es[..n][k + 1..] + [es[n]];
      k
  }

  /** However a run began, no span of T seconds accepts more invites than the bucket holds,
      plus one, plus one for every full refill interval in it; and each new connection in
      the span, which brings a full bucket, as many again. */
  lemma BucketLimit(allowed: bool, maxPlayers: nat, before: seq<Event>, es: seq<Event>, from: int, span: nat)
    requires forall i | 0 <= i < |es| :: During(es[i], from, from + span)
    ensures var s := Run(Start(allowed, maxPlayers), before);
            && Accepted(s, es) <= (1 + Connections(es)) * (MAX_INVITE_TOKENS + 1 + span / (REFILL_SECONDS + 1))
            && (Connected(es) ==> Accepted(s, es) <= MAX_INVITE_TOKENS + 1 + span / (REFILL_SECONDS + 1))
  {
    RunConfigured(Start(allowed, maxPlayers), before);
    var s := Run(Start(allowed, maxPlayers), before);
    LimitOver(s, es, from, span);
    if Connected(es) {
      ConnectionLimit(s, es, from, span);
    }
  }

  // ---------------------------------------------------------------- the bound is reached

  /** Every 31 seconds maintenance runs, the player rejoins, and asks. */
  function Rounds(now: int, k: nat): seq<Event>
    decreases k
  {
    if k == 0 then []
    else [Tick(now + 31), Join(0), Ask(0, now + 31)] + Rounds(now + 31, k - 1)
  }

  predicate Drained(s: State, now: int) {
    && s.allowed && |s.slots| >= 1 && s.bucket.tokens == 0
    && s.bucket.max == MAX_INVITE_TOKENS && s.bucket.freq == REFILL_SECONDS && s.bucket.lastAddition == now
  }

  lemma OneRound(s: State, now: int)
    requires Drained(s, now) && now > 600
    ensures var round := [Tick(now + 31), Join(0), Ask(0, now + 31)];
            && Drained(Run(s, round), now + 31)
            && Accepted(s, round) == 1 && Additions(s, round) == [now + 31]
  {
    var tick, again := [Tick(now + 31)], [Join(0), Ask(0, now + 31)];
    OneMore(s, Tick(now + 31), again);
    AskAgain(Next(s, Tick(now + 31)), now + 31);
    TwoEvents(Next(s, Tick(now + 31)), Join(0), Ask(0, now + 31));
    assert tick + again == [Tick(now + 31), Join(0), Ask(0, now + 31)];
    hide Run, Accepted;
  }

  lemma OneMore(s: State, e: Event, es: seq<Event>)
    ensures Run(s, [e] + es) == Run(Next(s, e), es)
    ensures Accepted(s, [e] + es) == (if Accepts(s, e) then 1 else 0) + Accepted(Next(s, e), es)
    ensures Additions(s, [e] + es)
            == (if e.Tick? && Refills(s.bucket, e.now) then [e.now] else []) + Additions(Next(s, e), es)
  {
    hide Next, Accepts, Refills;
    assert ([e] + es)[1..] == es;
  }

  lemma TwoEvents(s: State, d: Event, e: Event)
    ensures Run(s, [d, e]) == Next(Next(s, d), e)
    ensures Accepted(s, [d, e]) == (if Accepts(s, d) then 1 else 0) + (if Accepts(Next(s, d), e) then 1 else 0)
    ensures !d.Tick? && !e.Tick? ==> Additions(s, [d, e]) == []
  {
    hide Next, Accepts, Refills;
    assert [d, e] == [d] + ([e] + []);
    OneMore(s, d, [e] + []);
    OneMore(Next(s, d), e, []);
  }

  lemma {:induction false} EveryRoundAccepts(s: State, now: int, k: nat)
    requires Drained(s, now) && now > 600
    ensures Accepted(s, Rounds(now, k)) == k
    decreases k
  {
    if k > 0 {
      var round := [Tick(now + 31), Join(0), Ask(0, now + 31)];
      OneRound(s, now);
      AcceptedAppend(s, round, Rounds(now + 31, k - 1));
      EveryRoundAccepts(Run(s, round), now + 31, k - 1);
    }
  }

  lemma {:induction false} RoundsDuring(from: int, now: int, k: nat, span: nat)
    requires from <= now && now + 31 * k <= from + span
    ensures var es := Rounds(now, k);
            forall i | 0 <= i < |es| :: During(es[i], from, from + span) && !es[i].Handshake?
    decreases k
  {
    if k > 0 {
      RoundsDuring(from, now + 31, k - 1, span);
      var round, es := [Tick(now + 31), Join(0), Ask(0, now + 31)], Rounds(now, k);
      assert es == round + Rounds(now + 31, k - 1);
      forall i | 0 <= i < |es| ensures During(es[i], from, from + span) && !es[i].Handshake? {
        if i >= 3 {
          assert es[i] == Rounds(now + 31, k - 1)[i - 3];
        }
      }
    }
  }

  /** The full bucket is used up, maintenance adds a token, and that is used as well. */
  function Burst(now: int): seq<Event> {
    [Join(0), Ask(0, now), Join(0), Ask(0, now), Join(0), Ask(0, now), Tick(now), Join(0), Ask(0, now)]
  }

  lemma BurstDrains(now: int)
    requires now > 600
    ensures var s := Start(true, 1);
            Accepted(s, Burst(now)) == 4 && Drained(Run(s, Burst(now)), now)
  {
    var s0, es := Start(true, 1), Burst(now);
    var again := [Join(0), Ask(0, now)];
    AskAgain(s0, now);
    AskAgain(Run(s0, again), now);
    AskAgain(Run(Run(s0, again), again), now);
    AcceptedAppend(s0, again, again);
    AcceptedAppend(s0, again + again, again);
    var s3 := Run(s0, again + again + again);
    var tick := [Tick(now)];
    assert tick[1..] == [];
    AcceptedAppend(s0, again + again + again, tick);
    var s4 := Run(s0, again + again + again + tick);
    AskAgain(s4, now);
    AcceptedAppend(s0, again + again + again + tick, again);
    assert es == again + again + again + tick + again;
  }

  /** A player just joined gets an invite through as long as there is a token. */
  lemma AskAgain(s: State, now: int)
    requires s.allowed && |s.slots| >= 1 && s.bucket.tokens > 0 && now > 600
    ensures var again := [Join(0), Ask(0, now)];
            && Accepted(s, again) == 1
            && Run(s, again).bucket == s.bucket.(tokens := s.bucket.tokens - 1, useCount := s.bucket.useCount + 1)
            && Run(s, again).allowed && |Run(s, again).slots| == |s.slots|
  {
    TwoEvents(s, Join(0), Ask(0, now));
  }

  /** The bound on one connection is reached for every span: some run within it accepts
      exactly that many invites, four and one for every 31 seconds. */
  lemma BurstReached(now: int, span: nat) returns (es: seq<Event>)
    requires now > 600
    ensures Connected(es) && forall i | 0 <= i < |es| :: During(es[i], now, now + span)
    ensures Accepted(Start(true, 1), es) == MAX_INVITE_TOKENS + 1 + span / (REFILL_SECONDS + 1) == 4 + span / 31
  {
    var k := span / 31;
    es := Burst(now) + Rounds(now, k);
    BurstDrains(now);
    AcceptedAppend(Start(true, 1), Burst(now), Rounds(now, k));
    EveryRoundAccepts(Run(Start(true, 1), Burst(now)), now, k);
    RoundsDuring(now, now, k, span);
  }

  /** Two tokens are added 31 seconds apart, far sooner than the five minutes of the
      documentation: as soon as there is room. */
  lemma TokensHalfAMinuteApart(now: int)
    requires now > 600
    ensures var s := Run(Start(true, 1), Burst(now));
            s.bucket.lastAddition == now && Additions(s, Rounds(now, 1)) == [now + 31]
  {
    BurstDrains(now);
    OneRound(Run(Start(true, 1), Burst(now)), now);
    assert Rounds(now + 31, 0) == [];
    assert Rounds(now, 1) == [Tick(now + 31), Join(0), Ask(0, now + 31)];
  }

  // ---------------------------------------------------------------- unknown players

  /** Somebody is in the slot: of the events about it, and of the new connections, the
      last is a join into a table that has the slot. */
  predicate Seated(maxPlayers: nat, es: seq<Event>, client: int) {
    if es == [] then false
    else
      match es[|es| - 1]
      case Join(c) =>
        if c == client then 0 <= client < Slots(maxPlayers, es) else Seated(maxPlayers, es[..|es| - 1], client)
      case Leave(c) => c != client && Seated(maxPlayers, es[..|es| - 1], client)
      case Handshake(_) => false
      case _ => Seated(maxPlayers, es[..|es| - 1], client)
  }

  /** The size of the table: that of the last new connection. */
  function Slots(maxPlayers: nat, es: seq<Event>): nat {
    if es == [] then maxPlayers
    else if es[|es| - 1].Handshake? then es[|es| - 1].maxPlayers
    else Slots(maxPlayers, es[..|es| - 1])
  }

  lemma {:induction false} KnownIsSeated(allowed: bool, maxPlayers: nat, es: seq<Event>, client: int)
    ensures var s := Run(Start(allowed, maxPlayers), es);
            && s.allowed == allowed && |s.slots| == Slots(maxPlayers, es)
            && (Known(s, client) <==> Seated(maxPlayers, es, client))
  {
    if es != [] {
      var front, last := es[..|es| - 1], es[|es| - 1];
      KnownIsSeated(allowed, maxPlayers, front, client);
      AcceptedAppend(Start(allowed, maxPlayers), front, [last]);
      assert es == front + [last] && [last][1..] == [];
    }
  }

  /** After any run an invite crashes the backend exactly when invites are allowed, a token
      is left, and nobody is in the slot the message names. */
  lemma InviteCrashesExactly(allowed: bool, maxPlayers: nat, es: seq<Event>, client: int, now: int)
    ensures var s := Run(Start(allowed, maxPlayers), es);
            ReplyTo(s, client, now).Crashed? <==>
              allowed && s.bucket.tokens > 0 && !Seated(maxPlayers, es, client)
  {
    KnownIsSeated(allowed, maxPlayers, es, client);
    RunConfigured(Start(allowed, maxPlayers), es);
  }

  // ---------------------------------------------------------------- one player

  /** The least time in which k invites can be accepted from a player who has
      `available` left, counted from the last accepted invite. */
  function LeastTime(available: nat, k: nat): nat
    decreases k
  {
    if k == 0 then 0
    else if available == 0 then 601 + LeastTime(2, k - 1)
    else 30 + LeastTime(available - 1, k - 1)
  }

  predicate SameTenancy(es: seq<Event>, client: int) {
    forall i | 0 <= i < |es| :: es[i] != Join(client) && es[i] != Leave(client) && !es[i].Handshake?
  }

  lemma NextTenant(s: State, e: Event, client: int)
    requires Sound(s) && Known(s, client) && e != Join(client) && e != Leave(client) && !e.Handshake?
    ensures Known(Next(s, e), client)
    ensures Accepts(s, e) && e.client == client ==>
              var p, q := s.slots[client].value, Next(s, e).slots[client].value;
              && q.lastInvite == e.now
              && q.available == (if p.available == 0 then 2 else p.available - 1)
              && e.now - p.lastInvite >= (if p.available == 0 then 601 else 30)
    ensures !(Accepts(s, e) && e.client == client) ==> Next(s, e).slots[client] == s.slots[client]
  {
  }

  lemma {:induction false} TimesOfTenant(s: State, es: seq<Event>, client: int, k: nat)
    requires Sound(s) && Known(s, client) && SameTenancy(es, client)
    requires k < |AcceptedTimes(s, es, client)|
    ensures var p := s.slots[client].value;
            AcceptedTimes(s, es, client)[k] - p.lastInvite >= LeastTime(p.available, k + 1)
    decreases |es|
  {
    if es != [] {
      var s' := Next(s, es[0]);
      NextKeeps(s, es[0]);
      NextTenant(s, es[0], client);
      assert SameTenancy(es[1..], client);
      if Accepts(s, es[0]) && es[0].client == client {
        if k > 0 {
          TimesOfTenant(s', es[1..], client, k - 1);
        }
      } else {
        TimesOfTenant(s', es[1..], client, k);
      }
    }
  }

  /** Each cycle of three invites costs 30 + 30 + 601 seconds. */
  lemma {:induction false} LeastTimeCycles(available: nat, k: nat)
    requires available <= 2
    ensures LeastTime(available, k) >= 661 * (k / 3) + 30 * (k % 3)
    decreases k
  {
    if k >= 3 {
      LeastTimeCycles(available, k - 3);
      var a1 := if available == 0 then 2 else available - 1;
      var a2 := if a1 == 0 then 2 else a1 - 1;
      assert LeastTime(a1, k - 1) == (if a1 == 0 then 601 else 30) + LeastTime(a2, k - 2);
      assert LeastTime(a2, k - 2) == (if a2 == 0 then 601 else 30) + LeastTime(available, k - 3);
    } else if k == 2 {
      assert LeastTime(if available == 0 then 2 else available - 1, 1) >= 30;
    }
  }

  lemma {:induction false} TimesFromFirst(s: State, es: seq<Event>, client: int, k: nat)
    requires Sound(s) && Known(s, client) && SameTenancy(es, client)
    requires 0 < k < |AcceptedTimes(s, es, client)|
    ensures var times := AcceptedTimes(s, es, client);
            times[k] - times[0] >= 661 * (k / 3) + 30 * (k % 3)
    decreases |es|
  {
    if es != [] {
      var s' := Next(s, es[0]);
      NextKeeps(s, es[0]);
      NextTenant(s, es[0], client);
      assert SameTenancy(es[1..], client);
      if Accepts(s, es[0]) && es[0].client == client {
        TimesOfTenant(s', es[1..], client, k - 1);
        LeastTimeCycles(s'.slots[client].value.available, k);
      } else {
        TimesFromFirst(s', es[1..], client, k);
      }
    }
  }

  /** However a run began, while one player keeps a slot any n of the player's accepted
      invites, from the i-th on, span at least 661 seconds for every three after the
      first, and 30 for each one over. Nothing is assumed of the clock. */
  lemma PlayerLimit(allowed: bool, maxPlayers: nat, before: seq<Event>, es: seq<Event>, client: int, i: nat, n: nat)
    requires Known(Run(Start(allowed, maxPlayers), before), client) && SameTenancy(es, client)
    requires n > 0 && i + n <= |AcceptedTimes(Run(Start(allowed, maxPlayers), before), es, client)|
    ensures var times := AcceptedTimes(Run(Start(allowed, maxPlayers), before), es, client);
            times[i + n - 1] - times[i] >= 661 * ((n - 1) / 3) + 30 * ((n - 1) % 3)
  {
    RunConfigured(Start(allowed, maxPlayers), before);
    TimesBetween(Run(Start(allowed, maxPlayers), before), es, client, i, n);
  }

  lemma {:induction false} TimesBetween(s: State, es: seq<Event>, client: int, i: nat, n: nat)
    requires Sound(s) && Known(s, client) && SameTenancy(es, client)
    requires n > 0 && i + n <= |AcceptedTimes(s, es, client)|
    ensures var times := AcceptedTimes(s, es, client);
            times[i + n - 1] - times[i] >= 661 * ((n - 1) / 3) + 30 * ((n - 1) % 3)
    decreases |es|
  {
    if i == 0 {
      if n > 1 {
        TimesFromFirst(s, es, client, n - 1);
      }
    } else {
      var s' := Next(s, es[0]);
      NextKeeps(s, es[0]);
      NextTenant(s, es[0], client);
      assert SameTenancy(es[1..], client);
      TimesBetween(s', es[1..], client, if Accepts(s, es[0]) && es[0].client == client then i - 1 else i, n);
    }
  }

  // ---------------------------------------------------------------- what is answered

  /** What an invite is answered, and when it is sent: invites are allowed, a token is left,
      and since the last one sent there have passed more than ten minutes for a player with
      none available, half a minute for any other. */
  lemma AcceptsExactly(s: State, client: int, now: int)
    requires Known(s, client)
    ensures var p := s.slots[client].value;
            && (ReplyTo(s, client, now) == NotAllowed <==> !s.allowed)
            && (ReplyTo(s, client, now) == NoTokens <==> s.allowed && s.bucket.tokens == 0)
            && (Accepts(s, Ask(client, now)) <==>
                  && s.allowed && s.bucket.tokens != 0
                  && now - p.lastInvite >= (if p.available == 0 then 601 else 30))
  {
  }

  /** Who is told to wait some seconds gets an invite through after so many, one more if out
      of invites, and not before. */
  lemma WaitExactly(s: State, client: int, now: int, later: int)
    requires Known(s, client)
    ensures match ReplyTo(s, client, now)
            case TooSoon(wait) => wait > 0 && (Accepts(s, Ask(client, later)) <==> later >= now + wait)
            case OutOfInvites(wait) => wait >= 0 && (Accepts(s, Ask(client, later)) <==> later > now + wait)
            case _ => true
  {
  }

  /** A player who joins has no invites available and none behind; each invite sent takes
      one of three, is counted, and starts the wait anew. */
  lemma InvitesCounted(s: State, client: int, now: int)
    requires Known(s, client) && Accepts(s, Ask(client, now))
    ensures var p := s.slots[client].value;
            var s' := Next(s, Ask(client, now));
            && Known(s', client)
            && s'.slots[client].value.invites == p.invites + 1 && s'.slots[client].value.lastInvite == now
            && s'.slots[client].value.available == (if p.available == 0 then 2 else p.available - 1)
            && s'.bucket == s.bucket.(tokens := s.bucket.tokens - 1, useCount := s.bucket.useCount + 1)
            && forall i | 0 <= i < |s.slots| && i != client :: s'.slots[i] == s.slots[i]
  {
  }

  // ---------------------------------------------------------------- the limit is reached

  lemma {:induction false} TimesAppend(s: State, a: seq<Event>, b: seq<Event>, client: int)
    ensures AcceptedTimes(s, a + b, client) == AcceptedTimes(s, a, client) + AcceptedTimes(Run(s, a), b, client)
    decreases |a|
  {
    hide Next, Accepts;
    if a == [] {
      assert a + b == b;
    } else {
      assert (a + b)[1..] == a[1..] + b;
      TimesAppend(Next(s, a[0]), a[1..], b, client);
    }
  }

  /** A full bucket, and a player out of invites for long enough. */
  predicate Rested(s: State, now: int) {
    && s.allowed && |s.slots| >= 1 && s.slots[0].Some?
    && s.slots[0].value.available == 0 && now - s.slots[0].value.lastInvite > 600
    && s.bucket.tokens == MAX_INVITE_TOKENS == s.bucket.max
    && s.bucket.freq == REFILL_SECONDS && now - s.bucket.lastAddition > 30
  }

  function Asks(now: int, k: nat): seq<Event>
    decreases k
  {
    if k == 0 then [] else [Ask(0, now)] + Asks(now + 30, k - 1)
  }

  function Refill(now: int): seq<Event> {
    [Tick(now + 160), Tick(now + 260), Tick(now + 360)]
  }

  /** Three invites as soon as they can be, time for the bucket to fill, and so on; then k
      more. The next three come 661 seconds after the last. */
  function Steadily(now: int, cycles: nat, k: nat): seq<Event>
    decreases cycles
  {
    if cycles == 0 then Asks(now, k) else Asks(now, 3) + Refill(now) + Steadily(now + 661, cycles - 1, k)
  }

  function Times(now: int, k: nat): seq<int>
    decreases k
  {
    if k == 0 then [] else [now] + Times(now + 30, k - 1)
  }

  function SteadyTimes(now: int, cycles: nat, k: nat): seq<int>
    decreases cycles
  {
    if cycles == 0 then Times(now, k) else Times(now, 3) + SteadyTimes(now + 661, cycles - 1, k)
  }

  lemma OneAsk(s: State, now: int)
    requires |s.slots| >= 1 && s.slots[0].Some? && Accepts(s, Ask(0, now))
    ensures AcceptedTimes(s, [Ask(0, now)], 0) == [now] && Run(s, [Ask(0, now)]) == Next(s, Ask(0, now))
  {
    assert [Ask(0, now)][1..] == [];
    hide Next, Accepts;
  }

  /** A rested player gets up to three invites through, half a minute apart. */
  lemma ThreeAsks(s: State, now: int, k: nat)
    requires Rested(s, now) && k <= 3
    ensures AcceptedTimes(s, Asks(now, k), 0) == Times(now, k)
    ensures k == 3 ==>
              var s' := Run(s, Asks(now, 3));
              && s'.allowed && |s'.slots| == |s.slots|
              && s'.slots[0] == Some(Tenant(0, now + 60, s.slots[0].value.invites + 3))
              && s'.bucket == s.bucket.(tokens := 0, useCount := s.bucket.useCount + 3)
  {
    var a, b, c := [Ask(0, now)], [Ask(0, now + 30)], [Ask(0, now + 60)];
    AsksOf(now);
    var s1 := Next(s, Ask(0, now));
    var s2 := Next(s1, Ask(0, now + 30));
    var s3 := Next(s2, Ask(0, now + 60));
    OneAsk(s, now);
    OneAsk(s1, now + 30);
    OneAsk(s2, now + 60);
    TimesAppend(s, a, b, 0);
    TimesAppend(s, a + b, c, 0);
    AcceptedAppend(s, a, b);
    AcceptedAppend(s, a + b, c);
    hide Next, Accepts, AcceptedTimes, Run;
    assert k == 0 || k == 1 || k == 2 || k == 3;
    if k == 0 {
      NoTimes(s);
    }
  }

  lemma NoTimes(s: State)
    ensures AcceptedTimes(s, [], 0) == []
  {
  }

  lemma AsksOf(now: int)
    ensures Asks(now, 0) == [] && Times(now, 0) == []
    ensures Asks(now, 1) == [Ask(0, now)] && Times(now, 1) == [now]
    ensures Asks(now, 2) == [Ask(0, now)] + [Ask(0, now + 30)] && Times(now, 2) == [now] + [now + 30]
    ensures Asks(now, 3) == [Ask(0, now)] + [Ask(0, now + 30)] + [Ask(0, now + 60)]
    ensures Times(now, 3) == [now] + [now + 30] + [now + 60]
  {
    assert Asks(now + 60, 1) == [Ask(0, now + 60)] + Asks(now + 90, 0);
    assert Asks(now + 30, 2) == [Ask(0, now + 30)] + Asks(now + 60, 1);
    assert Asks(now + 30, 1) == [Ask(0, now + 30)] + Asks(now + 60, 0);
    assert Times(now + 60, 1) == [now + 60] + Times(now + 90, 0);
    assert Times(now + 30, 2) == [now + 30] + Times(now + 60, 1);
    assert Times(now + 30, 1) == [now + 30] + Times(now + 60, 0);
  }

  lemma Refills3(s: State, now: int)
    requires s.bucket.tokens == 0 && s.bucket.max == 3 && s.bucket.freq == 30 && now - s.bucket.lastAddition > 30
    ensures var s' := Run(s, Refill(now));
            && s' == s.(bucket := s.bucket.(tokens := 3, lastAddition := now + 360))
            && AcceptedTimes(s, Refill(now), 0) == []
  {
    var es := Refill(now);
    assert es[1..] == [Tick(now + 260), Tick(now + 360)];
    assert es[1..][1..] == [Tick(now + 360)] && es[1..][1..][1..] == [];
    var s1 := Next(s, es[0]);
    var s2 := Next(s1, es[1]);
    var s3 := Next(s2, es[2]);
    assert Run(s2, [Tick(now + 360)]) == Run(s3, []) == s3;
    assert AcceptedTimes(s2, [Tick(now + 360)], 0) == [] + AcceptedTimes(s3, [], 0);
    assert AcceptedTimes(s1, es[1..], 0) == [] + AcceptedTimes(s2, [Tick(now + 360)], 0);
  }

  lemma OneCycle(s: State, now: int)
    requires Rested(s, now)
    ensures var cycle := Asks(now, 3) + Refill(now);
            Rested(Run(s, cycle), now + 661) && AcceptedTimes(s, cycle, 0) == Times(now, 3)
  {
    ThreeAsks(s, now, 3);
    var s' := Run(s, Asks(now, 3));
    Refills3(s', now);
    AcceptedAppend(s, Asks(now, 3), Refill(now));
    TimesAppend(s, Asks(now, 3), Refill(now), 0);
    hide Run, AcceptedTimes, Asks, Refill, Times;
    assert Times(now, 3) + [] == Times(now, 3);
  }

  lemma {:induction false} SteadilyAccepted(s: State, now: int, cycles: nat, k: nat)
    requires Rested(s, now) && k <= 3
    ensures AcceptedTimes(s, Steadily(now, cycles, k), 0) == SteadyTimes(now, cycles, k)
    decreases cycles
  {
    if cycles == 0 {
      ThreeAsks(s, now, k);
    } else {
      var cycle := Asks(now, 3) + Refill(now);
      OneCycle(s, now);
      TimesAppend(s, cycle, Steadily(now + 661, cycles - 1, k), 0);
      SteadilyAccepted(Run(s, cycle), now + 661, cycles - 1, k);
      hide Run, AcceptedTimes, Asks, Refill, Times, Rested;
    }
  }

  lemma {:induction false} SteadySpan(now: int, cycles: nat, k: nat)
    requires 0 < k <= 3
    ensures var times := SteadyTimes(now, cycles, k);
            |times| == 3 * cycles + k && times[0] == now && times[|times| - 1] == now + 661 * cycles + 30 * (k - 1)
    decreases cycles
  {
    AsksOf(now);
    hide Times;
    if cycles > 0 {
      SteadySpan(now + 661, cycles - 1, k);
    }
  }

  lemma {:induction false} SteadilyOneTenancy(now: int, cycles: nat, k: nat)
    requires k <= 3
    ensures SameTenancy(Steadily(now, cycles, k), 0)
    decreases cycles
  {
    AsksOf(now);
    hide Asks;
    if cycles > 0 {
      SteadilyOneTenancy(now + 661, cycles - 1, k);
    }
  }

  lemma Joined(now: int)
    requires now > 600
    ensures var s := Run(Start(true, 1), [Join(0)]);
            Rested(s, now) && Known(s, 0)
  {
    assert [Join(0)][1..] == [];
    assert Run(Start(true, 1), [Join(0)]) == Next(Start(true, 1), Join(0));
  }

  /** The limit on one player is reached: for every n, a player who has just joined can get
      n invites through in exactly the least time. */
  lemma PlayerLimitReached(now: int, n: nat) returns (es: seq<Event>)
    requires now > 600 && n > 0
    ensures SameTenancy(es, 0)
    ensures var times := AcceptedTimes(Run(Start(true, 1), [Join(0)]), es, 0);
            |times| == n && times[n - 1] - times[0] == 661 * ((n - 1) / 3) + 30 * ((n - 1) % 3)
  {
    var cycles, k := (n - 1) / 3, (n - 1) % 3 + 1;
    es := Steadily(now, cycles, k);
    Joined(now);
    SteadilyAccepted(Run(Start(true, 1), [Join(0)]), now, cycles, k);
    SteadySpan(now, cycles, k);
    SteadilyOneTenancy(now, cycles, k);
  }
}
