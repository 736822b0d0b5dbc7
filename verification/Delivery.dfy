/**
 From the rules to the game server: the records that acting on matched rules queues, as
 they are written to the session, and as they are read at its other end.
 */
module Delivery {
  import opened Wrappers
  import opened Octets
  import opened Message
  import opened Crypto
  import opened Session
  import opened LockStep
  import opened Strings
  import Outgoing
  import Rules
  import RuleActions

  // ---------------------------------------------------------------- one record

  /** A record that fits its bytes: a client number and a level of one byte, and text of
      one-byte characters. */
  predicate Fits(o: RuleActions.Output) {
    Sendable(o.text) && (o.SayClient? ==> 0 <= o.client < 256 && 0 <= o.level < 256)
  }

  function Wire(o: RuleActions.Output): LockStep.Plain
    requires Fits(o)
  {
    match o
    case SayClient(client, level, text) => Outgoing.SayClient(client as Byte, level as Byte, Narrow(text))
    case Command(text) => Outgoing.Command(Narrow(text))
  }

  /** What the game server makes of a record it reads. */
  function Shown(r: Outgoing.Record): Option<RuleActions.Output> {
    match r
    case SayClient(client, level, text) => Some(RuleActions.SayClient(client as int, level as int, Latin(text)))
    case Command(text) => Some(RuleActions.Command(Latin(text)))
    case _ => None
  }

  predicate AllFit(os: seq<RuleActions.Output>) {
    forall i | 0 <= i < |os| :: Fits(os[i])
  }

  function WireAll(os: seq<RuleActions.Output>): seq<LockStep.Plain>
    requires AllFit(os)
  {
    seq(|os|, i requires 0 <= i < |os| => Wire(os[i]))
  }

  // ---------------------------------------------------------------- what the rules emit

  predicate SendableProfile(p: Rules.Profile) { 0 <= p.clientId < 256 }

  predicate SendableRules(rs: seq<Rules.Rule>) {
    forall i | 0 <= i < |rs| :: AllSendable(rs[i].message)
  }

  predicate AllSendable(parts: seq<string>) {
    forall i | 0 <= i < |parts| :: Sendable(parts[i])
  }

  lemma {:induction false} JoinSendable(parts: seq<string>, sep: char)
    requires AllSendable(parts) && 0 < sep as int < 256
    ensures Sendable(Join(parts, sep))
  {
    if |parts| > 1 {
      JoinSendable(parts[1..], sep);
    }
  }

  lemma DecimalSendable(n: int)
    ensures Sendable(RuleActions.Decimal(n))
  {
  }

  lemma CommandsFit(p: Rules.Profile, seconds: int)
    ensures Fits(RuleActions.MuteCommand(p, seconds))
  {
    DecimalSendable(p.clientId);
    DecimalSendable(seconds);
    hide RuleActions.Decimal;
  }

  lemma SayFits(p: Rules.Profile, level: int, text: string)
    requires SendableProfile(p) && Sendable(text)
    ensures AllFit(RuleActions.Say(p, level, text))
  {
  }

  lemma KickFits(p: Rules.Profile, msg: string)
    requires SendableProfile(p) && Sendable(msg)
    ensures AllFit(RuleActions.Kick(p, msg))
  {
    DecimalSendable(p.clientId);
    hide RuleActions.Decimal;
  }

  lemma ActionFits(p: Rules.Profile, r: Rules.Rule, muted: bool)
    requires SendableProfile(p) && AllSendable(r.message)
    ensures AllFit(RuleActions.Action(p, r, muted))
  {
    JoinSendable(r.message, ' ');
    SayFits(p, RuleActions.PRINT_CHAT, Join(r.message, ' '));
    SayFits(p, RuleActions.PRINT_CHAT, "You're stifled");
    CommandsFit(p, -1);
    CommandsFit(p, r.stifleLength);
    hide RuleActions.Say, RuleActions.MuteCommand, Fits, Join;
  }

  lemma {:induction false} TraceFits(p: Rules.Profile, rs: seq<Rules.Rule>, muted: bool)
    requires SendableProfile(p) && SendableRules(rs)
    ensures AllFit(RuleActions.Trace(p, rs, muted))
    decreases |rs|
  {
    if rs != [] {
      if rs[0].kind == Rules.Ban {
        JoinSendable(rs[0].message, '\n');
        KickFits(p, Join(rs[0].message, '\n'));
      } else {
        ActionFits(p, rs[0], muted);
        TraceFits(p, rs[1..], muted || rs[0].kind == Rules.Mute);
      }
    }
  }

  // ---------------------------------------------------------------- through the session

  function Queues(rs: seq<LockStep.Plain>): seq<Step> {
    if rs == [] then [Send] else [Queue(rs[0])] + Queues(rs[1..])
  }

  lemma RunFront(c: Aes, n: Net, step: Step, steps: seq<Step>)
    requires Keyed(n.server)
    ensures Keyed(Next(c, n, step).server)
    ensures Run(c, n, [step] + steps) == Run(c, Next(c, n, step), steps)
    ensures Run(c, n, [step]) == Next(c, n, step)
  {
    assert ([step] + steps)[1..] == steps && [step][1..] == [];
    hide Next;
  }

  lemma SendLogs(c: Aes, n: Net)
    requires Keyed(n.server)
    ensures Next(c, n, Send).log == n.log && Next(c, n, Send).pending == []
  {
  }

  lemma QueueLogs(c: Aes, n: Net, r: LockStep.Plain)
    requires Keyed(n.server)
    ensures Next(c, n, Queue(r)).log == n.log + [r]
  {
  }

  lemma InStepKeyed(c: Aes, n: Net)
    requires InStep(c, n)
    ensures Keyed(n.server)
  {
  }

  /** Queueing records and flushing puts them behind all that was queued before. */
  lemma {:induction false} QueuedAndSent(c: Aes, n: Net, rs: seq<LockStep.Plain>)
    requires InStep(c, n)
    ensures Keyed(n.server)
    ensures var n' := Run(c, n, Queues(rs));
            InStep(c, n') && n'.log == n.log + rs && n'.pending == []
    decreases |rs|
  {
    hide InStep, Next, Keyed, Run;
    InStepKeyed(c, n);
    RunKeepsStep(c, n, Queues(rs));
    if rs == [] {
      RunFront(c, n, Send, []);
      SendLogs(c, n);
      assert n.log + rs == n.log;
    } else {
      StepKeepsStep(c, n, Queue(rs[0]));
      QueueLogs(c, n, rs[0]);
      RunFront(c, n, Queue(rs[0]), Queues(rs[1..]));
      QueuedAndSent(c, Next(c, n, Queue(rs[0])), rs[1..]);
      assert n.log + [rs[0]] + rs[1..] == n.log + rs;
    }
  }

  /** Acting on rules, of which there are some, reaches the game server: in a session in step, the records of the
      trace are queued and flushed, and once everything in flight is delivered the server
      has read, behind all that was queued before, exactly the trace, in its order. */
  lemma ActionsArrive(c: Aes, n: Net, p: Rules.Profile, rs: seq<Rules.Rule>, muted: bool)
    requires InStep(c, n) && SendableProfile(p) && SendableRules(rs) && rs != []
    ensures Keyed(n.server) && AllFit(RuleActions.Trace(p, rs, muted))
    ensures var trace := RuleActions.Trace(p, rs, muted);
            var n' := Run(c, n, Queues(WireAll(trace)));
            && InStep(c, n')
            && var read := Flatten(Drain(c, n').received);
            && |read| == |n.log| + |trace| && read[..|n.log|] == n.log
            && forall i | 0 <= i < |trace| :: Shown(read[|n.log| + i]) == Some(trace[i])
  {
    hide RuleActions.Trace, InStep, Keyed, Run, Drain, Flatten, WireAll, AllFit;
    TraceFits(p, rs, muted);
    var trace := RuleActions.Trace(p, rs, muted);
    RecordsArrive(c, n, WireAll(trace));
    var read := Flatten(Drain(c, Run(c, n, Queues(WireAll(trace)))).received);
    ReadBehind(n.log, trace, read);
  }

  lemma RecordsArrive(c: Aes, n: Net, rs: seq<LockStep.Plain>)
    requires InStep(c, n)
    ensures Keyed(n.server)
    ensures var n' := Run(c, n, Queues(rs));
            InStep(c, n') && Flatten(Drain(c, n').received) == n.log + rs
  {
    hide InStep, Keyed, Run, Drain, Flatten;
    QueuedAndSent(c, n, rs);
    var n' := Run(c, n, Queues(rs));
    DrainedInStep(c, n');
    var read := Flatten(Drain(c, n').received);
    assert read + [] == read;
  }

  lemma ReadBehind(log: seq<Outgoing.Record>, trace: seq<RuleActions.Output>, read: seq<Outgoing.Record>)
    requires AllFit(trace) && read == log + WireAll(trace)
    ensures |read| == |log| + |trace| && read[..|log|] == log
    ensures forall i | 0 <= i < |trace| :: Shown(read[|log| + i]) == Some(trace[i])
  {
    forall i | 0 <= i < |trace| ensures Shown(read[|log| + i]) == Some(trace[i]) {
      assert read[|log| + i] == Wire(trace[i]);
    }
  }
}
