/**
 What a player is sent, record by record, when matching rules are acted on.
 */
module ActionLaws {
  import opened Wrappers
  import opened Strings
  import opened Sequences
  import opened Rules
  import opened RuleSets
  import opened RuleActions

  // ---------------------------------------------------------------- the records

  /** A line of chat to the player, ended by a newline if it is not yet; none for no text. */
  function Told(p: Profile, text: string): seq<Output> {
    if text == "" then []
    else [SayClient(p.clientId, 3, if text[|text| - 1] == '\n' then text else text + "\n")]
  }

  function ForGood(p: Profile): string {
    "sv !mute CL " + Decimal(p.clientId) + " PERM\n"
  }

  function ForSeconds(p: Profile, seconds: int): string {
    if seconds > 0 then "sv !mute CL " + Decimal(p.clientId) + " " + Decimal(seconds) + "\n" else ForGood(p)
  }

  function Kicked(p: Profile): string {
    "kick " + Decimal(p.clientId) + "\n"
  }

  lemma SayIsTold(p: Profile, text: string)
    ensures Say(p, PRINT_CHAT, text) == Told(p, text)
    ensures Kick(p, text) == Told(p, text) + [Command(Kicked(p))]
  {
    hide Decimal;
  }

  lemma MuteIs(p: Profile, seconds: int)
    ensures MuteCommand(p, seconds) == Command(ForSeconds(p, seconds)) && ForSeconds(p, -1) == ForGood(p)
  {
    var head := "sv !mute CL " + Decimal(p.clientId);
    var tail := Decimal(seconds);
    hide Decimal;
    Concat(head, " ", tail);
    Concat(head, " " + tail, "\n");
  }

  /** Each kind of rule by itself: a ban says why, a line for each of its messages, and
      kicks; a mute says why and mutes for good; a stifle says so and mutes for its length,
      if the player is not muted; a message is said. */
  lemma OneRuleEmits(p: Profile, r: Rule, muted: bool)
    ensures Trace(p, [r], muted) ==
            match r.kind
            case Ban => Told(p, Join(r.message, '\n')) + [Command(Kicked(p))]
            case Mute => Told(p, Join(r.message, ' ')) + [Command(ForGood(p))]
            case Stifle =>
              if muted then [] else Told(p, "You're stifled") + [Command(ForSeconds(p, r.stifleLength))]
            case Message => Told(p, Join(r.message, ' '))
            case Unlisted(_) => []
  {
    assert [r][1..] == [];
    assert Trace(p, [], muted || r.kind == Mute) == [];
    assert Action(p, r, muted) + [] == Action(p, r, muted);
    SayIsTold(p, Join(r.message, '\n'));
    SayIsTold(p, Join(r.message, ' '));
    SayIsTold(p, "You're stifled");
    MuteIs(p, -1);
    MuteIs(p, r.stifleLength);
    hide Join, Decimal, Say, Kick, MuteCommand, Told, ForGood, ForSeconds;
  }

  /** A level is kept if it is one of the four, and taken for the lowest otherwise. */
  lemma SayLevels(p: Profile, level: int, text: string)
    requires text != ""
    ensures |Say(p, level, text)| == 1 && Say(p, level, text)[0].SayClient?
    ensures Say(p, level, text)[0].level == if level in {0, 1, 2, 3} then level else 0
  {
  }

  // ---------------------------------------------------------------- commands

  /** The console commands of a trace, in order. */
  function Commands(os: seq<Output>): seq<string> {
    if os == [] then [] else (if os[0].Command? then [os[0].text] else []) + Commands(os[1..])
  }

  lemma {:induction false} CommandsAppend(a: seq<Output>, b: seq<Output>)
    ensures Commands(a + b) == Commands(a) + Commands(b)
  {
    if a == [] {
      assert a + b == b;
    } else {
      assert (a + b)[1..] == a[1..] + b;
      CommandsAppend(a[1..], b);
    }
  }

  /** What is said in a trace, in order. */
  function Spoken(os: seq<Output>): seq<Output> {
    if os == [] then [] else (if os[0].SayClient? then [os[0]] else []) + Spoken(os[1..])
  }

  lemma {:induction false} SpokenAppend(a: seq<Output>, b: seq<Output>)
    ensures Spoken(a + b) == Spoken(a) + Spoken(b)
  {
    if a == [] {
      assert a + b == b;
    } else {
      assert (a + b)[1..] == a[1..] + b;
      SpokenAppend(a[1..], b);
    }
  }

  lemma ToldOnly(p: Profile, text: string, command: string)
    ensures Commands(Told(p, text)) == [] && Spoken(Told(p, text)) == Told(p, text)
    ensures Commands(Told(p, text) + [Command(command)]) == [command]
    ensures Spoken(Told(p, text) + [Command(command)]) == Told(p, text)
  {
    var told := Told(p, text);
    assert told != [] ==> told[1..] == [];
    assert [Command(command)][1..] == [];
    CommandsAppend(told, [Command(command)]);
    SpokenAppend(told, [Command(command)]);
    assert told + [] == told;
  }

  function OfKind(kind: RuleType, rs: seq<Rule>): seq<Rule> {
    Keep((r: Rule) => r.kind == kind, rs)
  }

  predicate AllOfKind(kind: RuleType, rs: seq<Rule>) {
    forall i | 0 <= i < |rs| :: rs[i].kind == kind
  }

  lemma OfKindIs(kind: RuleType, rs: seq<Rule>)
    ensures AllOfKind(kind, OfKind(kind, rs))
  {
    KeepSatisfies((r: Rule) => r.kind == kind, rs);
  }

  /** What rules of one kind, other than bans, say and command a player who is not muted. */
  function Commanded(p: Profile, r: Rule): seq<string> {
    match r.kind
    case Mute => [ForGood(p)]
    case Stifle => [ForSeconds(p, r.stifleLength)]
    case _ => []
  }

  function Lines(p: Profile, r: Rule): seq<Output> {
    match r.kind
    case Mute => Told(p, Join(r.message, ' '))
    case Message => Told(p, Join(r.message, ' '))
    case Stifle => Told(p, "You're stifled")
    case _ => []
  }

  function AllCommanded(p: Profile, rs: seq<Rule>): seq<string> {
    if rs == [] then [] else Commanded(p, rs[0]) + AllCommanded(p, rs[1..])
  }

  function AllLines(p: Profile, rs: seq<Rule>): seq<Output> {
    if rs == [] then [] else Lines(p, rs[0]) + AllLines(p, rs[1..])
  }

  lemma ActionEmits(p: Profile, r: Rule)
    requires r.kind != Ban
    ensures Commands(Action(p, r, false)) == Commanded(p, r) && Spoken(Action(p, r, false)) == Lines(p, r)
  {
    OneRuleEmits(p, r, false);
    assert [r][1..] == [] && Trace(p, [], r.kind == Mute) == [];
    assert Trace(p, [r], false) == Action(p, r, false) + [] == Action(p, r, false);
    ToldOnly(p, Join(r.message, ' '), ForGood(p));
    ToldOnly(p, "You're stifled", ForSeconds(p, r.stifleLength));
    hide Told, ForGood, ForSeconds, Join, Trace, Action;
  }

  lemma {:induction false} ActionsEmit(p: Profile, rs: seq<Rule>)
    requires NoBan(rs)
    ensures Commands(Actions(p, rs)) == AllCommanded(p, rs) && Spoken(Actions(p, rs)) == AllLines(p, rs)
    decreases |rs|
  {
    hide Action, Commanded, Lines;
    if rs != [] {
      ActionEmits(p, rs[0]);
      assert forall i | 0 <= i < |rs| - 1 :: rs[1..][i] == rs[i + 1];
      ActionsEmit(p, rs[1..]);
      CommandsAppend(Action(p, rs[0], false), Actions(p, rs[1..]));
      SpokenAppend(Action(p, rs[0], false), Actions(p, rs[1..]));
    }
  }

  lemma {:induction false} CommandedOfKind(p: Profile, kind: RuleType, rs: seq<Rule>)
    requires AllOfKind(kind, rs)
    ensures kind == Mute ==> AllCommanded(p, rs) == seq(|rs|, _ => ForGood(p))
    ensures kind == Stifle ==>
              AllCommanded(p, rs) == seq(|rs|, i requires 0 <= i < |rs| => ForSeconds(p, rs[i].stifleLength))
    ensures kind == Message ==> AllCommanded(p, rs) == []
    decreases |rs|
  {
    hide ForGood, ForSeconds;
    if rs != [] {
      assert forall i | 0 <= i < |rs| - 1 :: rs[1..][i] == rs[i + 1];
      CommandedOfKind(p, kind, rs[1..]);
    }
  }

  // ---------------------------------------------------------------- whole traces

  /** Everything that sorted rules without a ban send: the mutes' actions, then the stifles',
      unless the player is muted, then the messages'. */
  lemma SortedParts(p: Profile, rs: seq<Rule>, muted: bool)
    requires OfKind(Ban, rs) == []
    ensures var mutes, stifles, msgs := OfKind(Mute, rs), OfKind(Stifle, rs), OfKind(Message, rs);
            Trace(p, Sorted(rs), muted)
            == Actions(p, mutes) + (if muted || mutes != [] then [] else Actions(p, stifles)) + Actions(p, msgs)
  {
    var mutes, stifles, msgs := OfKind(Mute, rs), OfKind(Stifle, rs), OfKind(Message, rs);
    OfKindIs(Mute, rs);
    OfKindIs(Stifle, rs);
    OfKindIs(Message, rs);
    SortedByKind(rs);
    hide Sorted, Keep, Trace, Actions;
    assert Sorted(rs) == [] + mutes + stifles + msgs == mutes + (stifles + msgs);
    BanlessTrace(p, mutes, stifles, msgs, muted);
  }

  /** Mutes outrank stifles: on a player already muted, or with some mute rule, the only
      commands are permanent mutes, one for each mute rule. */
  lemma MutedCommands(p: Profile, rs: seq<Rule>, muted: bool)
    requires OfKind(Ban, rs) == [] && (muted || OfKind(Mute, rs) != [])
    ensures Commands(Trace(p, Sorted(rs), muted))
            == seq(|OfKind(Mute, rs)|, _ => "sv !mute CL " + Decimal(p.clientId) + " PERM\n")
  {
    var mutes, msgs := OfKind(Mute, rs), OfKind(Message, rs);
    SortedParts(p, rs, muted);
    OfKindIs(Mute, rs);
    OfKindIs(Message, rs);
    ActionsEmit(p, mutes);
    ActionsEmit(p, msgs);
    CommandedOfKind(p, Mute, mutes);
    CommandedOfKind(p, Message, msgs);
    assert seq(|mutes|, _ => ForGood(p)) == seq(|mutes|, _ => "sv !mute CL " + Decimal(p.clientId) + " PERM\n");
    hide OfKind, Trace, Sorted, Actions, Commands, Decimal, ForGood;
    assert Trace(p, Sorted(rs), muted) == Actions(p, mutes) + [] + Actions(p, msgs);
    assert Actions(p, mutes) + [] == Actions(p, mutes);
    CommandsAppend(Actions(p, mutes), Actions(p, msgs));
  }

  /** Without either, each stifle rule in its order mutes for its own length, for good if
      that is not positive, and there is no other command. */
  lemma StifledCommands(p: Profile, rs: seq<Rule>)
    requires OfKind(Ban, rs) == [] && OfKind(Mute, rs) == []
    ensures var stifles := OfKind(Stifle, rs);
            Commands(Trace(p, Sorted(rs), false))
            == seq(|stifles|, i requires 0 <= i < |stifles| =>
                 if stifles[i].stifleLength > 0
                 then "sv !mute CL " + Decimal(p.clientId) + " " + Decimal(stifles[i].stifleLength) + "\n"
                 else "sv !mute CL " + Decimal(p.clientId) + " PERM\n")
  {
    var stifles, msgs := OfKind(Stifle, rs), OfKind(Message, rs);
    hide OfKind, Sorted, Decimal, Actions, Commands;
    OfKindIs(Stifle, rs);
    OfKindIs(Message, rs);
    SortedParts(p, rs, false);
    StifleCommands(p, stifles, msgs);
    NoActions(p);
    hide Trace;
    assert [] + Actions(p, stifles) == Actions(p, stifles);
  }

  lemma NoActions(p: Profile)
    ensures Actions(p, []) == []
  {
  }

  function StifleLines(p: Profile, stifles: seq<Rule>): seq<string> {
    seq(|stifles|, i requires 0 <= i < |stifles| =>
      if stifles[i].stifleLength > 0
      then "sv !mute CL " + Decimal(p.clientId) + " " + Decimal(stifles[i].stifleLength) + "\n"
      else "sv !mute CL " + Decimal(p.clientId) + " PERM\n")
  }

  lemma LinesAre(p: Profile, stifles: seq<Rule>)
    requires AllOfKind(Stifle, stifles)
    ensures AllCommanded(p, stifles) == StifleLines(p, stifles)
  {
    CommandedOfKind(p, Stifle, stifles);
    hide Decimal, AllCommanded;
    forall i | 0 <= i < |stifles| ensures AllCommanded(p, stifles)[i] == StifleLines(p, stifles)[i] {
      assert AllCommanded(p, stifles)[i] == ForSeconds(p, stifles[i].stifleLength);
    }
  }

  lemma StifleCommands(p: Profile, stifles: seq<Rule>, msgs: seq<Rule>)
    requires AllOfKind(Stifle, stifles) && AllOfKind(Message, msgs)
    ensures Commands(Actions(p, stifles) + Actions(p, msgs)) == StifleLines(p, stifles)
  {
    hide Actions, Commands, StifleLines;
    ActionsEmit(p, stifles);
    ActionsEmit(p, msgs);
    LinesAre(p, stifles);
    CommandedOfKind(p, Message, msgs);
    CommandsAppend(Actions(p, stifles), Actions(p, msgs));
    hide AllCommanded;
    assert StifleLines(p, stifles) + [] == StifleLines(p, stifles);
  }

  /** What is said, in order: the mutes' messages, the stifles' notice unless they are held
      back, and the messages, each rule's own lines joined to one. */
  lemma SortedSpoken(p: Profile, rs: seq<Rule>, muted: bool)
    requires OfKind(Ban, rs) == []
    ensures var mutes, stifles, msgs := OfKind(Mute, rs), OfKind(Stifle, rs), OfKind(Message, rs);
            Spoken(Trace(p, Sorted(rs), muted))
            == AllLines(p, mutes) + (if muted || mutes != [] then [] else AllLines(p, stifles)) + AllLines(p, msgs)
  {
    var mutes, stifles, msgs := OfKind(Mute, rs), OfKind(Stifle, rs), OfKind(Message, rs);
    SortedParts(p, rs, muted);
    OfKindIs(Mute, rs);
    OfKindIs(Stifle, rs);
    OfKindIs(Message, rs);
    ActionsEmit(p, mutes);
    ActionsEmit(p, stifles);
    ActionsEmit(p, msgs);
    assert Spoken([]) == [];
    hide OfKind, Trace, Sorted, Actions, Spoken, AllLines;
    var held := if muted || mutes != [] then [] else Actions(p, stifles);
    SpokenAppend(Actions(p, mutes) + held, Actions(p, msgs));
    SpokenAppend(Actions(p, mutes), held);
  }

  /** With a ban among them, sorted rules come down to the first ban: its messages, a line
      for each, and one kick. */
  lemma BannedTrace(p: Profile, rs: seq<Rule>, muted: bool)
    requires OfKind(Ban, rs) != []
    ensures Trace(p, Sorted(rs), muted)
            == Told(p, Join(OfKind(Ban, rs)[0].message, '\n')) + [Command("kick " + Decimal(p.clientId) + "\n")]
  {
    var ban := OfKind(Ban, rs)[0];
    OfKindIs(Ban, rs);
    SortedByKind(rs);
    OneRuleEmits(p, ban, muted);
    hide Keep;
    assert Sorted(rs)[0] == ban;
    assert [ban][0] == ban;
  }

  // ---------------------------------------------------------------- marks

  /** The marks after acting on rules without a ban: muted if a rule mutes ... */
  lemma {:induction false} MutedAtLast(rs: seq<Rule>, f: Flags)
    requires NoBan(rs)
    ensures Enforced(rs, f).muted <==> f.muted || HasMute(rs)
    decreases |rs|
  {
    if rs != [] {
      assert forall i | 0 <= i < |rs| - 1 :: rs[1..][i] == rs[i + 1];
      MutedAtLast(rs[1..], After(rs[0], f));
      MuteFront(rs);
    }
  }

  /** ... and stifled for the length of the last stifle, unless muted by then. */
  lemma {:induction false} StifledAtLast(rs: seq<Rule>, f: Flags)
    requires NoBan(rs) && (f.muted || !HasMute(rs))
    ensures var stifles := OfKind(Stifle, rs);
            Enforced(rs, f) == if f.muted || stifles == [] then f.(muted := Enforced(rs, f).muted)
                               else f.(stifled := true, stifleLength := stifles[|stifles| - 1].stifleLength)
    decreases |rs|
  {
    if rs == [] {
      assert OfKind(Stifle, rs) == [];
    } else {
      var first, rest := [rs[0]], rs[1..];
      assert forall i | 0 <= i < |rest| :: rest[i] == rs[i + 1];
      MuteFront(rs);
      MutedAtLast(rs, f);
      StifledAtLast(rest, After(rs[0], f));
      assert rs == first + rest;
      KeepAppend((r: Rule) => r.kind == Stifle, first, rest);
      assert first[..0] == [] && OfKind(Stifle, []) == [];
    }
  }

  /** A ban ends it: what stands behind the first one leaves no mark. */
  lemma {:induction false} NoMarksAfterBan(a: seq<Rule>, ban: Rule, b: seq<Rule>, f: Flags)
    requires NoBan(a) && ban.kind == Ban
    ensures Enforced(a + [ban] + b, f) == Enforced(a, f)
    decreases |a|
  {
    var all := a + [ban] + b;
    if a == [] {
      assert all[0] == ban;
    } else {
      assert all[1..] == a[1..] + [ban] + b;
      assert forall i | 0 <= i < |a| - 1 :: a[1..][i] == a[i + 1];
      NoMarksAfterBan(a[1..], ban, b, After(a[0], f));
    }
  }
}
