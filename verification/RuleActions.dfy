/**
 What is done to a player whom rules match: the records appended to the outgoing
 buffer, and the player's marks. Strings are shown as text here, not as bytes.
 */
module RuleActions {
  import opened Wrappers
  import opened Strings
  import opened Sequences
  import opened Rules
  import opened RuleMeaning
  import opened RuleSets

  const PRINT_LOW: int := 0
  const PRINT_CHAT: int := 3

  datatype Output =
    | SayClient(client: int, level: int, text: string)
    | Command(text: string)

  function Decimal(n: int): string {
    if n < 0 then "-" + Itoa(-n) else Itoa(n)
  }

  function Line(text: string): string {
    if text != "" && text[|text| - 1] == '\n' then text else text + "\n"
  }

  // ---------------------------------------------------------------- backend/command.go

  function Say(p: Profile, level: int, text: string): seq<Output> {
    if text == "" then []
    else [SayClient(p.clientId, if level < 0 || level > PRINT_CHAT then PRINT_LOW else level, Line(text))]
  }

  /** Zero or a negative number of seconds mutes for good. */
  function MuteCommand(p: Profile, seconds: int): Output {
    Command("sv !mute CL " + Decimal(p.clientId) + (if seconds > 0 then " " + Decimal(seconds) + "\n" else " PERM\n"))
  }

  function Kick(p: Profile, msg: string): seq<Output> {
    (if msg == "" then [] else [SayClient(p.clientId, PRINT_CHAT, Line(msg))])
    + [Command("kick " + Decimal(p.clientId) + "\n")]
  }

  class Frontend {
    var messageOut: seq<Output>

    constructor ()
      ensures messageOut == []
    {
      messageOut := [];
    }

    method SayPlayer(p: Player, level: int, text: string)
      modifies this
      ensures messageOut == old(messageOut) + Say(p.profile, level, text)
    {
      if text == "" {
        return;
      }
      var shown := if level < 0 || level > PRINT_CHAT then PRINT_LOW else level;
      messageOut := messageOut + [SayClient(p.profile.clientId, shown, Line(text))];
    }

    method MutePlayer(p: Player, seconds: int)
      modifies this
      ensures messageOut == old(messageOut) + [MuteCommand(p.profile, seconds)]
    {
      var cmd := "sv !mute CL " + Decimal(p.profile.clientId);
      cmd := cmd + (if seconds > 0 then " " + Decimal(seconds) + "\n" else " PERM\n");
      messageOut := messageOut + [Command(cmd)];
    }

    method KickPlayer(p: Player, msg: string)
      modifies this
      ensures messageOut == old(messageOut) + Kick(p.profile, msg)
    {
      if msg != "" {
        messageOut := messageOut + [SayClient(p.profile.clientId, PRINT_CHAT, Line(msg))];
      }
      messageOut := messageOut + [Command("kick " + Decimal(p.profile.clientId) + "\n")];
    }

    /** One pass of the loop in ApplyMatchedRules, for a rule that is not a ban. */
    method ApplyRule(p: Player, rule: Rule)
      requires rule.kind != Ban
      modifies this, p
      ensures messageOut == old(messageOut) + Action(p.profile, rule, old(p.muted))
      ensures p.State() == After(rule, old(p.State()))
    {
      if rule.kind == Mute {
        p.muted := true;
        SayPlayer(p, PRINT_CHAT, Join(rule.message, ' '));
        MutePlayer(p, -1);
      }
      if rule.kind == Stifle {
        if p.muted {
          return;
        }
        p.stifled := true;
        p.stifleLength := rule.stifleLength;
        SayPlayer(p, PRINT_CHAT, "You're stifled");
        MutePlayer(p, p.stifleLength);
      }
      if rule.kind == Message {
        SayPlayer(p, PRINT_CHAT, Join(rule.message, ' '));
      }
    }

    /** Acts on rules already known to match, given in severity order. */
    method ApplyMatchedRules(p: Player, rules: seq<Rule>)
      modifies this, p
      ensures messageOut == old(messageOut) + Trace(p.profile, rules, old(p.muted))
      ensures p.State() == Enforced(rules, old(p.State()))
    {
      ghost var whole := old(messageOut) + Trace(p.profile, rules, old(p.muted));
      var i := 0;
      while i < |rules|
        invariant 0 <= i <= |rules|
        invariant messageOut + Trace(p.profile, rules[i..], p.muted) == whole
        invariant Enforced(rules[i..], p.State()) == Enforced(rules, old(p.State()))
      {
        var rule := rules[i];
        assert rules[i..][0] == rule && rules[i..][1..] == rules[i + 1..];
        if rule.kind == Ban {
          KickPlayer(p, Join(rule.message, '\n'));
          break;
        }
        ghost var before, muted := messageOut, p.muted;
        ApplyRule(p, rule);
        Concat(before, Action(p.profile, rule, muted), Trace(p.profile, rules[i + 1..], p.muted));
        i := i + 1;
      }
    }

    /** The connect path of ParseConnect: check all rules, then act on those that apply. */
    method ApplyRulesOnConnect(c: Context, p: Player, ruleset: seq<Rule>) returns (rules: seq<Rule>)
      modifies this, p
      ensures rules == Matching(c, p.profile, ruleset)
      ensures messageOut == old(messageOut) + ConnectTrace(c, p.profile, ruleset, old(p.State()))
      ensures p.State() == Enforced(rules, MarkedBy(c, Sorted(ruleset), p.profile, old(p.State())))
    {
      var matched;
      matched, rules := CheckRules(c, p, ruleset);
      if matched {
        ApplyMatchedRules(p, rules);
      }
    }

    /** What a maintenance run does about one player. The marks end up on a copy of the
        table's entry, so they are gone with it; the records are not. */
    method MaintainPlayer(c: Context, p: Player, ruleset: seq<Rule>)
      modifies this, p
      ensures messageOut == old(messageOut) + TimedTrace(c, p.profile, ruleset, old(p.State()))
    {
      var matches := CheckTimedRules(c, p, ruleset);
      ApplyMatchedRules(p, matches);
    }
  }

  // ---------------------------------------------------------------- the trace

  /** The records for one rule that is not a ban. */
  function Action(p: Profile, r: Rule, muted: bool): seq<Output> {
    match r.kind
    case Mute => Say(p, PRINT_CHAT, Join(r.message, ' ')) + [MuteCommand(p, -1)]
    case Stifle => if muted then [] else Say(p, PRINT_CHAT, "You're stifled") + [MuteCommand(p, r.stifleLength)]
    case Message => Say(p, PRINT_CHAT, Join(r.message, ' '))
    case _ => []
  }

  function Trace(p: Profile, rs: seq<Rule>, muted: bool): seq<Output>
    decreases |rs|
  {
    if rs == [] then []
    else if rs[0].kind == Ban then Kick(p, Join(rs[0].message, '\n'))
    else Action(p, rs[0], muted) + Trace(p, rs[1..], muted || rs[0].kind == Mute)
  }

  /** The marks after one rule that is not a ban. */
  function After(r: Rule, f: Flags): Flags {
    if r.kind == Mute then f.(muted := true)
    else if r.kind == Stifle && !f.muted then f.(stifled := true, stifleLength := r.stifleLength)
    else f
  }

  function Enforced(rs: seq<Rule>, f: Flags): Flags
    decreases |rs|
  {
    if rs == [] || rs[0].kind == Ban then f else Enforced(rs[1..], After(rs[0], f))
  }

  function ConnectTrace(c: Context, p: Profile, ruleset: seq<Rule>, f: Flags): seq<Output> {
    Trace(p, Matching(c, p, ruleset), MarkedBy(c, Sorted(ruleset), p, f).muted)
  }

  function TimedTrace(c: Context, p: Profile, ruleset: seq<Rule>, f: Flags): seq<Output> {
    Trace(p, Sorted(TimedMatches(c, p, ruleset)), MarkedBy(c, Keep(Timed(), ruleset), p, f).muted)
  }

  predicate NoBan(rs: seq<Rule>) {
    forall i | 0 <= i < |rs| :: rs[i].kind != Ban
  }

  function Actions(p: Profile, rs: seq<Rule>): seq<Output>
    decreases |rs|
  {
    if rs == [] then [] else Action(p, rs[0], false) + Actions(p, rs[1..])
  }

  predicate HasMute(rs: seq<Rule>) {
    exists i :: 0 <= i < |rs| && rs[i].kind == Mute
  }

  lemma {:induction false} TraceAppend(p: Profile, a: seq<Rule>, b: seq<Rule>, muted: bool)
    requires NoBan(a)
    ensures Trace(p, a + b, muted) == Trace(p, a, muted) + Trace(p, b, muted || HasMute(a))
    decreases |a|
  {
    hide Action, Kick;
    if a == [] {
      assert a + b == b;
    } else {
      assert (a + b)[1..] == a[1..] + b;
      assert forall i | 0 <= i < |a| - 1 :: a[1..][i] == a[i + 1];
      TraceAppend(p, a[1..], b, muted || a[0].kind == Mute);
      MuteFront(a);
      hide HasMute;
      Concat(Action(p, a[0], muted), Trace(p, a[1..], muted || a[0].kind == Mute), Trace(p, b, muted || HasMute(a)));
    }
  }

  lemma MuteFront(rs: seq<Rule>)
    requires rs != []
    ensures HasMute(rs) <==> rs[0].kind == Mute || HasMute(rs[1..])
  {
    if HasMute(rs) && rs[0].kind != Mute {
      var i :| 0 <= i < |rs| && rs[i].kind == Mute;
      assert rs[1..][i - 1].kind == Mute;
    }
  }

  /** On any list, sorted or not, nothing follows the first ban. */
  lemma NothingAfterBan(p: Profile, a: seq<Rule>, ban: Rule, b: seq<Rule>, muted: bool)
    requires NoBan(a) && ban.kind == Ban
    ensures Trace(p, a + [ban] + b, muted) == Trace(p, a, muted) + Kick(p, Join(ban.message, '\n'))
  {
    assert a + [ban] + b == a + ([ban] + b);
    TraceAppend(p, a, [ban] + b, muted);
  }

  lemma {:induction false} TraceOfKind(p: Profile, rs: seq<Rule>, muted: bool)
    requires NoBan(rs) && (muted || !HasMute(rs) || forall i | 0 <= i < |rs| :: rs[i].kind == Mute)
    requires muted ==> forall i | 0 <= i < |rs| :: rs[i].kind != Stifle
    ensures Trace(p, rs, muted) == Actions(p, rs)
    decreases |rs|
  {
    if rs != [] {
      assert forall i | 0 <= i < |rs| - 1 :: rs[1..][i] == rs[i + 1];
      assert rs[0].kind == Mute ==> HasMute(rs);
      TraceOfKind(p, rs[1..], muted || rs[0].kind == Mute);
    }
  }

  lemma {:induction false} StiflesOnMuted(p: Profile, rs: seq<Rule>)
    requires forall i | 0 <= i < |rs| :: rs[i].kind == Stifle
    ensures Trace(p, rs, true) == []
    decreases |rs|
  {
    if rs != [] {
      StiflesOnMuted(p, rs[1..]);
    }
  }

  lemma KindsApart(rs: seq<Rule>)
    ensures forall i | 0 <= i < |OfSeverity(rs, 1)| :: OfSeverity(rs, 1)[i].kind == Mute
    ensures forall i | 0 <= i < |OfSeverity(rs, 2)| :: OfSeverity(rs, 2)[i].kind == Stifle
    ensures forall i | 0 <= i < |OfSeverity(rs, 3)| :: OfSeverity(rs, 3)[i].kind == Message
    ensures forall i | 0 <= i < |OfSeverity(rs, 0)| :: OfSeverity(rs, 0)[i].kind == Ban
  {
    hide OfSeverity;
    PartSeverity(rs, 0);
    PartSeverity(rs, 1);
    PartSeverity(rs, 2);
    PartSeverity(rs, 3);
  }

  /** What is done about a sorted set of rules: a ban means one kick and nothing else;
      otherwise every mute rule mutes for good, stifles act only on a player who is not
      muted by then, and the messages follow, each in its order. */
  lemma SortedTrace(p: Profile, rs: seq<Rule>, muted: bool)
    ensures var bans, mutes, stifles, msgs :=
              OfSeverity(rs, 0), OfSeverity(rs, 1), OfSeverity(rs, 2), OfSeverity(rs, 3);
            Trace(p, Sorted(rs), muted)
            == if bans != [] then Kick(p, Join(bans[0].message, '\n'))
               else Actions(p, mutes)
                    + (if muted || mutes != [] then [] else Actions(p, stifles))
                    + Actions(p, msgs)
  {
    var bans, mutes, stifles, msgs := OfSeverity(rs, 0), OfSeverity(rs, 1), OfSeverity(rs, 2), OfSeverity(rs, 3);
    KindsApart(rs);
    hide OfSeverity, Action, Kick, Actions;
    if bans != [] {
      assert Sorted(rs)[0] == bans[0];
    } else {
      assert Sorted(rs) == mutes + (stifles + msgs);
      BanlessTrace(p, mutes, stifles, msgs, muted);
    }
  }

  lemma BanlessTrace(p: Profile, mutes: seq<Rule>, stifles: seq<Rule>, msgs: seq<Rule>, muted: bool)
    requires forall i | 0 <= i < |mutes| :: mutes[i].kind == Mute
    requires forall i | 0 <= i < |stifles| :: stifles[i].kind == Stifle
    requires forall i | 0 <= i < |msgs| :: msgs[i].kind == Message
    ensures Trace(p, mutes + (stifles + msgs), muted)
            == Actions(p, mutes) + (if muted || mutes != [] then [] else Actions(p, stifles)) + Actions(p, msgs)
  {
    hide Action, Kick, Trace, Actions;
    TraceAppend(p, mutes, stifles + msgs, muted);
    assert HasMute(mutes) <==> mutes != [] by {
      if mutes != [] {
        assert mutes[0].kind == Mute;
      }
    }
    var m := muted || mutes != [];
    TraceAppend(p, stifles, msgs, m);
    TraceOfKind(p, mutes, muted);
    TraceOfKind(p, msgs, m);
    if m {
      StiflesOnMuted(p, stifles);
    } else {
      TraceOfKind(p, stifles, m);
    }
    var held := if m then [] else Actions(p, stifles);
    Concat(Actions(p, mutes), held, Actions(p, msgs));
  }

  // ---------------------------------------------------------------- across functions

  lemma MatchingIsSorted(c: Context, p: Profile, ruleset: seq<Rule>)
    ensures Sorted(Matching(c, p, ruleset)) == Matching(c, p, ruleset)
  {
    SortKeepCommute(Applies(c, p), ruleset);
    SortIdempotent(Keep(Applies(c, p), ruleset));
  }

  /** On connect, when no ban and no mute rule applies, the stifle rules that do are acted on
      exactly if the player is
      not muted before and not touched by any mute rule of the set. A mute rule
      that does not apply, because another of its criteria fails or an exception matches,
      still touches the player and silently lifts every stifle. */
  lemma StifledOnConnectExactly(c: Context, p: Profile, ruleset: seq<Rule>, f: Flags)
    requires var ms := Matching(c, p, ruleset);
             OfSeverity(ms, 0) == [] && OfSeverity(ms, 1) == []
    ensures var ms := Matching(c, p, ruleset);
            var held := f.muted || TouchedByMute(c, p, ruleset);
            ConnectTrace(c, p, ruleset, f)
            == (if held then [] else Actions(p, OfSeverity(ms, 2))) + Actions(p, OfSeverity(ms, 3))
  {
    var ms := Matching(c, p, ruleset);
    var muted := MarkedBy(c, Sorted(ruleset), p, f).muted;
    MatchingIsSorted(c, p, ruleset);
    SortedTrace(p, ms, muted);
    MutedByTouch(c, p, ruleset, f);
    assert Actions(p, OfSeverity(ms, 1)) == [];
    var stifles := if muted then [] else Actions(p, OfSeverity(ms, 2));
    assert [] + stifles == stifles;
  }

  /** A mute for players called "a" who use a VPN does not apply to one who does not, and
      yet keeps the stifle for players called "a" from being acted on. */
  lemma SilencedStifle(c: Context, p: Profile, length: int)
    requires Insensitive(c.lib, "a", p.name) && !p.vpn
    ensures var mute := ByName(Mute, ["a"]).(vpn := true);
            var stifle := ByName(Stifle, ["a"]).(stifleLength := length);
            && !Verdict(c, mute, p) && Verdict(c, stifle, p)
            && ConnectTrace(c, p, [mute, stifle], Flags(false, false, 0)) == []
            && ConnectTrace(c, p, [stifle], Flags(false, false, 0)) != []
  {
    var mute := ByName(Mute, ["a"]).(vpn := true);
    var stifle := ByName(Stifle, ["a"]).(stifleLength := length);
    CalledA(c, p, mute);
    CalledA(c, p, stifle);
    hide Verdict;
    StifleAlone(c, p, mute, stifle);
  }

  lemma CalledA(c: Context, p: Profile, r: Rule)
    requires r.name == ["a"] && Insensitive(c.lib, "a", p.name) && r.exceptions == []
    requires Live(c, r) && r.timespec == NO_TIMES && r.address == [] && r.hostname == [] && r.userInfo == []
    ensures Touches(c, r, p) && (Verdict(c, r, p) <==> (r.vpn ==> p.vpn))
  {
    OneName(c.lib, "a", p);
    NeedHaveIsConjunction(c, r, p);
  }

  lemma StifleAlone(c: Context, p: Profile, mute: Rule, stifle: Rule)
    requires mute.kind == Mute && stifle.kind == Stifle
    requires !Verdict(c, mute, p) && Verdict(c, stifle, p) && Touches(c, mute, p)
    ensures ConnectTrace(c, p, [mute, stifle], Flags(false, false, 0)) == []
    ensures ConnectTrace(c, p, [stifle], Flags(false, false, 0)) != []
  {
    var both, clear := [mute, stifle], Flags(false, false, 0);
    hide Verdict, Touches;
    OnlyStifle(c, p, mute, stifle);
    MutedByTouch(c, p, both, clear);
    assert both[0].kind == Mute && Touches(c, both[0], p);
    MutedByTouch(c, p, [stifle], clear);
    assert [stifle][1..] == [];
    hide MarkedBy, Matching, Say, MuteCommand;
    assert Trace(p, [stifle], true) == [] + Trace(p, [], true);
    assert |Action(p, stifle, false)| > 0 by {
      hide *;
      StifleActs(p, stifle);
    }
    assert Trace(p, [stifle], false) == Action(p, stifle, false) + Trace(p, [], false);
  }

  lemma StifleActs(p: Profile, stifle: Rule)
    requires stifle.kind == Stifle
    ensures |Action(p, stifle, false)| > 0
  {
  }

  lemma OnlyStifle(c: Context, p: Profile, mute: Rule, stifle: Rule)
    requires mute.kind == Mute && stifle.kind == Stifle && !Verdict(c, mute, p) && Verdict(c, stifle, p)
    ensures Matching(c, p, [mute, stifle]) == [stifle] && Matching(c, p, [stifle]) == [stifle]
  {
    var test := Applies(c, p);
    KeptOfTwo(test, mute, stifle);
    OnlyRule(c, p, stifle, test);
    SortedCopies(stifle);
    SortKeepCommute(test, [stifle]);
    SortKeepCommute(test, [mute, stifle]);
    hide Verdict, Sorted, Keep, TimedMatches, TimedMatch;
  }

  lemma KeptOfTwo(test: Rule -> bool, out: Rule, kept: Rule)
    requires !test(out) && test(kept)
    ensures Keep(test, [out, kept]) == [kept]
  {
    assert [out, kept][..1] == [out] && [out][..0] == [];
    assert Keep(test, [out]) == [];
  }

  predicate TouchedByMute(c: Context, p: Profile, rs: seq<Rule>) {
    exists i :: 0 <= i < |rs| && rs[i].kind == Mute && Touches(c, rs[i], p)
  }

  lemma MutedByTouch(c: Context, p: Profile, ruleset: seq<Rule>, f: Flags)
    ensures MarkedBy(c, Sorted(ruleset), p, f).muted <==> f.muted || TouchedByMute(c, p, ruleset)
  {
    MutedAfter(c, Sorted(ruleset), p, f);
    TouchingMutes(c, p, ruleset);
  }

  lemma TouchingMutes(c: Context, p: Profile, ruleset: seq<Rule>)
    ensures TouchedByMute(c, p, Sorted(ruleset)) <==> TouchedByMute(c, p, ruleset)
  {
    var sorted := Sorted(ruleset);
    if i :| 0 <= i < |sorted| && sorted[i].kind == Mute && Touches(c, sorted[i], p) {
      SortPermutes(ruleset, sorted[i]);
      assert sorted[i] in multiset(sorted);
      assert sorted[i] in ruleset;
    }
    if i :| 0 <= i < |ruleset| && ruleset[i].kind == Mute && Touches(c, ruleset[i], p) {
      SortPermutes(ruleset, ruleset[i]);
      assert ruleset[i] in multiset(ruleset);
      assert ruleset[i] in sorted;
    }
  }

  /** A stifle is a timed mute; one whose length is not positive is sent as a mute for
      good, and only such a one. */
  lemma StifleForGoodExactly(p: Profile, seconds: int)
    ensures MuteCommand(p, seconds) == MuteCommand(p, -1) <==> seconds <= 0
  {
    if seconds > 0 {
      var head := "sv !mute CL " + Decimal(p.clientId);
      var timed, forever := MuteCommand(p, seconds).text, MuteCommand(p, -1).text;
      assert timed[|head| + 1] == Itoa(seconds)[0];
      assert forever[|head| + 1] == 'P';
    }
  }
}
