/**
 What rules and exceptions are documented to mean, against what CheckRule makes of them.
 */
module RuleMeaning {
  import opened Wrappers
  import opened Rules
  import Durations
  import Strings

  const NO_TIMES := Timespec("", "", "", "")

  /** A rule for players of the given names, and an exception for nobody. */
  function ByName(kind: RuleType, names: seq<string>): Rule {
    Rule(kind, false, 0, [], [], names, [], [], false, NO_TIMES, [], [], 0)
  }

  const NOBODY := Exception(0, [], [], [], [], [], NO_TIMES)

  // ---------------------------------------------------------------- counting and conjunction

  lemma TraitsUnmet(lib: Library, r: Rule, p: Profile)
    ensures TraitsHold(lib, r, p) <==> UnmetTraits(lib, r, p) == 0
  {
    HitsBounded(lib, r.userInfo, p);
    SomeNameHit(lib, r.name, p);
  }

  lemma NothingUnmet(c: Context, r: Rule, p: Profile)
    requires Parsable(c, r)
    ensures ReadHold(c, r, p) <==> Unmet(c, r, p) == 0
    ensures TimesHold(c, r, p) <==> UnmetTimes(c, r, p) == 0
  {
    TraitsUnmet(c.lib, r, p);
  }

  /** With at most one matching name pattern the counting is a conjunction of the criteria
      that are read: the rule is live, its times can be read, it has some such criterion, all
      of them hold and no exception matches. */
  lemma NeedHaveIsConjunction(c: Context, r: Rule, p: Profile)
    requires NameHits(c.lib, r.name, p) <= 1
    ensures Verdict(c, r, p) <==>
              Live(c, r) && Parsable(c, r) && Present(r) && ReadHold(c, r, p) && !Excepted(c, r, p)
  {
    if Parsable(c, r) {
      NothingUnmet(c, r, p);
    }
  }

  // ---------------------------------------------------------------- a rule in full

  function MatchingNames(lib: Library, names: seq<string>, p: Profile): set<int> {
    set i | 0 <= i < |names| && lib.matches("(?i)" + names[i], p.name) == Some(true)
  }

  lemma OneNameMore(lib: Library, names: seq<string>, p: Profile)
    requires names != []
    ensures var n := |names| - 1;
            && n !in MatchingNames(lib, names[..n], p)
            && MatchingNames(lib, names, p)
               == MatchingNames(lib, names[..n], p) + if Insensitive(lib, names[n], p.name) then {n} else {}
  {
    assert forall i | 0 <= i < |names| - 1 :: names[..|names| - 1][i] == names[i];
  }

  /** How many names match is how many indices do. */
  lemma {:induction false} NameHitsCount(lib: Library, names: seq<string>, p: Profile)
    ensures NameHits(lib, names, p) == |MatchingNames(lib, names, p)|
  {
    hide Insensitive;
    if names != [] {
      NameHitsCount(lib, names[..|names| - 1], p);
      OneNameMore(lib, names, p);
      hide MatchingNames;
    }
  }

  /** No two patterns of a rule match the player's name. */
  predicate OneNameAtMost(lib: Library, names: seq<string>, p: Profile) {
    forall i, j | 0 <= i < |names| && 0 <= j < |names| ::
      lib.matches("(?i)" + names[i], p.name) == Some(true) && lib.matches("(?i)" + names[j], p.name) == Some(true)
      ==> i == j
  }

  lemma {:induction false} OneNameHit(lib: Library, names: seq<string>, p: Profile)
    requires OneNameAtMost(lib, names, p)
    ensures NameHits(lib, names, p) <= 1
  {
    if names != [] {
      var n, front := |names| - 1, names[..|names| - 1];
      assert forall i | 0 <= i < n :: front[i] == names[i];
      OneNameHit(lib, front, p);
      SomeNameHit(lib, front, p);
      if Insensitive(lib, names[n], p.name) {
        assert forall i | 0 <= i < n :: Insensitive(lib, front[i], p.name) ==> i == n;
      }
    }
  }

  /** What the criteria of a rule ask of a player, in terms of the library's answers. */
  predicate TraitsInFull(lib: Library, r: Rule, p: Profile) {
    && (r.address == [] || exists i :: 0 <= i < |r.address| && lib.inNetwork(r.address[i], p.ip) == Some(true))
    && (r.hostname == []
        || exists i :: 0 <= i < |r.hostname| && lib.matches("(?i)" + r.hostname[i], p.hostname) == Some(true))
    && (r.name == [] || exists i :: 0 <= i < |r.name| && lib.matches("(?i)" + r.name[i], p.name) == Some(true))
    && (forall i | 0 <= i < |r.userInfo| ::
          && r.userInfo[i].property in p.userinfo
          && lib.matches(r.userInfo[i].value, p.userinfo[r.userInfo[i].property]) == Some(true))
    && (r.vpn ==> p.vpn)
  }

  /** The times of a rule: each is readable, and the moment lies on its side of it. */
  predicate TimesInFull(c: Context, r: Rule, p: Profile) {
    && (r.timespec.before != "" ==>
          && c.lib.toTime(r.timespec.before).Some?
          && var w := c.lib.toTime(r.timespec.before).value;
          if w.dated then c.time.instant < w.at.instant
          else c.time.hour <= w.at.hour && c.time.minute <= w.at.minute)
    && (r.timespec.after != "" ==>
          && c.lib.toTime(r.timespec.after).Some?
          && var w := c.lib.toTime(r.timespec.after).value;
          if w.dated then c.time.instant > w.at.instant
          else c.time.hour >= w.at.hour && c.time.minute >= w.at.minute)
    && (r.timespec.playTime != "" ==>
          && Durations.Parsed(c.lib.toFloat, r.timespec.playTime, c.order).Seconds?
          && c.time.unix - p.connectTime >= Durations.Parsed(c.lib.toFloat, r.timespec.playTime, c.order).n)
  }

  /** What an exception asks: any one of its criteria, as long as it has not expired. */
  predicate ExceptionInFull(c: Context, ex: Exception, p: Profile) {
    && (ex.expirationTime <= 0 || c.now <= ex.expirationTime)
    && (|| (exists i :: 0 <= i < |ex.address| && c.lib.inNetwork(ex.address[i], p.ip) == Some(true))
        || (exists i :: 0 <= i < |ex.hostname| && c.lib.matches("(?i)" + ex.hostname[i], p.hostname) == Some(true))
        || (exists i :: 0 <= i < |ex.name| && c.lib.matches(ex.name[i], p.name) == Some(true))
        || (exists i :: 0 <= i < |ex.userInfo|
              && var ui := ex.userInfo[i];
              c.lib.matches(ui.value, if ui.property in p.userinfo then p.userinfo[ui.property] else "") == Some(true)))
  }

  lemma ExceptionMeans(c: Context, ex: Exception, p: Profile)
    ensures ExceptionMatch(c, ex, p) <==> ExceptionInFull(c, ex, p)
  {
    if exists i :: 0 <= i < |ex.hostname| && c.lib.matches("(?i)" + ex.hostname[i], p.hostname) == Some(true) {
      var i :| 0 <= i < |ex.hostname| && c.lib.matches("(?i)" + ex.hostname[i], p.hostname) == Some(true);
      assert Insensitive(c.lib, ex.hostname[i], p.hostname);
    }
    if exists i :: 0 <= i < |ex.userInfo| && ExceptionUserinfo(c.lib, ex.userInfo[i], p) {
      var i :| 0 <= i < |ex.userInfo| && ExceptionUserinfo(c.lib, ex.userInfo[i], p);
      assert c.lib.matches(ex.userInfo[i].value,
          if ex.userInfo[i].property in p.userinfo then p.userinfo[ex.userInfo[i].property] else "") == Some(true);
    }
    assert forall i | 0 <= i < |ex.userInfo| ::
        c.lib.matches(ex.userInfo[i].value,
          if ex.userInfo[i].property in p.userinfo then p.userinfo[ex.userInfo[i].property] else "") == Some(true)
        ==> ExceptionUserinfo(c.lib, ex.userInfo[i], p);
  }

  lemma TraitsMean(lib: Library, r: Rule, p: Profile)
    ensures TraitsHold(lib, r, p) <==> TraitsInFull(lib, r, p)
  {
    if exists i :: 0 <= i < |r.hostname| && lib.matches("(?i)" + r.hostname[i], p.hostname) == Some(true) {
      var i :| 0 <= i < |r.hostname| && lib.matches("(?i)" + r.hostname[i], p.hostname) == Some(true);
      assert Insensitive(lib, r.hostname[i], p.hostname);
    }
    if exists i :: 0 <= i < |r.name| && lib.matches("(?i)" + r.name[i], p.name) == Some(true) {
      var i :| 0 <= i < |r.name| && lib.matches("(?i)" + r.name[i], p.name) == Some(true);
      assert Insensitive(lib, r.name[i], p.name);
    }
    assert forall i | 0 <= i < |r.userInfo| :: UserinfoMatches(lib, r.userInfo[i], p) <==>
        r.userInfo[i].property in p.userinfo
        && lib.matches(r.userInfo[i].value, p.userinfo[r.userInfo[i].property]) == Some(true);
  }

  lemma TimesMean(c: Context, r: Rule, p: Profile)
    ensures TimesInFull(c, r, p) <==> Parsable(c, r) && TimesHold(c, r, p)
  {
    hide Durations.Parsed;
  }

  /** A rule in full, for a player whose name at most one pattern matches: it is enabled and
      not expired, names some criterion, all it names hold, and no exception does. */
  lemma RuleInFull(c: Context, r: Rule, p: Profile)
    requires OneNameAtMost(c.lib, r.name, p)
    ensures Verdict(c, r, p) <==>
              && !r.disabled && (r.expirationTime <= 0 || c.time.unix <= r.expirationTime)
              && (|| r.address != [] || r.hostname != [] || r.name != [] || r.userInfo != [] || r.vpn
                  || r.timespec.before != "" || r.timespec.after != "" || r.timespec.playTime != "")
              && TraitsInFull(c.lib, r, p) && TimesInFull(c, r, p)
              && forall i | 0 <= i < |r.exceptions| :: !ExceptionInFull(c, r.exceptions[i], p)
  {
    OneNameHit(c.lib, r.name, p);
    NeedHaveIsConjunction(c, r, p);
    TraitsMean(c.lib, r, p);
    TimesMean(c, r, p);
    forall i | 0 <= i < |r.exceptions|
      ensures ExceptionMatch(c, r.exceptions[i], p) <==> ExceptionInFull(c, r.exceptions[i], p)
    {
      ExceptionMeans(c, r.exceptions[i], p);
    }
    hide Verdict, TraitsHold, TraitsInFull, TimesInFull, TimesHold, Parsable, ExceptionMatch, ExceptionInFull;
  }

  /** The userinfo pairs of a rule that a player does not have. */
  function MissingPairs(lib: Library, uis: seq<UserInfo>, p: Profile): set<int> {
    set i | 0 <= i < |uis|
            && !(uis[i].property in p.userinfo && lib.matches(uis[i].value, p.userinfo[uis[i].property]) == Some(true))
  }

  lemma OnePairMore(lib: Library, uis: seq<UserInfo>, p: Profile)
    requires uis != []
    ensures var n := |uis| - 1;
            && n !in MissingPairs(lib, uis[..n], p)
            && MissingPairs(lib, uis, p)
               == MissingPairs(lib, uis[..n], p) + if UserinfoMatches(lib, uis[n], p) then {} else {n}
  {
    assert forall i | 0 <= i < |uis| - 1 :: uis[..|uis| - 1][i] == uis[i];
  }

  lemma {:induction false} PairsCount(lib: Library, uis: seq<UserInfo>, p: Profile)
    ensures |uis| - UserinfoHits(lib, uis, p) == |MissingPairs(lib, uis, p)|
  {
    hide UserinfoMatches;
    if uis != [] {
      PairsCount(lib, uis[..|uis| - 1], p);
      OnePairMore(lib, uis, p);
      hide MissingPairs;
    }
  }

  function Miss(holds: bool): nat { if holds then 0 else 1 }

  /** How many of a rule's criteria fail, each userinfo pair being one. */
  function Misses(c: Context, r: Rule, p: Profile): nat {
    var none, ts := Bare(r), r.timespec;
    Miss(TraitsInFull(c.lib, none.(address := r.address), p))
    + Miss(TraitsInFull(c.lib, none.(hostname := r.hostname), p))
    + Miss(TraitsInFull(c.lib, none.(name := r.name), p))
    + |MissingPairs(c.lib, r.userInfo, p)|
    + Miss(TraitsInFull(c.lib, none.(vpn := r.vpn), p))
    + Miss(TimesInFull(c, none.(timespec := NO_TIMES.(before := ts.before)), p))
    + Miss(TimesInFull(c, none.(timespec := NO_TIMES.(after := ts.after)), p))
    + Miss(TimesInFull(c, none.(timespec := NO_TIMES.(playTime := ts.playTime)), p))
  }

  lemma MissesUnmet(c: Context, r: Rule, p: Profile)
    requires Parsable(c, r)
    ensures Misses(c, r, p) == Unmet(c, r, p)
  {
    var none, ts := Bare(r), r.timespec;
    TraitsMean(c.lib, none.(address := r.address), p);
    TraitsMean(c.lib, none.(hostname := r.hostname), p);
    TraitsMean(c.lib, none.(name := r.name), p);
    TraitsMean(c.lib, none.(vpn := r.vpn), p);
    TimesMean(c, none.(timespec := NO_TIMES.(before := ts.before)), p);
    TimesMean(c, none.(timespec := NO_TIMES.(after := ts.after)), p);
    TimesMean(c, none.(timespec := NO_TIMES.(playTime := ts.playTime)), p);
    PairsCount(c.lib, r.userInfo, p);
    SomeNameHit(c.lib, r.name, p);
    hide TraitsInFull, TimesInFull, Durations.Parsed, NameHits, UserinfoHits, MissingPairs;
  }

  /** Any rule in full: a live one without a matching exception applies when it names some
      criterion and no more of its criteria fail than name patterns match beyond the first. */
  lemma CountingInFull(c: Context, r: Rule, p: Profile)
    requires Live(c, r) && Parsable(c, r)
    requires forall i | 0 <= i < |r.exceptions| :: !ExceptionInFull(c, r.exceptions[i], p)
    ensures var names := |MatchingNames(c.lib, r.name, p)|;
            Verdict(c, r, p) <==>
              Present(r) && Misses(c, r, p) <= if names > 1 then names - 1 else 0
  {
    forall i | 0 <= i < |r.exceptions| ensures !ExceptionMatch(c, r.exceptions[i], p) {
      ExceptionMeans(c, r.exceptions[i], p);
    }
    MissesUnmet(c, r, p);
    NameHitsCount(c.lib, r.name, p);
    hide Misses, Unmet, MatchingNames, NameHits, ExceptionInFull, ExceptionMatch;
  }

  // ---------------------------------------------------------------- exceptions of a rule

  /** Any one exception that matches keeps any rule from applying, surplus or not. */
  lemma AnyExceptionStops(c: Context, r: Rule, p: Profile, i: nat)
    requires i < |r.exceptions| && ExceptionInFull(c, r.exceptions[i], p)
    ensures !Verdict(c, r, p)
  {
    ExceptionMeans(c, r.exceptions[i], p);
    hide ExceptionMatch;
  }

  /** One exception more takes away exactly the cases in which it matches. */
  lemma OneExceptionMore(c: Context, r: Rule, ex: Exception, p: Profile)
    ensures Verdict(c, r.(exceptions := r.exceptions + [ex]), p) <==>
              Verdict(c, r, p) && !ExceptionInFull(c, ex, p)
  {
    ExceptionMeans(c, ex, p);
    hide ExceptionMatch, ExceptionInFull;
    var more := r.(exceptions := r.exceptions + [ex]);
    assert more.exceptions[|r.exceptions|] == ex;
    assert forall i | 0 <= i < |r.exceptions| :: more.exceptions[i] == r.exceptions[i];
    assert Excepted(c, more, p) <==> Excepted(c, r, p) || ExceptionMatch(c, ex, p) by {
      if Excepted(c, r, p) {
        var i :| 0 <= i < |r.exceptions| && ExceptionMatch(c, r.exceptions[i], p);
        assert ExceptionMatch(c, more.exceptions[i], p);
      }
    }
    hide Excepted;
  }

  /** A rule that is disabled, expired or unreadable never applies and leaves no mark. */
  lemma DeadRule(c: Context, r: Rule, p: Profile, f: Flags)
    requires || r.disabled || (r.expirationTime > 0 && c.time.unix > r.expirationTime)
             || (r.timespec.before != "" && c.lib.toTime(r.timespec.before).None?)
             || (r.timespec.after != "" && c.lib.toTime(r.timespec.after).None?)
             || (r.timespec.playTime != "" && Durations.Parsed(c.lib.toFloat, r.timespec.playTime, c.order).Invalid?)
    ensures !Verdict(c, r, p) && Marked(c, r, p, f) == f
  {
    hide Durations.Parsed;
  }

  /** A rule without its criteria. */
  function Bare(r: Rule): Rule {
    r.(address := [], hostname := [], name := [], userInfo := [], vpn := false, timespec := NO_TIMES)
  }

  /** Any other rule marks the player of whom one of its criteria holds, userinfo pairs
      counting as one: a mute as muted, a stifle as stifled for its length, others not. */
  lemma LiveRuleMarks(c: Context, r: Rule, p: Profile, f: Flags)
    requires !r.disabled && (r.expirationTime <= 0 || c.time.unix <= r.expirationTime) && Parsable(c, r)
    ensures var none := Bare(r);
            var ts := r.timespec;
            var touched :=
              || (r.address != [] && TraitsInFull(c.lib, none.(address := r.address), p))
              || (r.hostname != [] && TraitsInFull(c.lib, none.(hostname := r.hostname), p))
              || (r.name != [] && TraitsInFull(c.lib, none.(name := r.name), p))
              || (r.userInfo != [] && TraitsInFull(c.lib, none.(userInfo := r.userInfo), p))
              || (r.vpn && p.vpn)
              || (ts.before != "" && TimesInFull(c, none.(timespec := NO_TIMES.(before := ts.before)), p))
              || (ts.after != "" && TimesInFull(c, none.(timespec := NO_TIMES.(after := ts.after)), p))
              || (ts.playTime != "" && TimesInFull(c, none.(timespec := NO_TIMES.(playTime := ts.playTime)), p));
            Marked(c, r, p, f)
            == if touched && r.kind == Mute then f.(muted := true)
               else if touched && r.kind == Stifle then f.(stifled := true, stifleLength := r.stifleLength)
               else f
  {
    var none := Bare(r);
    TraitsMean(c.lib, none.(address := r.address), p);
    TraitsMean(c.lib, none.(hostname := r.hostname), p);
    TraitsMean(c.lib, none.(name := r.name), p);
    TraitsMean(c.lib, none.(userInfo := r.userInfo), p);
    TimesMean(c, none.(timespec := NO_TIMES.(before := r.timespec.before)), p);
    TimesMean(c, none.(timespec := NO_TIMES.(after := r.timespec.after)), p);
    TimesMean(c, none.(timespec := NO_TIMES.(playTime := r.timespec.playTime)), p);
    HitsBounded(c.lib, r.userInfo, p);
    SomeNameHit(c.lib, r.name, p);
    hide TraitsInFull, TimesInFull, Durations.Parsed, NameHits, UserinfoHits;
  }

  // ---------------------------------------------------------------- criteria never read

  /** A rule may ask for a client version and for an interval. */
  predicate UnreadPresent(r: Rule) {
    r.client != [] || r.timespec.every != ""
  }

  predicate AnyClient(lib: Library, clients: seq<string>, p: Profile) {
    exists i :: 0 <= i < |clients| && Hit(lib.matches(clients[i], p.version))
  }

  predicate UnreadHold(c: Context, r: Rule, p: Profile) {
    && (r.client != [] ==> AnyClient(c.lib, r.client, p))
    && (r.timespec.every != "" ==> c.lib.due(r.timespec.every, c.time))
  }

  /** The documented conjunction, of at least one criterion, with those that are read held
      to the code's own tests. */
  predicate AllHold(c: Context, r: Rule, p: Profile)
    requires Parsable(c, r)
  {
    (Present(r) || UnreadPresent(r)) && ReadHold(c, r, p) && UnreadHold(c, r, p)
  }

  /** CheckRule is that conjunction exactly unless surplus name matches pay for criteria
      that fail, or a criterion that is never read fails while those that are read hold,
      or a rule has no criterion but such, and they hold. */
  lemma ConjunctionExactly(c: Context, r: Rule, p: Profile)
    requires Live(c, r) && Parsable(c, r) && !Excepted(c, r, p)
    ensures Verdict(c, r, p) == AllHold(c, r, p) <==>
              && !(Present(r) && 0 < Unmet(c, r, p) <= Surplus(c.lib, r, p))
              && !(Present(r) && Unmet(c, r, p) == 0 && !UnreadHold(c, r, p))
              && !(!Present(r) && UnreadPresent(r) && UnreadHold(c, r, p))
  {
    NothingUnmet(c, r, p);
  }

  /** A rule for one client version applies to players of every version ... */
  lemma ClientIgnored(c: Context, p: Profile)
    requires Insensitive(c.lib, "a", p.name) && !AnyClient(c.lib, ["q2pro"], p)
    ensures var r := ByName(Ban, ["a"]).(client := ["q2pro"]);
            Verdict(c, r, p) && !AllHold(c, r, p)
  {
    var r := ByName(Ban, ["a"]).(client := ["q2pro"]);
    OneName(c.lib, "a", p);
    NeedHaveIsConjunction(c, r, p);
  }

  /** ... and a rule with nothing but a client version to none. */
  lemma ClientAloneIgnored(c: Context, p: Profile)
    requires AnyClient(c.lib, ["q2pro"], p)
    ensures var r := ByName(Ban, []).(client := ["q2pro"]);
            !Verdict(c, r, p) && AllHold(c, r, p)
  {
  }

  lemma OneName(lib: Library, name: string, p: Profile)
    ensures NameHits(lib, [name], p) == if Insensitive(lib, name, p.name) then 1 else 0
    ensures (exists i :: 0 <= i < |[name]| && Insensitive(lib, [name][i], p.name)) <==> Insensitive(lib, name, p.name)
  {
    assert [name][..0] == [] && NameHits(lib, [], p) == 0;
    SomeNameHit(lib, [name], p);
  }

  /** Two patterns matching one name: the rule applies although it asks for a VPN the
      player does not use. */
  lemma TwoNamesForOneVpn(c: Context, p: Profile)
    requires Insensitive(c.lib, "a", p.name) && Insensitive(c.lib, "b", p.name) && !p.vpn
    ensures var r := ByName(Ban, ["a", "b"]).(vpn := true);
            Verdict(c, r, p) && !AllHold(c, r, p)
  {
    var r := ByName(Ban, ["a", "b"]).(vpn := true);
    assert ["a", "b"][..1] == ["a"];
    OneName(c.lib, "a", p);
    assert NameHits(c.lib, r.name, p) == 2;
    HitsBounded(c.lib, r.userInfo, p);
  }

  // ---------------------------------------------------------------- times of day

  function TimeOfDay(m: Moment): int { 3600 * m.hour + 60 * m.minute + m.second }

  predicate ClockReading(m: Moment) { 0 <= m.hour < 24 && 0 <= m.minute < 60 && 0 <= m.second < 60 }

  predicate BeforeMeant(t: Moment, w: When) {
    if w.dated then t.instant < w.at.instant else TimeOfDay(t) <= TimeOfDay(w.at)
  }

  predicate AfterMeant(t: Moment, w: When) {
    if w.dated then t.instant > w.at.instant else TimeOfDay(t) >= TimeOfDay(w.at)
  }

  predicate SameMinute(t: Moment, u: Moment) { t.hour == u.hour && t.minute == u.minute }

  /** A time of day without a date is compared as such exactly when the minutes do not
      contradict the hours, and the seconds, which are not looked at, do not decide. The
      first makes the comparison refuse what it should accept, the second accept what it
      should refuse. */
  lemma TimeOnlyExactly(t: Moment, w: When)
    requires !w.dated && ClockReading(t) && ClockReading(w.at)
    ensures BeforeMeant(t, w) && !BeforeHolds(t, w) <==> t.hour < w.at.hour && t.minute > w.at.minute
    ensures BeforeHolds(t, w) && !BeforeMeant(t, w) <==> SameMinute(t, w.at) && t.second > w.at.second
    ensures AfterMeant(t, w) && !AfterHolds(t, w) <==> t.hour > w.at.hour && t.minute < w.at.minute
    ensures AfterHolds(t, w) && !AfterMeant(t, w) <==> SameMinute(t, w.at) && t.second < w.at.second
  {
  }

  /** Half past ten is before a quarter past eleven, and a quarter past eleven after it, and
      neither by this comparison. 16:30:45 passes as before 16:30:00, and 16:30:00 as after
      16:30:59. */
  lemma TimeOnlyFails(instant: int, unix: int)
    ensures var half, quarter := Moment(instant, unix, 10, 30, 0), Moment(instant, unix, 11, 15, 0);
            && BeforeMeant(half, When(false, quarter)) && !BeforeHolds(half, When(false, quarter))
            && AfterMeant(quarter, When(false, half)) && !AfterHolds(quarter, When(false, half))
    ensures var late, sharp := Moment(instant, unix, 16, 30, 45), Moment(instant, unix, 16, 30, 0);
            BeforeHolds(late, When(false, sharp)) && !BeforeMeant(late, When(false, sharp))
    ensures var sharp, last := Moment(instant, unix, 16, 30, 0), Moment(instant, unix, 16, 30, 59);
            AfterHolds(sharp, When(false, last)) && !AfterMeant(sharp, When(false, last))
  {
    TimeOnlyExactly(Moment(instant, unix, 10, 30, 0), When(false, Moment(instant, unix, 11, 15, 0)));
    TimeOnlyExactly(Moment(instant, unix, 11, 15, 0), When(false, Moment(instant, unix, 10, 30, 0)));
  }

  // ---------------------------------------------------------------- the whole documentation

  predicate TimesMeant(c: Context, r: Rule, p: Profile)
    requires Parsable(c, r)
  {
    && (r.timespec.before != "" ==> BeforeMeant(c.time, c.lib.toTime(r.timespec.before).value))
    && (r.timespec.after != "" ==> AfterMeant(c.time, c.lib.toTime(r.timespec.after).value))
    && (r.timespec.playTime != "" ==> PlayedLongEnough(c, r, p))
  }

  /** A rule as it is documented: at least one criterion, and all of them hold. */
  predicate AllMeant(c: Context, r: Rule, p: Profile)
    requires Parsable(c, r)
  {
    && (Present(r) || UnreadPresent(r))
    && TraitsHold(c.lib, r, p) && TimesMeant(c, r, p) && UnreadHold(c, r, p)
  }

  /** The counters are satisfied, but a trait is missing that surplus name matches pay for,
      or a time of day is not as meant, or a criterion that is never read fails. */
  predicate TooEager(c: Context, r: Rule, p: Profile)
    requires Parsable(c, r)
  {
    && Present(r) && Unmet(c, r, p) <= Surplus(c.lib, r, p)
    && (UnmetTraits(c.lib, r, p) > 0 || !TimesMeant(c, r, p) || !UnreadHold(c, r, p))
  }

  /** Everything asked for holds, but nothing of it is ever read, or times of day that are
      as meant are refused, and surplus name matches do not pay for that. */
  predicate TooStrict(c: Context, r: Rule, p: Profile)
    requires Parsable(c, r)
  {
    && UnmetTraits(c.lib, r, p) == 0 && TimesMeant(c, r, p) && UnreadHold(c, r, p)
    && (if Present(r) then UnmetTimes(c, r, p) > Surplus(c.lib, r, p) else UnreadPresent(r))
  }

  /** A live rule without a matching exception is judged as documented exactly unless one
      of these is the case. */
  lemma DocumentedExactly(c: Context, r: Rule, p: Profile)
    requires Live(c, r) && Parsable(c, r) && !Excepted(c, r, p)
    ensures Verdict(c, r, p) && !AllMeant(c, r, p) <==> TooEager(c, r, p)
    ensures AllMeant(c, r, p) && !Verdict(c, r, p) <==> TooStrict(c, r, p)
  {
    NothingUnmet(c, r, p);
    TraitsUnmet(c.lib, r, p);
    hide TraitsHold, UnmetTraits, TimesMeant, UnmetTimes, UnreadHold;
  }

  // ---------------------------------------------------------------- exceptions

  predicate NamedAsWritten(lib: Library, names: seq<string>, p: Profile) {
    exists i :: 0 <= i < |names| && Hit(lib.matches(names[i], p.name))
  }

  predicate NamedInAnyCase(lib: Library, names: seq<string>, p: Profile) {
    exists i :: 0 <= i < |names| && Insensitive(lib, names[i], p.name)
  }

  /** The times of an exception: it has some, and they all hold. */
  predicate TimespecTrue(c: Context, ts: Timespec, p: Profile) {
    && ts != NO_TIMES
    && (ts.before != "" ==> c.lib.toTime(ts.before).Some? && BeforeMeant(c.time, c.lib.toTime(ts.before).value))
    && (ts.after != "" ==> c.lib.toTime(ts.after).Some? && AfterMeant(c.time, c.lib.toTime(ts.after).value))
    && (ts.every != "" ==> c.lib.due(ts.every, c.time))
    && (ts.playTime != "" ==>
          PlaySeconds(c, ts.playTime).Some? && c.time.unix - p.connectTime >= PlaySeconds(c, ts.playTime).value)
  }

  /** A criterion holds that the code never reads. */
  predicate UnreadMatches(c: Context, ex: Exception, p: Profile) {
    AnyClient(c.lib, ex.client, p) || TimespecTrue(c, ex.timespec, p)
  }

  /** An exception as it is documented: its names matched in any case, the client version
      and the times as good as every other criterion. */
  predicate DocumentedMatch(c: Context, ex: Exception, p: Profile) {
    && !(ex.expirationTime > 0 && c.now > ex.expirationTime)
    && (OtherwiseMatches(c, ex, p) || NamedInAnyCase(c.lib, ex.name, p) || UnreadMatches(c, ex, p))
  }

  /** A criterion other than the names holds of those that are read. */
  predicate OtherwiseMatches(c: Context, ex: Exception, p: Profile) {
    || AnyAddress(c.lib, ex.address, p)
    || AnyHost(c.lib, ex.hostname, p)
    || (exists i :: 0 <= i < |ex.userInfo| && ExceptionUserinfo(c.lib, ex.userInfo[i], p))
  }

  /** An exception matches as documented exactly when expired, or when another criterion
      that is read holds, or when its names as written hit just if they do in any case or a
      criterion holds that is never read. */
  lemma ExceptionExactly(c: Context, ex: Exception, p: Profile)
    ensures ExceptionMatch(c, ex, p) == DocumentedMatch(c, ex, p) <==>
              || (ex.expirationTime > 0 && c.now > ex.expirationTime)
              || OtherwiseMatches(c, ex, p)
              || (NamedAsWritten(c.lib, ex.name, p)
                  <==> NamedInAnyCase(c.lib, ex.name, p) || UnreadMatches(c, ex, p))
  {
    assert ExceptionMatch(c, ex, p) <==>
        !(ex.expirationTime > 0 && c.now > ex.expirationTime)
        && (OtherwiseMatches(c, ex, p) || NamedAsWritten(c.lib, ex.name, p));
  }

  /** A player called Bob, banned by name: the exception for "bob" does not help, although
      the rule for "bob" applies. */
  lemma ExceptionForBobMisses(c: Context, p: Profile)
    requires p.name == "Bob"
    requires c.lib.matches("(?i)bob", "Bob") == Some(true) && c.lib.matches("bob", "Bob") == Some(false)
    ensures var ex := NOBODY.(name := ["bob"]);
            var r := ByName(Ban, ["bob"]).(exceptions := [ex]);
            Verdict(c, r, p) && DocumentedMatch(c, ex, p) && !ExceptionMatch(c, ex, p)
  {
    var ex := NOBODY.(name := ["bob"]);
    var r := ByName(Ban, ["bob"]).(exceptions := [ex]);
    assert "(?i)" + "bob" == "(?i)bob";
    OneName(c.lib, "bob", p);
    NeedHaveIsConjunction(c, r, p);
    ExceptionExactly(c, ex, p);
    assert !ExceptionMatch(c, ex, p);
    assert !Excepted(c, r, p);
  }

  /** An exception for a client version helps nobody. */
  lemma ExceptionForClientMisses(c: Context, p: Profile)
    requires AnyClient(c.lib, ["q2pro"], p)
    ensures var ex := NOBODY.(client := ["q2pro"]);
            DocumentedMatch(c, ex, p) && !ExceptionMatch(c, ex, p)
  {
    ExceptionExactly(c, NOBODY.(client := ["q2pro"]), p);
  }

  // ---------------------------------------------------------------- play times

  /** A play time every order of the units reads alike. */
  predicate Steady(lib: Library, r: Rule) {
    !Durations.Overloaded(lib.toFloat, Durations.Trim(r.timespec.playTime))
  }

  /** The verdict on a rule with a steady play time does not depend on the order in which
      the units happen to be tried, so it is the same in every check at one time. */
  lemma SteadyVerdict(c: Context, order: Durations.Order, r: Rule, p: Profile)
    requires Steady(c.lib, r)
    ensures Verdict(c.(order := order), r, p) == Verdict(c, r, p)
  {
    var d := c.(order := order);
    Durations.OrderIndependentIff(c.lib.toFloat, r.timespec.playTime);
    assert PlaySeconds(d, r.timespec.playTime) == PlaySeconds(c, r.timespec.playTime);
    assert forall i | 0 <= i < |r.exceptions| ::
        ExceptionMatch(d, r.exceptions[i], p) == ExceptionMatch(c, r.exceptions[i], p);
    assert Excepted(d, r, p) == Excepted(c, r, p);
    hide Excepted;
  }

  lemma PlayTimeDecides(c: Context, ts: string, p: Profile)
    requires ts != ""
    ensures var r := ByName(Ban, []).(timespec := NO_TIMES.(playTime := ts));
            Verdict(c, r, p) <==>
              PlaySeconds(c, ts).Some? && c.time.unix - p.connectTime >= PlaySeconds(c, ts).value
  {
    hide PlaySeconds;
    NeedHaveIsConjunction(c, ByName(Ban, []).(timespec := NO_TIMES.(playTime := ts)), p);
  }

  lemma Five()
    ensures Strings.AllDigits("5") && Strings.Value("5") == 5
    ensures "5" + ['m', 's'] == "5ms"
  {
    assert "5"[..0] == "";
  }

  lemma FiveOfSomething(f: Durations.Floats)
    ensures Durations.Parsed(f, "5ms", Durations.Backwards(['m', 's'])) == Durations.Seconds(300)
    ensures Durations.Parsed(f, "5ms", Durations.First('m')) == Durations.Invalid
  {
    hide Durations.Parsed, Durations.Backwards, Durations.First, Durations.Finish, Durations.Strip;
    hide Strings.Value, Strings.AllDigits;
    Five();
    Durations.OrderMatters(f, "5", 'm', 's');
  }

  /** A rule for players with five minutes of play, written "5ms", applies to one of them or
      not as the order has it. */
  lemma ShakyVerdict(c: Context, p: Profile) returns (o1: Durations.Order, o2: Durations.Order)
    requires c.time.unix - p.connectTime >= 300
    ensures var r := ByName(Ban, []).(timespec := NO_TIMES.(playTime := "5ms"));
            Verdict(c.(order := o1), r, p) && !Verdict(c.(order := o2), r, p)
  {
    hide Verdict, Durations.Parsed, Durations.Backwards, Durations.First;
    o1, o2 := Durations.Backwards(['m', 's']), Durations.First('m');
    FiveOfSomething(c.lib.toFloat);
    PlayTimeDecides(c.(order := o1), "5ms", p);
    PlayTimeDecides(c.(order := o2), "5ms", p);
  }
}
