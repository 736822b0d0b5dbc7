/**
 Matching a player against one rule. CIDR and regular-expression matching and the
 parsing of dates are library calls, here given by their results.
 */
module Rules {
  import opened Wrappers
  import Durations

  datatype RuleType = Mute | Ban | Message | Stifle | Unlisted(number: int)

  datatype UserInfo = UserInfo(property: string, value: string)

  /** An empty string stands for an absent time. */
  datatype Timespec = Timespec(before: string, after: string, every: string, playTime: string)

  datatype Exception = Exception(
    expirationTime: int,
    address: seq<string>,
    hostname: seq<string>,
    name: seq<string>,
    client: seq<string>,
    userInfo: seq<UserInfo>,
    timespec: Timespec)

  datatype Rule = Rule(
    kind: RuleType,
    disabled: bool,
    expirationTime: int,
    address: seq<string>,
    hostname: seq<string>,
    name: seq<string>,
    client: seq<string>,
    userInfo: seq<UserInfo>,
    vpn: bool,
    timespec: Timespec,
    exceptions: seq<Exception>,
    message: seq<string>,
    stifleLength: int)

  /** The fields of a player that rules look at, or are documented to: the code never reads
      the version. */
  datatype Profile = Profile(
    clientId: int,
    name: string,
    ip: string,
    hostname: string,
    version: string,
    vpn: bool,
    userinfo: map<string, string>,
    connectTime: int)

  /** A point in time: its order among instants, its Unix second, and its clock. */
  datatype Moment = Moment(instant: int, unix: int, hour: int, minute: int, second: int)

  /** What stringToTime makes of a timespec; `dated` is false for a time of day. */
  datatype When = When(dated: bool, at: Moment)

  /** The results of the library calls; None is an error. `due` is when an interval that
      something is to happen at comes round: the documentation has such intervals and no
      code does, so it is left open. */
  datatype Library = Library(
    inNetwork: (string, string) -> Option<bool>,
    matches: (string, string) -> Option<bool>,
    toTime: string -> Option<When>,
    toFloat: Durations.Floats,
    due: (string, Moment) -> bool)

  /** The rule engine's marks on a player. */
  datatype Flags = Flags(muted: bool, stifled: bool, stifleLength: int)

  /** The moment of a check: `now` is the clock read for exceptions, `order` the one in which
      the units of a duration happen to be tried. */
  datatype Context = Context(lib: Library, time: Moment, now: int, order: Durations.Order)

  /** A play time in seconds; None is an error. */
  function PlaySeconds(c: Context, ts: string): Option<int> {
    match Durations.Parsed(c.lib.toFloat, ts, c.order)
    case Seconds(n) => Some(n)
    case Invalid => None
  }

  // ---------------------------------------------------------------- single criteria

  predicate Hit(r: Option<bool>) { r == Some(true) }

  predicate Insensitive(lib: Library, pattern: string, text: string) {
    Hit(lib.matches("(?i)" + pattern, text))
  }

  predicate UserinfoMatches(lib: Library, ui: UserInfo, p: Profile) {
    ui.property in p.userinfo && Hit(lib.matches(ui.value, p.userinfo[ui.property]))
  }

  predicate AnyAddress(lib: Library, addresses: seq<string>, p: Profile) {
    exists i :: 0 <= i < |addresses| && Hit(lib.inNetwork(addresses[i], p.ip))
  }

  predicate AnyHost(lib: Library, hosts: seq<string>, p: Profile) {
    exists i :: 0 <= i < |hosts| && Insensitive(lib, hosts[i], p.hostname)
  }

  /** How many name patterns match: the loop over them has no break. */
  function NameHits(lib: Library, names: seq<string>, p: Profile): nat {
    if names == [] then 0
    else NameHits(lib, names[..|names| - 1], p) + if Insensitive(lib, names[|names| - 1], p.name) then 1 else 0
  }

  function UserinfoHits(lib: Library, uis: seq<UserInfo>, p: Profile): nat {
    if uis == [] then 0
    else UserinfoHits(lib, uis[..|uis| - 1], p) + if UserinfoMatches(lib, uis[|uis| - 1], p) then 1 else 0
  }

  /** Hour and minute are compared each on its own. */
  predicate BeforeHolds(t: Moment, w: When) {
    if w.dated then t.instant < w.at.instant else t.hour <= w.at.hour && t.minute <= w.at.minute
  }

  predicate AfterHolds(t: Moment, w: When) {
    if w.dated then t.instant > w.at.instant else t.hour >= w.at.hour && t.minute >= w.at.minute
  }

  predicate ExceptionMatch(c: Context, ex: Exception, p: Profile) {
    && !(ex.expirationTime > 0 && c.now > ex.expirationTime)
    && (|| AnyAddress(c.lib, ex.address, p)
        || AnyHost(c.lib, ex.hostname, p)
        || (exists i :: 0 <= i < |ex.name| && Hit(c.lib.matches(ex.name[i], p.name)))
        || (exists i :: 0 <= i < |ex.userInfo| && ExceptionUserinfo(c.lib, ex.userInfo[i], p)))
  }

  /** An absent property is matched as the empty string. */
  predicate ExceptionUserinfo(lib: Library, ui: UserInfo, p: Profile) {
    Hit(lib.matches(ui.value, if ui.property in p.userinfo then p.userinfo[ui.property] else ""))
  }

  predicate Excepted(c: Context, r: Rule, p: Profile) {
    exists i :: 0 <= i < |r.exceptions| && ExceptionMatch(c, r.exceptions[i], p)
  }

  // ---------------------------------------------------------------- the whole rule

  predicate Live(c: Context, r: Rule) {
    !r.disabled && !(r.expirationTime > 0 && c.time.unix > r.expirationTime)
  }

  predicate Parsable(c: Context, r: Rule) {
    && (r.timespec.before != "" ==> c.lib.toTime(r.timespec.before).Some?)
    && (r.timespec.after != "" ==> c.lib.toTime(r.timespec.after).Some?)
    && (r.timespec.playTime != "" ==> PlaySeconds(c, r.timespec.playTime).Some?)
  }

  predicate Present(r: Rule) {
    || r.address != [] || r.hostname != [] || r.name != [] || r.userInfo != [] || r.vpn
    || r.timespec.before != "" || r.timespec.after != "" || r.timespec.playTime != ""
  }

  predicate PlayedLongEnough(c: Context, r: Rule, p: Profile)
    requires r.timespec.playTime != "" && PlaySeconds(c, r.timespec.playTime).Some?
  {
    c.time.unix - p.connectTime >= PlaySeconds(c, r.timespec.playTime).value
  }

  /** The criteria a rule has that the code reads, each held to the code's own test of it. */
  predicate ReadHold(c: Context, r: Rule, p: Profile)
    requires Parsable(c, r)
  {
    TraitsHold(c.lib, r, p) && TimesHold(c, r, p)
  }

  predicate TimesHold(c: Context, r: Rule, p: Profile)
    requires Parsable(c, r)
  {
    && (r.timespec.before != "" ==> BeforeHolds(c.time, c.lib.toTime(r.timespec.before).value))
    && (r.timespec.after != "" ==> AfterHolds(c.time, c.lib.toTime(r.timespec.after).value))
    && (r.timespec.playTime != "" ==> PlayedLongEnough(c, r, p))
  }

  predicate TraitsHold(lib: Library, r: Rule, p: Profile) {
    && (r.address != [] ==> AnyAddress(lib, r.address, p))
    && (r.hostname != [] ==> AnyHost(lib, r.hostname, p))
    && (r.name != [] ==> exists i :: 0 <= i < |r.name| && Insensitive(lib, r.name[i], p.name))
    && (forall i | 0 <= i < |r.userInfo| :: UserinfoMatches(lib, r.userInfo[i], p))
    && (r.vpn ==> p.vpn)
  }

  /** The three time criteria, in the order CheckRule takes them. */
  predicate TimeHolds(c: Context, r: Rule, p: Profile, k: nat)
    requires Parsable(c, r) && k < 3
  {
    if k == 0 then r.timespec.before != "" && BeforeHolds(c.time, c.lib.toTime(r.timespec.before).value)
    else if k == 1 then r.timespec.after != "" && AfterHolds(c.time, c.lib.toTime(r.timespec.after).value)
    else r.timespec.playTime != "" && PlayedLongEnough(c, r, p)
  }

  function Missed(present: bool, holds: bool): nat {
    if present && !holds then 1 else 0
  }

  /** How many of the criteria asked for do not hold, each userinfo pair on its own. */
  function Unmet(c: Context, r: Rule, p: Profile): nat
    requires Parsable(c, r)
  {
    UnmetTraits(c.lib, r, p) + UnmetTimes(c, r, p)
  }

  function UnmetTraits(lib: Library, r: Rule, p: Profile): nat {
    Missed(r.address != [], AnyAddress(lib, r.address, p))
    + Missed(r.hostname != [], AnyHost(lib, r.hostname, p))
    + Missed(r.name != [], NameHits(lib, r.name, p) > 0)
    + (|r.userInfo| - UserinfoHitsBounded(lib, r.userInfo, p))
    + Missed(r.vpn, p.vpn)
  }

  function UnmetTimes(c: Context, r: Rule, p: Profile): nat
    requires Parsable(c, r)
  {
    Missed(r.timespec.before != "", TimeHolds(c, r, p, 0))
    + Missed(r.timespec.after != "", TimeHolds(c, r, p, 1))
    + Missed(r.timespec.playTime != "", TimeHolds(c, r, p, 2))
  }

  function UserinfoHitsBounded(lib: Library, uis: seq<UserInfo>, p: Profile): (n: nat)
    ensures n == UserinfoHits(lib, uis, p) <= |uis|
  {
    HitsBounded(lib, uis, p);
    UserinfoHits(lib, uis, p)
  }

  lemma {:induction false} HitsBounded(lib: Library, uis: seq<UserInfo>, p: Profile)
    ensures UserinfoHits(lib, uis, p) <= |uis|
    ensures UserinfoHits(lib, uis, p) == |uis| <==> forall i | 0 <= i < |uis| :: UserinfoMatches(lib, uis[i], p)
  {
    if uis != [] {
      var front := uis[..|uis| - 1];
      HitsBounded(lib, front, p);
      assert forall i | 0 <= i < |front| :: front[i] == uis[i];
      if forall i | 0 <= i < |front| :: UserinfoMatches(lib, front[i], p) {
        assert forall i | 0 <= i < |front| :: UserinfoMatches(lib, uis[i], p);
      }
    }
  }

  lemma {:induction false} SomeNameHit(lib: Library, names: seq<string>, p: Profile)
    ensures NameHits(lib, names, p) > 0 <==> exists i :: 0 <= i < |names| && Insensitive(lib, names[i], p.name)
  {
    if names != [] {
      var n := |names| - 1;
      SomeNameHit(lib, names[..n], p);
      if NameHits(lib, names, p) > 0 && !Insensitive(lib, names[n], p.name) {
        var i :| 0 <= i < n && Insensitive(lib, names[..n][i], p.name);
        assert Insensitive(lib, names[i], p.name);
      }
      if i :| 0 <= i < |names| && Insensitive(lib, names[i], p.name) {
        if i < n {
          assert Insensitive(lib, names[..n][i], p.name);
        }
      }
    }
  }

  /** Every name pattern matched beyond the first makes up for one unmet criterion. */
  function Surplus(lib: Library, r: Rule, p: Profile): nat {
    var hits := NameHits(lib, r.name, p);
    if hits > 1 then hits - 1 else 0
  }

  /** What CheckRule decides. */
  predicate Verdict(c: Context, r: Rule, p: Profile) {
    && Live(c, r) && Parsable(c, r)
    && Present(r) && Unmet(c, r, p) <= Surplus(c.lib, r, p)
    && !Excepted(c, r, p)
  }

  /** Some criterion holds, the userinfo pairs counting together: enough for CheckRule to
      mark the player, whether or not the rule applies. */
  predicate Touches(c: Context, r: Rule, p: Profile) {
    && Live(c, r) && Parsable(c, r)
    && (|| AnyAddress(c.lib, r.address, p)
        || AnyHost(c.lib, r.hostname, p)
        || NameHits(c.lib, r.name, p) > 0
        || (r.userInfo != [] && UserinfoHits(c.lib, r.userInfo, p) == |r.userInfo|)
        || (r.vpn && p.vpn)
        || (r.timespec.before != "" && BeforeHolds(c.time, c.lib.toTime(r.timespec.before).value))
        || (r.timespec.after != "" && AfterHolds(c.time, c.lib.toTime(r.timespec.after).value))
        || (r.timespec.playTime != "" && PlayedLongEnough(c, r, p)))
  }

  function Marked(c: Context, r: Rule, p: Profile, f: Flags): Flags {
    if !Touches(c, r, p) then f
    else if r.kind == Stifle then f.(stifled := true, stifleLength := r.stifleLength)
    else if r.kind == Mute then f.(muted := true)
    else f
  }

  class Player {
    const profile: Profile
    var muted: bool
    var stifled: bool
    var stifleLength: int

    constructor (profile: Profile)
      ensures this.profile == profile && State() == Flags(false, false, 0)
    {
      this.profile := profile;
      muted, stifled, stifleLength := false, false, 0;
    }

    function State(): Flags
      reads this
    {
      Flags(muted, stifled, stifleLength)
    }
  }

  // ---------------------------------------------------------------- the loops

  method FindAddress(lib: Library, addresses: seq<string>, p: Profile) returns (found: bool)
    ensures found == AnyAddress(lib, addresses, p)
  {
    for i := 0 to |addresses|
      invariant forall j | 0 <= j < i :: !Hit(lib.inNetwork(addresses[j], p.ip))
    {
      var contains := lib.inNetwork(addresses[i], p.ip);
      if contains.None? {
        continue;
      }
      if contains.value {
        return true;
      }
    }
    return false;
  }

  method FindHost(lib: Library, hosts: seq<string>, p: Profile) returns (found: bool)
    ensures found == AnyHost(lib, hosts, p)
  {
    for i := 0 to |hosts|
      invariant forall j | 0 <= j < i :: !Insensitive(lib, hosts[j], p.hostname)
    {
      var hm := lib.matches("(?i)" + hosts[i], p.hostname);
      if hm.None? {
        continue;
      }
      if hm.value {
        return true;
      }
    }
    return false;
  }

  method RuleExceptionMatch(c: Context, ex: Exception, p: Profile) returns (found: bool)
    ensures found == ExceptionMatch(c, ex, p)
  {
    if ex.expirationTime > 0 && c.now > ex.expirationTime {
      return false;
    }
    found := FindAddress(c.lib, ex.address, p);
    if found { return true; }
    found := FindHost(c.lib, ex.hostname, p);
    if found { return true; }
    for i := 0 to |ex.name|
      invariant forall j | 0 <= j < i :: !Hit(c.lib.matches(ex.name[j], p.name))
    {
      if Hit(c.lib.matches(ex.name[i], p.name)) {
        return true;
      }
    }
    for i := 0 to |ex.userInfo|
      invariant forall j | 0 <= j < i :: !ExceptionUserinfo(c.lib, ex.userInfo[j], p)
    {
      if ExceptionUserinfo(c.lib, ex.userInfo[i], p) {
        return true;
      }
    }
    return false;
  }

  method FindException(c: Context, r: Rule, p: Profile) returns (found: bool)
    ensures found == Excepted(c, r, p)
  {
    for i := 0 to |r.exceptions|
      invariant forall j | 0 <= j < i :: !ExceptionMatch(c, r.exceptions[j], p)
    {
      var matched := RuleExceptionMatch(c, r.exceptions[i], p);
      if matched {
        return true;
      }
    }
    return false;
  }

  method CountNames(lib: Library, names: seq<string>, p: Profile) returns (hits: nat)
    ensures hits == NameHits(lib, names, p)
  {
    hits := 0;
    for i := 0 to |names|
      invariant hits == NameHits(lib, names[..i], p)
    {
      assert names[..i + 1][..i] == names[..i];
      if Insensitive(lib, names[i], p.name) {
        hits := hits + 1;
      }
    }
    assert names[..|names|] == names;
  }

  method CountUserinfo(lib: Library, uis: seq<UserInfo>, p: Profile) returns (hits: nat)
    ensures hits == UserinfoHits(lib, uis, p)
  {
    hits := 0;
    for i := 0 to |uis|
      invariant hits == UserinfoHits(lib, uis[..i], p)
    {
      assert uis[..i + 1][..i] == uis[..i];
      if UserinfoMatches(lib, uis[i], p) {
        hits := hits + 1;
      }
    }
    assert uis[..|uis|] == uis;
  }

  /** The needs and haves of CheckRule, counted up to the timespec. */
  method CountCriteria(c: Context, p: Profile, r: Rule) returns (need: nat, have: nat, touched: bool)
    ensures need == Units(r)
    ensures have == Haves(c.lib, r, p)
    ensures touched <==>
              || AnyAddress(c.lib, r.address, p)
              || AnyHost(c.lib, r.hostname, p)
              || NameHits(c.lib, r.name, p) > 0
              || (r.userInfo != [] && UserinfoHits(c.lib, r.userInfo, p) == |r.userInfo|)
              || (r.vpn && p.vpn)
  {
    NothingListed(c.lib, r, p);
    hide AnyAddress, AnyHost, NameHits, UserinfoHits;
    need, have, touched := 0, 0, false;
    if |r.address| > 0 {
      need := need + 1;
      var found := FindAddress(c.lib, r.address, p);
      if found {
        have, touched := have + 1, true;
      }
    }
    if |r.hostname| > 0 {
      need := need + 1;
      var found := FindHost(c.lib, r.hostname, p);
      if found {
        have, touched := have + 1, true;
      }
    }
    if |r.name| > 0 {
      need := need + 1;
      var hits := CountNames(c.lib, r.name, p);
      have, touched := have + hits, touched || hits > 0;
    }
    if |r.userInfo| > 0 {
      var originalNeed, originalHave := need, have;
      var hits := CountUserinfo(c.lib, r.userInfo, p);
      need, have := need + |r.userInfo|, have + hits;
      if need - originalNeed == have - originalHave {
        touched := true;
      }
    }
    if r.vpn {
      need := need + 1;
      if p.vpn {
        have, touched := have + 1, true;
      }
    }
  }

  lemma NothingListed(lib: Library, r: Rule, p: Profile)
    ensures r.address == [] ==> !AnyAddress(lib, r.address, p)
    ensures r.hostname == [] ==> !AnyHost(lib, r.hostname, p)
    ensures r.name == [] ==> NameHits(lib, r.name, p) == 0
    ensures r.userInfo == [] ==> UserinfoHits(lib, r.userInfo, p) == 0
  {
  }

  function Bit(b: bool): nat { if b then 1 else 0 }

  function Units(r: Rule): nat {
    Bit(r.address != []) + Bit(r.hostname != []) + Bit(r.name != []) + |r.userInfo| + Bit(r.vpn)
  }

  function Haves(lib: Library, r: Rule, p: Profile): nat {
    Bit(AnyAddress(lib, r.address, p)) + Bit(AnyHost(lib, r.hostname, p))
    + NameHits(lib, r.name, p) + UserinfoHits(lib, r.userInfo, p) + Bit(r.vpn && p.vpn)
  }

  function TimeUnits(r: Rule): nat {
    Bit(r.timespec.before != "") + Bit(r.timespec.after != "") + Bit(r.timespec.playTime != "")
  }

  function TimeHaves(c: Context, r: Rule, p: Profile): nat
    requires Parsable(c, r)
  {
    Bit(TimeHolds(c, r, p, 0)) + Bit(TimeHolds(c, r, p, 1)) + Bit(TimeHolds(c, r, p, 2))
  }

  /** The counters decide the verdict, and the marks follow the `match` flag alone. */
  method CheckRule(c: Context, p: Player, r: Rule) returns (applies: bool)
    modifies p
    ensures applies == Verdict(c, r, p.profile)
    ensures p.State() == Marked(c, r, p.profile, old(p.State()))
  {
    if r.disabled {
      return false;
    }
    if r.expirationTime > 0 && c.time.unix > r.expirationTime {
      return false;
    }
    var need, have, touched := CountCriteria(c, p.profile, r);
    var readable, times, held := CountTimes(c, p.profile, r);
    if !readable {
      return false;
    }
    need, have, touched := need + times, have + held, touched || held > 0;
    var exception := FindException(c, r, p.profile);
    applies := touched && need <= have && !exception;
    TouchedByTimes(c, r, p.profile);
    CountersDecide(c, r, p.profile, need, have, touched);
    hide Touches, Present, Unmet, Surplus, Excepted, Parsable;
    if touched {
      if r.kind == Stifle {
        p.stifled := true;
        p.stifleLength := r.stifleLength;
      }
      if r.kind == Mute {
        p.muted := true;
      }
    }
  }

  lemma TouchedByTimes(c: Context, r: Rule, p: Profile)
    requires Live(c, r) && Parsable(c, r)
    ensures Touches(c, r, p) <==>
              || AnyAddress(c.lib, r.address, p)
              || AnyHost(c.lib, r.hostname, p)
              || NameHits(c.lib, r.name, p) > 0
              || (r.userInfo != [] && UserinfoHits(c.lib, r.userInfo, p) == |r.userInfo|)
              || (r.vpn && p.vpn)
              || TimeHaves(c, r, p) > 0
  {
    hide AnyAddress, AnyHost, NameHits, UserinfoHits;
  }

  /** The needs and haves of the timespec; one that cannot be read ends the check. */
  method CountTimes(c: Context, p: Profile, r: Rule) returns (readable: bool, need: nat, have: nat)
    ensures readable == Parsable(c, r)
    ensures readable ==> need == TimeUnits(r) && have == TimeHaves(c, r, p)
  {
    hide BeforeHolds, AfterHolds, Durations.Parsed;
    readable, need, have := false, 0, 0;
    var ts := r.timespec;
    if |ts.before| > 0 {
      need := need + 1;
      var when := c.lib.toTime(ts.before);
      if when.None? {
        return;
      }
      if BeforeHolds(c.time, when.value) {
        have := have + 1;
      }
    }
    if |ts.after| > 0 {
      need := need + 1;
      var when := c.lib.toTime(ts.after);
      if when.None? {
        return;
      }
      if AfterHolds(c.time, when.value) {
        have := have + 1;
      }
    }
    if |ts.playTime| > 0 {
      need := need + 1;
      var limit := Durations.DurationToSeconds(c.lib.toFloat, ts.playTime, c.order);
      if limit.Invalid? {
        return;
      }
      if c.time.unix - p.connectTime >= limit.n {
        have := have + 1;
      }
    }
    readable := true;
  }

  /** `match && need <= have` of the code is `Present && Unmet <= Surplus`. */
  lemma CountersDecide(c: Context, r: Rule, p: Profile, need: nat, have: nat, touched: bool)
    requires Live(c, r) && Parsable(c, r)
    requires need == Units(r) + TimeUnits(r)
    requires have == Haves(c.lib, r, p) + TimeHaves(c, r, p)
    requires touched == Touches(c, r, p)
    ensures (touched && need <= have) == (Present(r) && Unmet(c, r, p) <= Surplus(c.lib, r, p))
    ensures (touched && need <= have) == (need > 0 && need <= have)
  {
    HitsBounded(c.lib, r.userInfo, p);
    TraitsBalance(c.lib, r, p);
    TimesBalance(c, r, p);
    var pairs := UserinfoHits(c.lib, r.userInfo, p);
    assert need > 0 <==> Present(r);
    assert touched ==> have > 0;
    assert have > 0 && !touched ==> have == pairs && pairs < |r.userInfo| <= need;
  }

  lemma TraitsBalance(lib: Library, r: Rule, p: Profile)
    ensures Units(r) - Haves(lib, r, p) == UnmetTraits(lib, r, p) - Surplus(lib, r, p)
  {
    var address, host := AnyAddress(lib, r.address, p), AnyHost(lib, r.hostname, p);
    assert address ==> r.address != [];
    assert host ==> r.hostname != [];
    assert NameHits(lib, r.name, p) > 0 ==> r.name != [];
  }

  lemma TimesBalance(c: Context, r: Rule, p: Profile)
    requires Parsable(c, r)
    ensures TimeUnits(r) - TimeHaves(c, r, p) == UnmetTimes(c, r, p)
  {
  }
}
