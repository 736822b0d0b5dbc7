/**
 Sets of rules: the severity sort, the check made when a player connects, and the
 periodic check of timed rules made by maintenance.
 */
module RuleSets {
  import opened Wrappers
  import opened Rules
  import opened RuleMeaning
  import Durations

  // ---------------------------------------------------------------- SortRules

  /** Bans before mutes before stifles before messages; other types have no place. */
  function Severity(r: Rule): nat {
    match r.kind
    case Ban => 0
    case Mute => 1
    case Stifle => 2
    case Message => 3
    case Unlisted(_) => 4
  }

  predicate Listed(r: Rule) { Severity(r) < 4 }

  /** The rules that satisfy a test, in their order. */
  function Keep(test: Rule -> bool, rs: seq<Rule>): seq<Rule> {
    if rs == [] then []
    else Keep(test, rs[..|rs| - 1]) + if test(rs[|rs| - 1]) then [rs[|rs| - 1]] else []
  }

  function HasSeverity(n: nat): Rule -> bool {
    r => Severity(r) == n
  }

  function OfSeverity(rs: seq<Rule>, n: nat): seq<Rule> {
    Keep(HasSeverity(n), rs)
  }

  function Sorted(rs: seq<Rule>): seq<Rule> {
    OfSeverity(rs, 0) + OfSeverity(rs, 1) + OfSeverity(rs, 2) + OfSeverity(rs, 3)
  }

  method SortRules(rules: seq<Rule>) returns (sorted: seq<Rule>)
    ensures sorted == Sorted(rules)
  {
    var bans, mutes, stifles, msgs := [], [], [], [];
    if |rules| == 0 {
      return msgs;
    }
    for i := 0 to |rules|
      invariant bans == OfSeverity(rules[..i], 0)
      invariant mutes == OfSeverity(rules[..i], 1)
      invariant stifles == OfSeverity(rules[..i], 2)
      invariant msgs == OfSeverity(rules[..i], 3)
    {
      var r := rules[i];
      KeepOneMore(rules[..i], r);
      assert rules[..i + 1] == rules[..i] + [r];
      match r.kind {
        case Ban => bans := bans + [r];
        case Mute => mutes := mutes + [r];
        case Stifle => stifles := stifles + [r];
        case Message => msgs := msgs + [r];
        case Unlisted(_) =>
      }
    }
    assert rules[..|rules|] == rules;
    sorted := bans + mutes + stifles + msgs;
  }

  lemma KeepOneMore(rs: seq<Rule>, r: Rule)
    ensures forall test: Rule -> bool ::
              Keep(test, rs + [r]) == Keep(test, rs) + if test(r) then [r] else []
  {
    assert (rs + [r])[..|rs|] == rs;
  }

  predicate BySeverity(rs: seq<Rule>) {
    forall i, j | 0 <= i < j < |rs| :: Severity(rs[i]) <= Severity(rs[j])
  }

  lemma {:induction false} KeepAppend(test: Rule -> bool, a: seq<Rule>, b: seq<Rule>)
    ensures Keep(test, a + b) == Keep(test, a) + Keep(test, b)
    decreases |b|
  {
    if b == [] {
      assert a + b == a;
    } else {
      var n := |b| - 1;
      assert (a + b)[..|a| + n] == a + b[..n];
      KeepAppend(test, a, b[..n]);
    }
  }

  lemma {:induction false} KeepSatisfies(test: Rule -> bool, rs: seq<Rule>)
    ensures forall i | 0 <= i < |Keep(test, rs)| :: test(Keep(test, rs)[i])
  {
    if rs != [] {
      KeepSatisfies(test, rs[..|rs| - 1]);
    }
  }

  lemma {:induction false} KeepAll(test: Rule -> bool, rs: seq<Rule>)
    requires forall i | 0 <= i < |rs| :: test(rs[i])
    ensures Keep(test, rs) == rs
  {
    if rs != [] {
      var front := rs[..|rs| - 1];
      assert forall i | 0 <= i < |front| :: front[i] == rs[i];
      KeepAll(test, front);
      assert rs == front + [rs[|rs| - 1]];
    }
  }

  lemma {:induction false} KeepNone(test: Rule -> bool, rs: seq<Rule>)
    requires forall i | 0 <= i < |rs| :: !test(rs[i])
    ensures Keep(test, rs) == []
  {
    if rs != [] {
      var front := rs[..|rs| - 1];
      assert forall i | 0 <= i < |front| :: front[i] == rs[i];
      KeepNone(test, front);
    }
  }

  lemma {:induction false} KeepSwap(f: Rule -> bool, g: Rule -> bool, rs: seq<Rule>)
    ensures Keep(f, Keep(g, rs)) == Keep(g, Keep(f, rs))
  {
    if rs != [] {
      var n := |rs| - 1;
      var fs, gs := Keep(f, rs[..n]), Keep(g, rs[..n]);
      KeepSwap(f, g, rs[..n]);
      KeepOneMore(gs, rs[n]);
      KeepOneMore(fs, rs[n]);
      assert gs + [] == gs && fs + [] == fs;
    }
  }

  lemma PartOfPart(rs: seq<Rule>, k: nat, n: nat)
    ensures OfSeverity(OfSeverity(rs, k), n) == if k == n then OfSeverity(rs, n) else []
  {
    KeepSatisfies(HasSeverity(k), rs);
    var part := OfSeverity(rs, k);
    if k == n {
      KeepAll(HasSeverity(n), part);
    } else {
      assert forall i | 0 <= i < |part| :: HasSeverity(k)(part[i]);
      KeepNone(HasSeverity(n), part);
    }
  }

  lemma PartsAppend(a: seq<Rule>, b: seq<Rule>, n: nat)
    ensures OfSeverity(a + b, n) == OfSeverity(a, n) + OfSeverity(b, n)
  {
    KeepAppend(HasSeverity(n), a, b);
  }

  /** Stability: sorting leaves each type's rules in their order. */
  lemma SortStable(rs: seq<Rule>, n: nat)
    requires n < 4
    ensures OfSeverity(Sorted(rs), n) == OfSeverity(rs, n)
  {
    var a, b, c, d := OfSeverity(rs, 0), OfSeverity(rs, 1), OfSeverity(rs, 2), OfSeverity(rs, 3);
    hide OfSeverity;
    PartsAppend(a + b + c, d, n);
    PartsAppend(a + b, c, n);
    PartsAppend(a, b, n);
    PartOfPart(rs, 0, n);
    PartOfPart(rs, 1, n);
    PartOfPart(rs, 2, n);
    PartOfPart(rs, 3, n);
    OnlyPart(OfSeverity(rs, n), n);
  }

  lemma OnlyPart(x: seq<Rule>, n: nat)
    requires n < 4
    ensures (if 0 == n then x else []) + (if 1 == n then x else [])
            + (if 2 == n then x else []) + (if 3 == n then x else []) == x
  {
  }

  lemma PartSeverity(rs: seq<Rule>, n: nat)
    ensures forall i | 0 <= i < |OfSeverity(rs, n)| :: Severity(OfSeverity(rs, n)[i]) == n
  {
    KeepSatisfies(HasSeverity(n), rs);
  }

  lemma SortOrders(rs: seq<Rule>)
    ensures BySeverity(Sorted(rs)) && forall i | 0 <= i < |Sorted(rs)| :: Listed(Sorted(rs)[i])
  {
    var a, b, c, d := OfSeverity(rs, 0), OfSeverity(rs, 1), OfSeverity(rs, 2), OfSeverity(rs, 3);
    forall n: nat | n < 4
      ensures forall i | 0 <= i < |OfSeverity(rs, n)| :: Severity(OfSeverity(rs, n)[i]) == n
    {
      KeepSatisfies(HasSeverity(n), rs);
    }
    PartsOrdered(a, b, c, d);
  }

  lemma PartsOrdered(a: seq<Rule>, b: seq<Rule>, c: seq<Rule>, d: seq<Rule>)
    requires forall k | 0 <= k < |a| :: Severity(a[k]) == 0
    requires forall k | 0 <= k < |b| :: Severity(b[k]) == 1
    requires forall k | 0 <= k < |c| :: Severity(c[k]) == 2
    requires forall k | 0 <= k < |d| :: Severity(d[k]) == 3
    ensures BySeverity(a + b + c + d)
    ensures forall i | 0 <= i < |a + b + c + d| :: Listed((a + b + c + d)[i])
  {
    forall i | 0 <= i < |a + b + c + d|
      ensures Severity((a + b + c + d)[i])
              == if i < |a| then 0 else if i < |a + b| then 1 else if i < |a + b + c| then 2 else 3
    {
      SeverityAt(a, b, c, d, i);
    }
  }

  lemma SeverityAt(a: seq<Rule>, b: seq<Rule>, c: seq<Rule>, d: seq<Rule>, i: nat)
    requires forall k | 0 <= k < |a| :: Severity(a[k]) == 0
    requires forall k | 0 <= k < |b| :: Severity(b[k]) == 1
    requires forall k | 0 <= k < |c| :: Severity(c[k]) == 2
    requires forall k | 0 <= k < |d| :: Severity(d[k]) == 3
    requires i < |a + b + c + d|
    ensures Severity((a + b + c + d)[i])
            == if i < |a| then 0 else if i < |a + b| then 1 else if i < |a + b + c| then 2 else 3
  {
  }

  /** The kinds in full: first the bans, then the mutes, the stifles and the messages. */
  lemma SortedByKind(rs: seq<Rule>)
    ensures Sorted(rs)
            == Keep((r: Rule) => r.kind == Ban, rs) + Keep((r: Rule) => r.kind == Mute, rs)
               + Keep((r: Rule) => r.kind == Stifle, rs) + Keep((r: Rule) => r.kind == Message, rs)
  {
    hide Keep;
    KeepSame(HasSeverity(0), (r: Rule) => r.kind == Ban, rs);
    KeepSame(HasSeverity(1), (r: Rule) => r.kind == Mute, rs);
    KeepSame(HasSeverity(2), (r: Rule) => r.kind == Stifle, rs);
    KeepSame(HasSeverity(3), (r: Rule) => r.kind == Message, rs);
  }

  lemma {:induction false} KeepSame(f: Rule -> bool, g: Rule -> bool, rs: seq<Rule>)
    requires forall r :: f(r) == g(r)
    ensures Keep(f, rs) == Keep(g, rs)
  {
    if rs != [] {
      KeepSame(f, g, rs[..|rs| - 1]);
    }
  }

  lemma PartOneMore(rs: seq<Rule>, r: Rule, n: nat)
    ensures OfSeverity(rs + [r], n) == OfSeverity(rs, n) + if Severity(r) == n then [r] else []
  {
    KeepOneMore(rs, r);
  }

  lemma NothingAbove(rs: seq<Rule>, n: nat, m: nat)
    requires m > n && forall i | 0 <= i < |rs| :: Severity(rs[i]) <= n
    ensures OfSeverity(rs, m) == []
  {
    KeepNone(HasSeverity(m), rs);
  }

  /** Appending a rule at least as mild as all others appends it to the sorted list. */
  lemma SortedOneMore(rs: seq<Rule>, r: Rule)
    requires Listed(r) && forall i | 0 <= i < |rs| :: Severity(rs[i]) <= Severity(r)
    ensures Sorted(rs + [r]) == Sorted(rs) + [r]
  {
    hide OfSeverity;
    var n := Severity(r);
    forall m: nat | m < 4
      ensures OfSeverity(rs + [r], m) == OfSeverity(rs, m) + if n == m then [r] else []
      ensures m > n ==> OfSeverity(rs, m) == []
    {
      PartOneMore(rs, r, m);
      if m > n {
        NothingAbove(rs, n, m);
      }
    }
    AppendAt(OfSeverity(rs, 0), OfSeverity(rs, 1), OfSeverity(rs, 2), OfSeverity(rs, 3), r, n);
  }

  lemma AppendAt(a: seq<Rule>, b: seq<Rule>, c: seq<Rule>, d: seq<Rule>, r: Rule, n: nat)
    requires n < 4 && (n < 1 ==> b == []) && (n < 2 ==> c == []) && (n < 3 ==> d == [])
    ensures (a + if n == 0 then [r] else []) + (b + if n == 1 then [r] else [])
            + (c + if n == 2 then [r] else []) + (d + if n == 3 then [r] else [])
            == a + b + c + d + [r]
  {
  }

  /** A list of listed rules in severity order is its parts one after another. */
  lemma {:induction false} OrderedIsParts(rs: seq<Rule>)
    requires BySeverity(rs) && forall i | 0 <= i < |rs| :: Listed(rs[i])
    ensures Sorted(rs) == rs
  {
    if rs != [] {
      var front, last := rs[..|rs| - 1], rs[|rs| - 1];
      OrderedIsParts(front);
      SortedOneMore(front, last);
      assert rs == front + [last];
    }
  }

  /** Sorting is the only stable arrangement of the listed rules by severity: any list
      with the same rules of each type, in severity order, is the sorted one. */
  lemma SortUnique(rs: seq<Rule>, other: seq<Rule>)
    requires BySeverity(other) && forall i | 0 <= i < |other| :: Listed(other[i])
    requires forall n: nat | n < 4 :: OfSeverity(other, n) == OfSeverity(rs, n)
    ensures other == Sorted(rs)
  {
    OrderedIsParts(other);
  }

  lemma SortIdempotent(rs: seq<Rule>)
    ensures Sorted(Sorted(rs)) == Sorted(rs)
  {
    SortOrders(rs);
    OrderedIsParts(Sorted(rs));
  }

  lemma {:induction false} KeepCount(test: Rule -> bool, rs: seq<Rule>, r: Rule)
    ensures multiset(Keep(test, rs))[r] == if test(r) then multiset(rs)[r] else 0
  {
    if rs != [] {
      KeepCount(test, rs[..|rs| - 1], r);
      assert rs == rs[..|rs| - 1] + [rs[|rs| - 1]];
    }
  }

  /** Sorting keeps every listed rule as often as it stands in the set, and no other. */
  lemma SortPermutes(rs: seq<Rule>, r: Rule)
    ensures multiset(Sorted(rs))[r] == if Listed(r) then multiset(rs)[r] else 0
  {
    KeepCount(HasSeverity(0), rs, r);
    KeepCount(HasSeverity(1), rs, r);
    KeepCount(HasSeverity(2), rs, r);
    KeepCount(HasSeverity(3), rs, r);
    assert multiset(Sorted(rs)) == multiset(OfSeverity(rs, 0)) + multiset(OfSeverity(rs, 1))
                                   + multiset(OfSeverity(rs, 2)) + multiset(OfSeverity(rs, 3));
  }

  /** Sorting and then selecting is selecting and then sorting. */
  lemma SortKeepCommute(test: Rule -> bool, rs: seq<Rule>)
    ensures Keep(test, Sorted(rs)) == Sorted(Keep(test, rs))
  {
    var a, b, c, d := OfSeverity(rs, 0), OfSeverity(rs, 1), OfSeverity(rs, 2), OfSeverity(rs, 3);
    KeepAppend(test, a + b + c, d);
    KeepAppend(test, a + b, c);
    KeepAppend(test, a, b);
    KeepSwap(test, HasSeverity(0), rs);
    KeepSwap(test, HasSeverity(1), rs);
    KeepSwap(test, HasSeverity(2), rs);
    KeepSwap(test, HasSeverity(3), rs);
  }

  // ---------------------------------------------------------------- CheckRules

  function Applies(c: Context, p: Profile): Rule -> bool {
    r => Verdict(c, r, p)
  }

  /** The rules that apply to a player, in severity order. */
  function Matching(c: Context, p: Profile, rs: seq<Rule>): seq<Rule> {
    Keep(Applies(c, p), Sorted(rs))
  }

  /** The marks left by checking rules one after another. */
  function MarkedBy(c: Context, rs: seq<Rule>, p: Profile, f: Flags): Flags {
    if rs == [] then f else Marked(c, rs[|rs| - 1], p, MarkedBy(c, rs[..|rs| - 1], p, f))
  }

  /** The connect path: sort, then check each rule, at one fixed time. Earlier checks mark
      the player, but no later verdict depends on the marks. */
  method CheckRules(c: Context, p: Player, ruleset: seq<Rule>) returns (matched: bool, rules: seq<Rule>)
    modifies p
    ensures rules == Matching(c, p.profile, ruleset) && matched == (rules != [])
    ensures p.State() == MarkedBy(c, Sorted(ruleset), p.profile, old(p.State()))
  {
    rules := [];
    var sorted := SortRules(ruleset);
    ghost var test := Applies(c, p.profile);
    for i := 0 to |sorted|
      invariant rules == Keep(test, sorted[..i])
      invariant p.State() == MarkedBy(c, sorted[..i], p.profile, old(p.State()))
    {
      var applies := CheckRule(c, p, sorted[i]);
      KeepOneMore(sorted[..i], sorted[i]);
      assert sorted[..i + 1] == sorted[..i] + [sorted[i]];
      if applies {
        rules := rules + [sorted[i]];
      }
    }
    assert sorted[..|sorted|] == sorted;
    matched := |rules| > 0;
  }

  /** The marks that decide what happens to stifles: a player is muted after the checks
      exactly if already so, or if some mute rule touches the player. */
  lemma {:induction false} MutedAfter(c: Context, rs: seq<Rule>, p: Profile, f: Flags)
    ensures MarkedBy(c, rs, p, f).muted <==>
              f.muted || exists i :: 0 <= i < |rs| && rs[i].kind == Mute && Touches(c, rs[i], p)
  {
    if rs != [] {
      var n := |rs| - 1;
      MutedAfter(c, rs[..n], p, f);
      assert forall i | 0 <= i < n :: rs[..n][i] == rs[i];
      if MarkedBy(c, rs[..n], p, f).muted && !f.muted {
        var i :| 0 <= i < n && rs[..n][i].kind == Mute && Touches(c, rs[..n][i], p);
        assert rs[i].kind == Mute && Touches(c, rs[i], p);
      }
    }
  }

  // ---------------------------------------------------------------- maintenance

  predicate HasPlayTime(r: Rule) { r.timespec.playTime != "" }

  predicate HasAfter(r: Rule) { r.timespec.after != "" }

  /** What one rule adds to the matches of a maintenance run: it is checked for each of its
      two times, the second time in a context of its own. */
  function TwoChecks(c: Context, again: Context, p: Profile, r: Rule): seq<Rule> {
    (if HasPlayTime(r) && Verdict(c, r, p) then [r] else [])
    + (if HasAfter(r) && Verdict(again, r, p) then [r] else [])
  }

  /** The same with units tried in one order throughout. */
  function TimedMatch(c: Context, p: Profile, r: Rule): seq<Rule> {
    TwoChecks(c, c, p, r)
  }

  function TimedMatches(c: Context, p: Profile, rs: seq<Rule>): seq<Rule> {
    if rs == [] then [] else TimedMatches(c, p, rs[..|rs| - 1]) + TimedMatch(c, p, rs[|rs| - 1])
  }

  /** The rules maintenance looks at. */
  function Timed(): Rule -> bool {
    r => HasPlayTime(r) || HasAfter(r)
  }

  lemma {:induction false} MarkedOneMore(c: Context, rs: seq<Rule>, r: Rule, p: Profile, f: Flags)
    ensures MarkedBy(c, rs + [r], p, f) == Marked(c, r, p, MarkedBy(c, rs, p, f))
  {
    assert (rs + [r])[..|rs|] == rs;
  }

  lemma MarkedTwice(c: Context, r: Rule, p: Profile, f: Flags)
    ensures Marked(c, r, p, Marked(c, r, p, f)) == Marked(c, r, p, f)
  {
    hide Touches;
  }

  /** What maintenance does with one rule. */
  method CheckTimes(c: Context, again: Context, p: Player, r: Rule) returns (matches: seq<Rule>)
    modifies p
    ensures matches == TwoChecks(c, again, p.profile, r)
    ensures var first := if HasPlayTime(r) then Marked(c, r, p.profile, old(p.State())) else old(p.State());
            p.State() == if HasAfter(r) then Marked(again, r, p.profile, first) else first
  {
    hide Marked, Verdict;
    matches := [];
    if HasPlayTime(r) {
      var applies := CheckRule(c, p, r);
      if applies {
        matches := matches + [r];
      }
    }
    if HasAfter(r) {
      var applies := CheckRule(again, p, r);
      if applies {
        matches := matches + [r];
      }
    }
  }

  lemma TimedMatchIs(c: Context, p: Profile, r: Rule)
    ensures TimedMatch(c, p, r) == TwoChecks(c, c, p, r)
  {
  }

  lemma TimedOneMore(c: Context, p: Profile, rs: seq<Rule>, r: Rule)
    ensures TimedMatches(c, p, rs + [r]) == TimedMatches(c, p, rs) + TimedMatch(c, p, r)
  {
    hide TimedMatch;
    assert (rs + [r])[..|rs|] == rs;
  }

  /** The maintenance path for one player. The player is a copy of the table's entry. */
  method CheckTimedRules(c: Context, p: Player, rules: seq<Rule>) returns (matches: seq<Rule>)
    modifies p
    ensures matches == Sorted(TimedMatches(c, p.profile, rules))
    ensures p.State() == MarkedBy(c, Keep(Timed(), rules), p.profile, old(p.State()))
  {
    matches := [];
    ghost var before := p.State();
    ghost var timed := Timed();
    hide TimedMatch, Marked, HasPlayTime, HasAfter, Sorted, Timed;
    for i := 0 to |rules|
      invariant matches == TimedMatches(c, p.profile, rules[..i])
      invariant p.State() == MarkedBy(c, Keep(timed, rules[..i]), p.profile, before)
    {
      var r := rules[i];
      assert rules[..i + 1] == rules[..i] + [r];
      KeepOneMore(rules[..i], r);
      TimedOneMore(c, p.profile, rules[..i], r);
      MarkedOneMore(c, Keep(timed, rules[..i]), r, p.profile, before);
      assert Keep(timed, rules[..i]) + [] == Keep(timed, rules[..i]);
      MarkedTwice(c, r, p.profile, p.State());
      assert timed(r) <==> HasPlayTime(r) || HasAfter(r);
      var more := CheckTimes(c, c, p, r);
      assert more == TimedMatch(c, p.profile, r) by { TimedMatchIs(c, p.profile, r); }
      matches := matches + more;
    }
    assert rules[..|rules|] == rules;
    matches := SortRules(matches);
  }

  /** The rules maintenance lists once, as the connect path does. */
  predicate TimedOnce(r: Rule) { (r.timespec.playTime != "") != (r.timespec.after != "") }

  lemma {:induction false} TimedCount(c: Context, p: Profile, rs: seq<Rule>, r: Rule)
    ensures multiset(TimedMatches(c, p, rs))[r] == |TimedMatch(c, p, r)| * multiset(rs)[r]
  {
    hide TimedMatch;
    if rs != [] {
      var front, last := rs[..|rs| - 1], rs[|rs| - 1];
      assert TimedMatches(c, p, rs) == TimedMatches(c, p, front) + TimedMatch(c, p, last);
      hide TimedMatches;
      TimedCount(c, p, front, r);
      CountOneMore(rs, r);
      CountConcat(TimedMatches(c, p, front), TimedMatch(c, p, last), r);
      TimedMatchCount(c, p, last, r);
      Distribute(|TimedMatch(c, p, r)|, multiset(front)[r]);
    }
  }

  lemma CountConcat(a: seq<Rule>, b: seq<Rule>, r: Rule)
    ensures multiset(a + b)[r] == multiset(a)[r] + multiset(b)[r]
  {
  }

  lemma CountOneMore(rs: seq<Rule>, r: Rule)
    requires rs != []
    ensures multiset(rs)[r] == multiset(rs[..|rs| - 1])[r] + if rs[|rs| - 1] == r then 1 else 0
  {
    assert rs == rs[..|rs| - 1] + [rs[|rs| - 1]];
  }

  lemma TimedMatchCount(c: Context, p: Profile, last: Rule, r: Rule)
    ensures multiset(TimedMatch(c, p, last))[r] == if last == r then |TimedMatch(c, p, r)| else 0
  {
  }

  lemma Distribute(k: nat, m: nat)
    ensures k * (m + 1) == k * m + k
  {
  }

  lemma {:induction false} TimedOnceIsKeep(c: Context, p: Profile, rs: seq<Rule>, n: nat)
    requires n < 4
    requires forall i | 0 <= i < |rs| :: Listed(rs[i]) && Verdict(c, rs[i], p) ==> TimedOnce(rs[i])
    ensures OfSeverity(TimedMatches(c, p, rs), n) == OfSeverity(Keep(Applies(c, p), rs), n)
  {
    if rs != [] {
      var front, last := rs[..|rs| - 1], rs[|rs| - 1];
      assert forall i | 0 <= i < |front| :: front[i] == rs[i];
      TimedOnceIsKeep(c, p, front, n);
      KeepAppend(HasSeverity(n), TimedMatches(c, p, front), TimedMatch(c, p, last));
      var applying := if Verdict(c, last, p) then [last] else [];
      KeepAppend(HasSeverity(n), Keep(Applies(c, p), front), applying);
      SamePart(c, p, last, n);
    }
  }

  lemma SamePart(c: Context, p: Profile, r: Rule, n: nat)
    requires n < 4 && (Listed(r) && Verdict(c, r, p) ==> TimedOnce(r))
    ensures OfSeverity(TimedMatch(c, p, r), n) == OfSeverity(if Verdict(c, r, p) then [r] else [], n)
  {
    if Verdict(c, r, p) && !TimedOnce(r) {
      assert !Listed(r);
      KeepNone(HasSeverity(n), TimedMatch(c, p, r));
      KeepNone(HasSeverity(n), [r]);
    }
  }

  /** Maintenance and the connect path give the same list for the same rules at the same
      time exactly when every applying rule of a listed type carries one of play time and
      after, and not both: with neither it is not looked at, with both it is listed twice. */
  lemma PathsAgreeExactly(c: Context, p: Profile, rs: seq<Rule>)
    ensures Sorted(TimedMatches(c, p, rs)) == Matching(c, p, rs)
            <==> forall i | 0 <= i < |rs| :: Listed(rs[i]) && Verdict(c, rs[i], p) ==> TimedOnce(rs[i])
  {
    var test := Applies(c, p);
    SortKeepCommute(test, rs);
    if forall i | 0 <= i < |rs| :: Listed(rs[i]) && Verdict(c, rs[i], p) ==> TimedOnce(rs[i]) {
      TimedOnceIsKeep(c, p, rs, 0);
      TimedOnceIsKeep(c, p, rs, 1);
      TimedOnceIsKeep(c, p, rs, 2);
      TimedOnceIsKeep(c, p, rs, 3);
    }
    if Sorted(TimedMatches(c, p, rs)) == Matching(c, p, rs) {
      forall i | 0 <= i < |rs| && Listed(rs[i]) && Verdict(c, rs[i], p) ensures TimedOnce(rs[i]) {
        var r := rs[i];
        SortPermutes(TimedMatches(c, p, rs), r);
        SortPermutes(Keep(test, rs), r);
        TimedCount(c, p, rs, r);
        KeepCount(test, rs, r);
        assert r in multiset(rs);
        var k, m := |TimedMatch(c, p, r)|, multiset(rs)[r];
        assert k * m == m && m > 0;
        assert k == 1 by { OnlyOne(k, m); }
      }
    }
  }

  lemma OnlyOne(k: nat, m: nat)
    requires k * m == m && m > 0
    ensures k == 1
  {
  }

  lemma SortedCopies(r: Rule)
    requires Listed(r)
    ensures Sorted([]) == [] && Sorted([r]) == [r] && Sorted([r, r]) == [r, r]
  {
    hide Sorted;
    OrderedIsParts([]);
    OrderedIsParts([r]);
    OrderedIsParts([r, r]);
  }

  lemma OnlyRule(c: Context, p: Profile, r: Rule, test: Rule -> bool)
    requires test(r)
    ensures Keep(test, [r]) == [r] && TimedMatches(c, p, [r]) == TimedMatch(c, p, r)
  {
    hide TimedMatch;
    TimedOneMore(c, p, [], r);
    assert [] + [r] == [r];
    KeepOneMore([], r);
  }

  lemma TwoOfOne(c: Context, again: Context, p: Profile, r: Rule)
    requires Verdict(c, r, p) && Verdict(again, r, p)
    ensures TwoChecks(c, again, p, r)
            == if HasPlayTime(r) && HasAfter(r) then [r, r] else if TimedOnce(r) then [r] else []
  {
    hide Verdict;
    assert [r] + [r] == [r, r];
  }

  /** Any applying rule of a listed type whose play time is steady shows the difference,
      in whatever orders the two checks try the units: with both times maintenance lists it
      twice, with neither not at all; on connect it is listed once. */
  lemma OneRuleOnBothPaths(c: Context, order: Durations.Order, p: Profile, r: Rule)
    requires Listed(r) && Verdict(c, r, p) && Steady(c.lib, r)
    ensures Matching(c, p, [r]) == [r]
    ensures Sorted(TwoChecks(c, c.(order := order), p, r))
            == if r.timespec.playTime != "" && r.timespec.after != "" then [r, r]
               else if r.timespec.playTime != "" || r.timespec.after != "" then [r] else []
  {
    SteadyVerdict(c, order, r, p);
    SortedCopies(r);
    OnlyRule(c, p, r, Applies(c, p));
    TwoOfOne(c, c.(order := order), p, r);
    hide Verdict, Sorted, Keep, TimedMatches, TwoChecks, Listed;
  }

  /** Otherwise the two checks may differ, and maintenance may list the rule once. */
  lemma ShakyRuleListedOnce(c: Context, again: Context, p: Profile, r: Rule)
    requires Verdict(c, r, p) != Verdict(again, r, p) && HasPlayTime(r) && HasAfter(r)
    ensures TwoChecks(c, again, p, r) == [r]
  {
    hide Verdict;
    assert [r] + [] == [r] && [] + [r] == [r];
  }

  // ---------------------------------------------------------------- the two real sets

  /** A connecting player is checked against the frontend's rules followed by those of the
      whole backend; maintenance looks at the frontend's alone. With no rule in both, the two
      give the same list exactly when no rule of the backend applies and each rule of the
      frontend that does is timed once, listed types only. */
  lemma RealPathsAgreeExactly(c: Context, p: Profile, own: seq<Rule>, backend: seq<Rule>)
    requires forall r | r in own :: r !in backend
    ensures Sorted(TimedMatches(c, p, own)) == Matching(c, p, own + backend) <==>
              && (forall i | 0 <= i < |own| :: Listed(own[i]) && Verdict(c, own[i], p) ==> TimedOnce(own[i]))
              && (forall i | 0 <= i < |backend| :: !(Listed(backend[i]) && Verdict(c, backend[i], p)))
  {
    hide Verdict;
    if forall i | 0 <= i < |backend| :: !(Listed(backend[i]) && Verdict(c, backend[i], p)) {
      IdleRules(c, p, own, backend);
      PathsAgreeExactly(c, p, own);
    } else {
      var i :| 0 <= i < |backend| && Listed(backend[i]) && Verdict(c, backend[i], p);
      MissedRule(c, p, own, backend, backend[i]);
    }
  }

  /** Rules of which no listed one applies add nothing on connect. */
  lemma IdleRules(c: Context, p: Profile, own: seq<Rule>, backend: seq<Rule>)
    requires forall i | 0 <= i < |backend| :: !(Listed(backend[i]) && Verdict(c, backend[i], p))
    ensures Matching(c, p, own + backend) == Matching(c, p, own)
  {
    hide Verdict, Keep, Sorted, Listed;
    var test := Applies(c, p);
    SortKeepCommute(test, own);
    SortKeepCommute(test, own + backend);
    KeepAppend(test, own, backend);
    IdleKept(c, p, backend);
    UnlistedVanish(Keep(test, own), Keep(test, backend));
  }

  lemma IdleKept(c: Context, p: Profile, rs: seq<Rule>)
    requires forall i | 0 <= i < |rs| :: !(Listed(rs[i]) && Verdict(c, rs[i], p))
    ensures forall i | 0 <= i < |Keep(Applies(c, p), rs)| :: !Listed(Keep(Applies(c, p), rs)[i])
  {
    hide Verdict, Listed;
    var kept := Keep(Applies(c, p), rs);
    KeepSatisfies(Applies(c, p), rs);
    forall i | 0 <= i < |kept| ensures !Listed(kept[i]) {
      assert Applies(c, p)(kept[i]);
      KeptFrom(Applies(c, p), rs, i);
    }
  }

  lemma KeptFrom(test: Rule -> bool, rs: seq<Rule>, i: nat)
    requires i < |Keep(test, rs)|
    ensures Keep(test, rs)[i] in rs
  {
    KeepCount(test, rs, Keep(test, rs)[i]);
    assert Keep(test, rs)[i] in multiset(Keep(test, rs));
  }

  lemma UnlistedVanish(a: seq<Rule>, b: seq<Rule>)
    requires forall i | 0 <= i < |b| :: !Listed(b[i])
    ensures Sorted(a + b) == Sorted(a)
  {
    hide OfSeverity;
    forall n: nat | n < 4 ensures OfSeverity(a + b, n) == OfSeverity(a, n) {
      PartsAppend(a, b, n);
      NoneOf(b, n);
      assert OfSeverity(a, n) + [] == OfSeverity(a, n);
    }
  }

  lemma NoneOf(b: seq<Rule>, n: nat)
    requires n < 4 && forall i | 0 <= i < |b| :: !Listed(b[i])
    ensures OfSeverity(b, n) == []
  {
    KeepNone(HasSeverity(n), b);
  }

  /** An applying rule of the backend is on the list of the one path and not of the other. */
  lemma MissedRule(c: Context, p: Profile, own: seq<Rule>, backend: seq<Rule>, r: Rule)
    requires r in backend && r !in own && Listed(r) && Verdict(c, r, p)
    ensures Sorted(TimedMatches(c, p, own)) != Matching(c, p, own + backend)
  {
    var test, all := Applies(c, p), own + backend;
    SortKeepCommute(test, all);
    SortPermutes(TimedMatches(c, p, own), r);
    SortPermutes(Keep(test, all), r);
    TimedCount(c, p, own, r);
    KeepCount(test, all, r);
    assert r in all && r in multiset(all);
    hide Verdict, Sorted, Keep, TimedMatches;
    assert multiset(own)[r] == 0;
  }
}
