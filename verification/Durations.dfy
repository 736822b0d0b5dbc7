/**
 Durations as rules write them: a count with an optional unit letter, or a clock
 reading. The unit letters are tried in the iteration order of a Go map, which the
 language leaves unspecified, so the order is a parameter here.
 */
module Durations {
  import opened Wrappers
  import opened Strings

  const UNITS: string := "smhdwMy"

  predicate IsUnit(c: char) { c in UNITS }

  function Multiplier(u: char): nat {
    match u
    case 'm' => 60
    case 'h' => 3600
    case 'd' => 86400
    case 'w' => 86400 * 7
    case 'M' => 86400 * 30
    case 'y' => 86400 * 7 * 52
    case _ => 1
  }

  /** An order in which the units may be tried: each exactly once. */
  predicate IsOrder(order: string) {
    && (forall c :: c in order <==> IsUnit(c))
    && Distinct(order)
  }

  type Order = s: string | IsOrder(s) witness UNITS

  predicate Distinct(order: string) {
    forall i, j | 0 <= i < j < |order| :: order[i] != order[j]
  }

  // ---------------------------------------------------------------- numbers

  /** strconv.ParseInt with base 10 and 32 bits. */
  function ParseInt32(s: string): Option<int> {
    var signed := s != "" && (s[0] == '-' || s[0] == '+');
    var digits := if signed then s[1..] else s;
    if digits == "" || !AllDigits(digits) then None
    else
      var v: int := Value(digits);
      var n := if signed && s[0] == '-' then -v else v;
      if -0x8000_0000 <= n < 0x8000_0000 then Some(n) else None
  }

  lemma ParseDigits(s: string)
    requires s != "" && AllDigits(s) && Value(s) < 0x8000_0000
    ensures ParseInt32(s) == Some(Value(s))
  {
  }

  // ---------------------------------------------------------------- trimming

  predicate Blank(c: char) { c == ' ' || c == '\t' || c == '\n' }

  function TrimLeft(s: string): string {
    if s != "" && Blank(s[0]) then TrimLeft(s[1..]) else s
  }

  function TrimRight(s: string): string {
    if s != "" && Blank(s[|s| - 1]) then TrimRight(s[..|s| - 1]) else s
  }

  function Trim(s: string): string { TrimRight(TrimLeft(s)) }

  // ---------------------------------------------------------------- durationToSeconds

  /** The loop over the units: each unit that ends the text is cut off and becomes the
      unit, so that the last one cut off counts. */
  function Strip(order: string, text: string, unit: char): (string, char)
    decreases |order|
  {
    if order == "" then (text, unit)
    else if text != "" && text[|text| - 1] == order[0] then Strip(order[1..], text[..|text| - 1], order[0])
    else Strip(order[1..], text, unit)
  }

  predicate EndsIn(text: string, order: string) {
    text != "" && text[|text| - 1] in order
  }

  /** strconv.ParseFloat, by its results; None is an error. What it reads, when there is a
      point in it, ends in that point or in a digit, so never in a unit letter. */
  type Floats = f: string -> Option<real>
    | (forall s :: '.' in s && f(s).Some? ==> !EndsIn(s, UNITS))
    witness (_ => None)

  datatype Duration = Seconds(n: int) | Invalid

  /** The conversion of a float to an integer drops what is behind the point. */
  function Truncated(x: real): int {
    if x < 0.0 then -((-x).Floor) else x.Floor
  }

  /** minutes:seconds or hours:minutes:seconds; a unit letter has no effect. */
  function Clock(tokens: seq<string>): Duration
    requires |tokens| == 2 || |tokens| == 3
  {
    var seconds, minutes := ParseInt32(tokens[|tokens| - 1]), ParseInt32(tokens[|tokens| - 2]);
    var hours := if |tokens| == 3 then ParseInt32(tokens[0]) else Some(0);
    if seconds.None? || minutes.None? || hours.None? then Invalid
    else Seconds(seconds.value + minutes.value * 60 + hours.value * 3600)
  }

  /** The three notations a stripped text can be in. */
  function Finish(f: Floats, text: string, unit: char): Duration {
    var tokens := Split(text, ':');
    if '.' in text then
      match f(text)
      case None => Invalid
      case Some(x) => Seconds(Truncated(x * Multiplier(unit) as real))
    else if ':' in text && (|tokens| == 2 || |tokens| == 3) then Clock(tokens)
    else
      match ParseInt32(text)
      case None => Invalid
      case Some(n) => Seconds(n * Multiplier(unit))
  }

  function Parsed(f: Floats, ts: string, order: string): Duration {
    if ts == "" then Invalid
    else
      var (text, unit) := Strip(order, Trim(ts), 's');
      Finish(f, text, unit)
  }

  method DurationToSeconds(f: Floats, ts: string, order: Order) returns (r: Duration)
    ensures r == Parsed(f, ts, order)
  {
    hide Finish;
    if ts == "" {
      return Invalid;
    }
    var units := 's';
    var trimmed := Trim(ts);
    for i := 0 to |order|
      invariant Strip(order[i..], trimmed, units) == Strip(order, Trim(ts), 's')
    {
      assert order[i..][1..] == order[i + 1..];
      if trimmed != "" && trimmed[|trimmed| - 1] == order[i] {
        units := order[i];
        trimmed := trimmed[..|trimmed| - 1];
      }
    }
    r := ReadText(f, trimmed, units);
  }

  /** What follows the unit loop. */
  method ReadText(f: Floats, trimmed: string, units: char) returns (r: Duration)
    ensures r == Finish(f, trimmed, units)
  {
    hide ParseInt32, Split;
    if '.' in trimmed {
      var value := f(trimmed);
      if value.None? { return Invalid; }
      return Seconds(Truncated(value.value * Multiplier(units) as real));
    }
    if ':' in trimmed {
      var value := 0;
      var tokens := Split(trimmed, ':');
      if |tokens| == 2 {
        var tmp := ParseInt32(tokens[1]);
        if tmp.None? { return Invalid; }
        value := value + tmp.value;
        tmp := ParseInt32(tokens[0]);
        if tmp.None? { return Invalid; }
        return Seconds(value + tmp.value * Multiplier('m'));
      } else if |tokens| == 3 {
        var tmp := ParseInt32(tokens[2]);
        if tmp.None? { return Invalid; }
        value := value + tmp.value;
        tmp := ParseInt32(tokens[1]);
        if tmp.None? { return Invalid; }
        value := value + tmp.value * Multiplier('m');
        tmp := ParseInt32(tokens[0]);
        if tmp.None? { return Invalid; }
        return Seconds(value + tmp.value * Multiplier('h'));
      }
    }
    var value := ParseInt32(trimmed);
    if value.None? {
      return Invalid;
    }
    r := Seconds(value.value * Multiplier(units));
  }

  // ---------------------------------------------------------------- order of the units

  lemma {:induction false} NothingToStrip(order: string, text: string, unit: char)
    requires !EndsIn(text, order)
    ensures Strip(order, text, unit) == (text, unit)
    decreases |order|
  {
    if order != "" {
      assert order[0] in order;
      NothingToStrip(order[1..], text, unit);
    }
  }

  lemma {:induction false} StripUpTo(order: string, k: nat, text: string, unit: char)
    requires k <= |order| && !EndsIn(text, order[..k])
    ensures Strip(order, text, unit) == Strip(order[k..], text, unit)
    decreases k
  {
    if k > 0 {
      assert order[..k][0] == order[0];
      assert order[1..][..k - 1] == order[..k][1..] && order[1..][k - 1..] == order[k..];
      StripUpTo(order[1..], k - 1, text, unit);
    }
  }

  /** Two different units end the text: which of them is left depends on the order. */
  predicate Ambiguous(text: string) {
    && |text| >= 2
    && IsUnit(text[|text| - 1]) && IsUnit(text[|text| - 2])
    && text[|text| - 1] != text[|text| - 2]
  }

  function StripOne(text: string): (string, char) {
    if EndsIn(text, UNITS) then (text[..|text| - 1], text[|text| - 1]) else (text, 's')
  }

  /** Unless the text ends in two different units, every order cuts off the one unit
      that ends it, if there is one. */
  lemma StripsOne(order: string, text: string)
    requires IsOrder(order) && !Ambiguous(text)
    ensures Strip(order, text, 's') == StripOne(text)
  {
    if EndsIn(text, UNITS) {
      var u, body := text[|text| - 1], text[..|text| - 1];
      assert IsUnit(u) && u in order;
      assert text == body + [u];
      assert EndsIn(body, order) ==> body[|body| - 1] == u;
      CutAtLeastOne(order, body, u, 's');
    } else {
      NothingToStrip(order, text, 's');
    }
  }

  lemma DistinctTail(s: string)
    requires s != "" && Distinct(s)
    ensures Distinct(s[1..]) && s[0] !in s[1..]
  {
    assert forall i | 0 <= i < |s| - 1 :: s[1..][i] == s[i + 1];
  }

  function Without(s: string, c: char): (r: string)
    ensures forall x :: x in r <==> x in s && x != c
    ensures Distinct(s) ==> Distinct(r)
  {
    if s == "" then ""
    else
      assert Distinct(s) ==> Distinct(s[1..]) && s[0] !in s[1..] by {
        if Distinct(s) {
          DistinctTail(s);
        }
      }
      if s[0] == c then Without(s[1..], c) else [s[0]] + Without(s[1..], c)
  }

  /** The order that tries a given unit first. */
  function First(u: char): (order: string)
    requires IsUnit(u)
    ensures IsOrder(order) && order == [u] + Without(UNITS, u)
  {
    [u] + Without(UNITS, u)
  }

  lemma {:induction false} StripShortens(order: string, text: string, unit: char)
    ensures |Strip(order, text, unit).0| <= |text|
    decreases |order|
  {
    if order != "" {
      if text != "" && text[|text| - 1] == order[0] {
        StripShortens(order[1..], text[..|text| - 1], order[0]);
      } else {
        StripShortens(order[1..], text, unit);
      }
    }
  }

  /** When what is left ends in no unit of the order, only the last unit is cut off. */
  lemma CutOne(order: string, body: string, b: char, unit: char)
    requires Distinct(order) && b in order && body != "" && body[|body| - 1] !in order
    ensures Strip(order, body + [b], unit) == (body, b)
  {
    var text := body + [b];
    var k :| 0 <= k < |order| && order[k] == b;
    StripUpTo(order, k, text, unit);
    var behind := order[k..][1..];
    assert text[..|text| - 1] == body;
    assert !EndsIn(body, behind);
    NothingToStrip(behind, body, b);
  }

  /** A unit of the order that ends the text is cut off, and nothing more when what is
      left ends in no unit, or in the same one again. */
  lemma CutAtLeastOne(order: string, body: string, a: char, unit: char)
    requires Distinct(order) && a in order
    ensures var stripped := Strip(order, body + [a], unit);
            && |stripped.0| <= |body|
            && (!EndsIn(body, order) || body[|body| - 1] == a ==> stripped == (body, a))
  {
    var text := body + [a];
    var k :| 0 <= k < |order| && order[k] == a;
    StripUpTo(order, k, text, unit);
    var behind := order[k..][1..];
    assert text[..|text| - 1] == body;
    StripShortens(behind, body, a);
    Behind(order, k);
    if !EndsIn(body, order) || body[|body| - 1] == a {
      NothingToStrip(behind, body, a);
    }
  }

  lemma Behind(order: string, k: nat)
    requires Distinct(order) && k < |order|
    ensures order[k] !in order[k..][1..] && forall c | c in order[k..][1..] :: c in order
  {
  }

  /** On a text ending in the units a, b the order decides: with a first only b is cut
      off, with b first at least both are. */
  lemma CutsDiffer(body: string, a: char, b: char)
    requires IsUnit(a) && IsUnit(b) && a != b
    ensures var text := body + [a, b];
            && Strip(First(a), text, 's') == (body + [a], b)
            && |Strip(First(b), text, 's').0| <= |body|
            && (!EndsIn(body, UNITS) ==> Strip(First(b), text, 's') == (body, a))
  {
    var text := body + [a, b];
    assert text == body + [a] + [b] && text[..|text| - 1] == body + [a];
    var withoutA, withoutB := Without(UNITS, a), Without(UNITS, b);
    assert First(a)[1..] == withoutA && First(b)[1..] == withoutB;
    CutOne(withoutA, body + [a], b, 's');
    CutAtLeastOne(withoutB, body, a, b);
  }

  /** The unit loop gives the same text and unit under every order exactly when the text
      does not end in two different units. */
  lemma StripIndependentIff(text: string)
    ensures (forall o1, o2 | IsOrder(o1) && IsOrder(o2) :: Strip(o1, text, 's') == Strip(o2, text, 's'))
            <==> !Ambiguous(text)
  {
    hide Strip, IsOrder, StripOne;
    if Ambiguous(text) {
      var a, b, body := text[|text| - 2], text[|text| - 1], text[..|text| - 2];
      CutsDiffer(body, a, b);
      assert text == body + [a, b];
      assert Strip(First(a), text, 's') != Strip(First(b), text, 's');
    } else {
      forall o1, o2 | IsOrder(o1) && IsOrder(o2) ensures Strip(o1, text, 's') == Strip(o2, text, 's') {
        StripsOne(o1, text);
        StripsOne(o2, text);
      }
    }
  }

  // ---------------------------------------------------------------- values

  lemma TrimSolid(s: string)
    requires s != "" && !Blank(s[0]) && !Blank(s[|s| - 1])
    ensures Trim(s) == s
  {
  }

  lemma SolidDigits(s: string)
    requires s != "" && AllDigits(s)
    ensures !Blank(s[0]) && !IsUnit(s[|s| - 1]) && !Blank(s[|s| - 1])
    ensures '.' !in s && ':' !in s
  {
  }

  lemma BareCount(f: Floats, digits: string, order: string)
    requires digits != "" && AllDigits(digits) && Value(digits) < 0x8000_0000 && IsOrder(order)
    ensures Parsed(f, digits, order) == Seconds(Value(digits))
  {
    SolidDigits(digits);
    TrimSolid(digits);
    StripsOne(order, digits);
    ParseDigits(digits);
    hide Strip, Trim, ParseInt32;
  }

  /** A count, bare or with one unit letter, means the count times the unit, whatever
      the order. */
  lemma CountOfUnits(f: Floats, digits: string, unit: char, order: string)
    requires digits != "" && AllDigits(digits) && Value(digits) < 0x8000_0000
    requires IsUnit(unit) && IsOrder(order)
    ensures Parsed(f, digits, order) == Seconds(Value(digits))
    ensures Parsed(f, digits + [unit], order) == Seconds(Value(digits) * Multiplier(unit))
  {
    BareCount(f, digits, order);
    SolidDigits(digits);
    ParseDigits(digits);
    var text := digits + [unit];
    TrimSolid(text);
    StripsOne(order, text);
    assert text[..|text| - 1] == digits;
    assert StripOne(text) == (digits, unit);
    hide Strip, Trim, ParseInt32, StripOne, Multiplier, IsOrder;
  }

  // ---------------------------------------------------------------- order of the result

  /** What durationToSeconds can read once no unit is left on it. */
  predicate IsNumber(f: Floats, text: string) {
    var tokens := Split(text, ':');
    if '.' in text then f(text).Some?
    else if ':' in text && (|tokens| == 2 || |tokens| == 3) then
      forall i | 0 <= i < |tokens| :: ParseInt32(tokens[i]).Some?
    else ParseInt32(text).Some?
  }

  lemma FinishReads(f: Floats, text: string, unit: char)
    ensures Finish(f, text, unit).Seconds? <==> IsNumber(f, text)
  {
    var tokens := Split(text, ':');
    hide Split, ParseInt32, Multiplier;
    if '.' !in text && ':' in text && (|tokens| == 2 || |tokens| == 3) {
      ClockReads(tokens);
    }
  }

  lemma ClockReads(tokens: seq<string>)
    requires |tokens| == 2 || |tokens| == 3
    ensures Clock(tokens).Seconds? <==> forall i | 0 <= i < |tokens| :: ParseInt32(tokens[i]).Some?
  {
    hide ParseInt32;
  }

  lemma {:induction false} SplitEnd(text: string, sep: char)
    requires text != "" && text[|text| - 1] != sep
    ensures var tokens := Split(text, sep);
            var last := tokens[|tokens| - 1];
            last != "" && last[|last| - 1] == text[|text| - 1]
  {
    var rest := Split(text[1..], sep);
    var tokens := if text[0] == sep then [""] + rest else [[text[0]] + rest[0]] + rest[1..];
    assert Split(text, sep) == tokens;
    if |text| == 1 {
      assert rest == [""];
    } else {
      SplitEnd(text[1..], sep);
      hide Split;
      if text[0] == sep || |rest| > 1 {
        assert tokens[|tokens| - 1] == rest[|rest| - 1];
      } else {
        assert tokens[|tokens| - 1] == [text[0]] + rest[0];
      }
    }
  }

  lemma UnitIsNoDigit(text: string)
    requires EndsIn(text, UNITS)
    ensures ParseInt32(text).None?
  {
    var digits := if text[0] == '-' || text[0] == '+' then text[1..] else text;
    if digits != "" {
      assert digits[|digits| - 1] == text[|text| - 1];
    }
  }

  /** Nothing that still ends in a unit is read as a number. */
  lemma UnitLeftOver(f: Floats, text: string)
    requires EndsIn(text, UNITS)
    ensures !IsNumber(f, text)
  {
    SplitEnd(text, ':');
    var tokens := Split(text, ':');
    UnitIsNoDigit(text);
    UnitIsNoDigit(tokens[|tokens| - 1]);
  }

  /** The text ends in this many units, all different. */
  predicate UnitsBehind(text: string, k: nat)
    requires k <= |text|
  {
    Distinct(text[|text| - k..]) && forall i | |text| - k <= i < |text| :: IsUnit(text[i])
  }

  /** Two or more different units behind a number: some order takes them all off, and
      another only the last. */
  predicate Overloaded(f: Floats, text: string) {
    exists k | 2 <= k <= |text| :: UnitsBehind(text, k) && IsNumber(f, text[..|text| - k])
  }

  /** Whatever the order, what is taken off are different units. */
  lemma {:induction false} StripTakesUnits(order: string, text: string, unit: char) returns (k: nat)
    requires Distinct(order) && forall c | c in order :: IsUnit(c)
    ensures k <= |text| && Strip(order, text, unit).0 == text[..|text| - k]
    ensures UnitsBehind(text, k) && forall c | c in text[|text| - k..] :: c in order
    decreases |order|
  {
    if order == "" {
      assert text[..|text|] == text;
      return 0;
    }
    DistinctTail(order);
    assert forall c | c in order[1..] :: c in order;
    if text != "" && text[|text| - 1] == order[0] {
      k := StripTakesUnits(order[1..], text[..|text| - 1], order[0]);
      OneMoreUnit(text, k, order);
      k := k + 1;
    } else {
      k := StripTakesUnits(order[1..], text, unit);
    }
  }

  lemma OneMoreUnit(text: string, k: nat, order: string)
    requires text != "" && order != "" && Distinct(order) && k < |text|
    requires text[|text| - 1] == order[0] && IsUnit(order[0])
    requires var front := text[..|text| - 1];
             UnitsBehind(front, k) && forall c | c in front[|front| - k..] :: c in order[1..]
    ensures text[..|text| - 1][..|text| - 1 - k] == text[..|text| - (k + 1)]
    ensures UnitsBehind(text, k + 1) && forall c | c in text[|text| - (k + 1)..] :: c in order
  {
    DistinctTail(order);
    var front := text[..|text| - 1];
    var units := front[|front| - k..];
    assert text[|text| - (k + 1)..] == units + [order[0]];
    DistinctParts(units, [order[0]]);
    forall i | |text| - (k + 1) <= i < |text| ensures IsUnit(text[i]) {
      if i < |front| {
        assert front[i] == text[i];
      }
    }
    assert forall c | c in order[1..] :: c in order;
  }

  /** When one cut leaves a unit behind and more cuts leave no number, every order fails. */
  lemma FailsUnlessOverloaded(f: Floats, text: string, order: string)
    requires IsOrder(order) && Ambiguous(text) && !Overloaded(f, text)
    ensures Finish(f, Strip(order, text, 's').0, Strip(order, text, 's').1) == Invalid
  {
    var (left, unit) := Strip(order, text, 's');
    var k := StripTakesUnits(order, text, 's');
    FinishReads(f, left, unit);
    if k >= 2 {
      assert UnitsBehind(text, k);
    } else {
      assert left[|left| - 1] == text[|text| - 1 - k];
      UnitLeftOver(f, left);
    }
  }

  function Reversed(s: string): (r: string)
    ensures |r| == |s| && forall i | 0 <= i < |s| :: r[i] == s[|s| - 1 - i]
  {
    if s == "" then "" else [s[|s| - 1]] + Reversed(s[..|s| - 1])
  }

  function Others(s: string, taken: string): (r: string)
    ensures forall c :: c in r <==> c in s && c !in taken
    ensures Distinct(s) ==> Distinct(r)
  {
    if s == "" then ""
    else
      assert Distinct(s) ==> Distinct(s[1..]) && s[0] !in s[1..] by {
        if Distinct(s) {
          DistinctTail(s);
        }
      }
      if s[0] in taken then Others(s[1..], taken) else [s[0]] + Others(s[1..], taken)
  }

  lemma DistinctParts(a: string, b: string)
    requires Distinct(a) && Distinct(b) && forall c | c in a :: c !in b
    ensures Distinct(a + b)
  {
    forall i, j | 0 <= i < j < |a + b| ensures (a + b)[i] != (a + b)[j] {
      if i < |a| <= j {
        assert a[i] in a && b[j - |a|] in b;
      }
    }
  }

  /** The order that tries the given units from the last to the first, then the others. */
  function Backwards(units: string): (order: string)
    requires Distinct(units) && forall c | c in units :: IsUnit(c)
    ensures IsOrder(order) && order == Reversed(units) + Others(UNITS, units)
  {
    var back, others := Reversed(units), Others(UNITS, units);
    assert forall c :: c in back <==> c in units by {
      assert forall i | 0 <= i < |units| :: units[i] == back[|units| - 1 - i];
    }
    assert forall c | c in others :: IsUnit(c);
    DistinctParts(back, others);
    back + others
  }

  /** It takes off all of them. */
  lemma {:induction false} TakesAll(body: string, units: string, others: string, unit: char)
    requires !EndsIn(body, UNITS) && forall c | c in others :: IsUnit(c)
    requires units != ""
    ensures Strip(Reversed(units) + others, body + units, unit) == (body, units[0])
  {
    var order, text, n := Reversed(units) + others, body + units, |units| - 1;
    assert order[0] == units[n] == text[|text| - 1];
    assert order[1..] == Reversed(units[..n]) + others;
    assert text[..|text| - 1] == body + units[..n];
    if n == 0 {
      assert body + units[..0] == body && Reversed(units[..0]) + others == others;
      NothingToStrip(others, body, units[0]);
    } else {
      TakesAll(body, units[..n], others, units[n]);
    }
  }

  /** An overloaded text is read under the order that takes off all its units ... */
  lemma AllOffReads(f: Floats, body: string, units: string)
    requires units != "" && Distinct(units) && (forall c | c in units :: IsUnit(c)) && IsNumber(f, body)
    ensures Strip(Backwards(units), body + units, 's') == (body, units[0])
    ensures Finish(f, body, units[0]).Seconds?
  {
    hide Strip, Finish, IsNumber, IsOrder;
    if EndsIn(body, UNITS) {
      UnitLeftOver(f, body);
    }
    TakesAll(body, units, Others(UNITS, units), 's');
    FinishReads(f, body, units[0]);
  }

  /** ... and refused under one that takes off only the last of two. */
  lemma OneOffFails(f: Floats, front: string, a: char, b: char)
    requires IsUnit(a) && IsUnit(b) && a != b
    ensures Strip(First(a), front + [a, b], 's') == (front + [a], b)
    ensures Finish(f, front + [a], b) == Invalid
  {
    hide Strip, Finish, IsNumber, IsOrder;
    CutsDiffer(front, a, b);
    UnitLeftOver(f, front + [a]);
    FinishReads(f, front + [a], b);
  }

  /** What the text means when at most the one unit that ends it is taken off. */
  function OneCut(f: Floats, ts: string): Duration {
    if ts == "" then Invalid
    else
      var (text, unit) := StripOne(Trim(ts));
      Finish(f, text, unit)
  }

  lemma AgreedValue(f: Floats, ts: string, order: string)
    requires IsOrder(order) && !Overloaded(f, Trim(ts))
    ensures Parsed(f, ts, order) == OneCut(f, ts)
  {
    var text := Trim(ts);
    if ts != "" {
      if Ambiguous(text) {
        FailsUnlessOverloaded(f, text, order);
        var (left, unit) := StripOne(text);
        assert left[|left| - 1] == text[|text| - 2];
        UnitLeftOver(f, left);
        FinishReads(f, left, unit);
      } else {
        StripsOne(order, text);
      }
    }
  }

  lemma ParsedBy(f: Floats, ts: string, order: string)
    requires Trim(ts) != ""
    ensures Parsed(f, ts, order) == Finish(f, Strip(order, Trim(ts), 's').0, Strip(order, Trim(ts), 's').1)
  {
    hide Strip, Finish;
  }

  lemma UnitsOf(text: string, k: nat)
    requires 2 <= k <= |text| && UnitsBehind(text, k)
    ensures var units, a, b := text[|text| - k..], text[|text| - 2], text[|text| - 1];
            && Distinct(units) && (forall c | c in units :: IsUnit(c))
            && IsUnit(a) && IsUnit(b) && a != b
            && text == text[..|text| - k] + units && text == text[..|text| - 2] + [a, b]
  {
    hide IsUnit;
    var units := text[|text| - k..];
    assert units[k - 2] == text[|text| - 2] && units[k - 1] == text[|text| - 1];
  }

  lemma OverloadedDisagrees(f: Floats, ts: string) returns (o1: string, o2: string)
    requires Overloaded(f, Trim(ts))
    ensures IsOrder(o1) && IsOrder(o2) && Parsed(f, ts, o1) != Parsed(f, ts, o2)
  {
    hide Strip, Finish, IsNumber, Trim, IsOrder, Parsed, IsUnit, UnitsBehind, Distinct;
    var text := Trim(ts);
    var k :| 2 <= k <= |text| && UnitsBehind(text, k) && IsNumber(f, text[..|text| - k]);
    hide Overloaded;
    UnitsOf(text, k);
    var units, a, b := text[|text| - k..], text[|text| - 2], text[|text| - 1];
    AllOffReads(f, text[..|text| - k], units);
    OneOffFails(f, text[..|text| - 2], a, b);
    o1, o2 := Backwards(units), First(a);
    hide Backwards, First;
    ParsedBy(f, ts, o1);
    ParsedBy(f, ts, o2);
  }

  /** durationToSeconds gives the same result under every order of the units exactly when
      the trimmed text is not a number with two or more different units behind it; and
      then the result is that of taking off at most one. */
  lemma OrderIndependentIff(f: Floats, ts: string)
    ensures (forall o1, o2 | IsOrder(o1) && IsOrder(o2) :: Parsed(f, ts, o1) == Parsed(f, ts, o2))
            <==> !Overloaded(f, Trim(ts))
    ensures !Overloaded(f, Trim(ts)) ==> forall o | IsOrder(o) :: Parsed(f, ts, o) == OneCut(f, ts)
  {
    hide Parsed, OneCut, Overloaded, IsOrder, Trim;
    if Overloaded(f, Trim(ts)) {
      var o1, o2 := OverloadedDisagrees(f, ts);
      assert Parsed(f, ts, o1) != Parsed(f, ts, o2);
    } else {
      forall o | IsOrder(o) ensures Parsed(f, ts, o) == OneCut(f, ts) {
        AgreedValue(f, ts, o);
      }
    }
  }

  /** A count with two different unit letters is accepted or refused as the order has it:
      "5ms" is five minutes when s is tried before m, and an error when m is first. */
  lemma OrderMatters(f: Floats, digits: string, a: char, b: char)
    requires digits != "" && AllDigits(digits) && Value(digits) < 0x8000_0000
    requires IsUnit(a) && IsUnit(b) && a != b
    ensures Parsed(f, digits + [a, b], Backwards([a, b])) == Seconds(Value(digits) * Multiplier(a))
    ensures Parsed(f, digits + [a, b], First(a)) == Invalid
  {
    var text := digits + [a, b];
    SolidDigits(digits);
    TrimSolid(text);
    ParseDigits(digits);
    AllOffReads(f, digits, [a, b]);
    OneOffFails(f, digits, a, b);
    hide Strip, Trim, ParseInt32, Multiplier, IsOrder;
  }

  // ---------------------------------------------------------------- clock readings

  function TwoDigits(n: nat): string
    requires n < 100
  {
    [Digit(n / 10), Digit(n % 10)]
  }

  function PrintClock(n: nat): string {
    Join([Itoa(n / 3600), TwoDigits(n / 60 % 60), TwoDigits(n % 60)], ':')
  }

  lemma TwoDigitsValue(n: nat)
    requires n < 100
    ensures AllDigits(TwoDigits(n)) && Value(TwoDigits(n)) == n
  {
    var s := TwoDigits(n);
    assert s[..1] == [Digit(n / 10)] && s[..1][..0] == "";
    assert Value(s[..1]) == n / 10;
  }

  lemma JoinThree(h: string, m: string, s: string)
    ensures Join([h, m, s], ':') == h + ":" + (m + ":" + s)
  {
    assert [h, m, s][1..] == [m, s] && [m, s][1..] == [s];
    assert Join([m, s], ':') == m + [':'] + s;
    assert Join([h, m, s], ':') == h + [':'] + (m + [':'] + s);
  }

  lemma ClockParts(h: nat, m: nat, s: nat)
    requires h < 0x8000_0000 && m < 100 && s < 100
    ensures Clock([Itoa(h), TwoDigits(m), TwoDigits(s)]) == Seconds(h * 3600 + m * 60 + s)
  {
    ItoaValue(h);
    TwoDigitsValue(m);
    TwoDigitsValue(s);
    ParseDigits(Itoa(h));
    ParseDigits(TwoDigits(m));
    ParseDigits(TwoDigits(s));
  }

  lemma SecondsSplit(n: nat)
    ensures n / 3600 * 3600 + n / 60 % 60 * 60 + n % 60 == n
  {
  }

  lemma ClockText(h: string, m: string, s: string)
    requires h != "" && m != "" && s != "" && AllDigits(h) && AllDigits(m) && AllDigits(s)
    ensures var text := Join([h, m, s], ':');
            && Trim(text) == text && !Ambiguous(text) && StripOne(text) == (text, 's')
            && ':' in text && '.' !in text
            && Split(text, ':') == [h, m, s]
  {
    var text := h + ":" + (m + ":" + s);
    JoinThree(h, m, s);
    SolidDigits(h);
    SolidDigits(m);
    SolidDigits(s);
    SplitJoin([h, m, s], ':');
    assert text[0] == h[0] && text[|text| - 1] == s[|s| - 1];
    assert text[|h|] == ':';
    TrimSolid(text);
  }

  /** Printing a number of seconds as h:mm:ss and parsing it gives the number back. */
  lemma ClockRoundTrip(f: Floats, n: nat, order: string)
    requires n / 3600 < 0x8000_0000 && IsOrder(order)
    ensures Parsed(f, PrintClock(n), order) == Seconds(n)
  {
    var h, m, s := Itoa(n / 3600), TwoDigits(n / 60 % 60), TwoDigits(n % 60);
    var text := PrintClock(n);
    TwoDigitsValue(n / 60 % 60);
    TwoDigitsValue(n % 60);
    ClockText(h, m, s);
    StripsOne(order, text);
    ClockParts(n / 3600, n / 60 % 60, n % 60);
    SecondsSplit(n);
    assert text != "" by {
      assert ':' in text;
    }
    hide Clock, Itoa, TwoDigits, Split, Join, Strip, Trim;
  }

  // ---------------------------------------------------------------- units and notations

  /** The seven units, each in seconds. */
  lemma UnitTable(f: Floats, digits: string, order: string)
    requires digits != "" && AllDigits(digits) && Value(digits) < 0x8000_0000 && IsOrder(order)
    ensures Parsed(f, digits + ['s'], order) == Seconds(Value(digits))
    ensures Parsed(f, digits + ['m'], order) == Seconds(Value(digits) * 60)
    ensures Parsed(f, digits + ['h'], order) == Seconds(Value(digits) * 3600)
    ensures Parsed(f, digits + ['d'], order) == Seconds(Value(digits) * 86_400)
    ensures Parsed(f, digits + ['w'], order) == Seconds(Value(digits) * 604_800)
    ensures Parsed(f, digits + ['M'], order) == Seconds(Value(digits) * 2_592_000)
    ensures Parsed(f, digits + ['y'], order) == Seconds(Value(digits) * 31_449_600)
  {
    hide Parsed, IsOrder, AllDigits, Value;
    CountOfUnits(f, digits, 's', order);
    CountOfUnits(f, digits, 'm', order);
    CountOfUnits(f, digits, 'h', order);
    CountOfUnits(f, digits, 'd', order);
    CountOfUnits(f, digits, 'w', order);
    CountOfUnits(f, digits, 'M', order);
    CountOfUnits(f, digits, 'y', order);
  }

  lemma TrimOne(s: string, blank: char)
    requires Blank(blank)
    ensures Trim([blank] + s) == Trim(s)
  {
    assert ([blank] + s)[1..] == s;
  }

  /** Blanks in front and behind do not matter, as long as there is something else. */
  lemma BlanksIgnored(f: Floats, blank: char, digits: string, order: string)
    requires blank == ' ' || blank == '\t' || blank == '\n'
    requires digits != "" && AllDigits(digits) && Value(digits) < 0x8000_0000 && IsOrder(order)
    ensures Parsed(f, [blank] + digits + [blank], order) == Seconds(Value(digits))
  {
    SolidDigits(digits);
    var text := digits + [blank];
    assert [blank] + digits + [blank] == [blank] + text;
    TrimOne(text, blank);
    assert TrimLeft(text) == text;
    assert text[..|text| - 1] == digits;
    assert TrimRight(text) == TrimRight(digits) == digits;
    BareCount(f, digits, order);
    TrimSolid(digits);
    hide TrimLeft, TrimRight, Strip, Finish;
  }

  /** A sign is taken, and what does not fit 32 bits is refused. */
  lemma SignedCounts(digits: string)
    requires digits != "" && AllDigits(digits)
    ensures ParseInt32(['-'] + digits) == if Value(digits) <= 0x8000_0000 then Some(-(Value(digits) as int)) else None
    ensures ParseInt32(['+'] + digits) == if Value(digits) < 0x8000_0000 then Some(Value(digits)) else None
    ensures ParseInt32(digits) == if Value(digits) < 0x8000_0000 then Some(Value(digits)) else None
  {
    assert (['-'] + digits)[1..] == digits && (['+'] + digits)[1..] == digits;
    assert digits[0] != '-' && digits[0] != '+';
    hide Value, AllDigits;
  }

  function PrintMinutes(n: nat): string {
    Itoa(n / 60) + ":" + TwoDigits(n % 60)
  }

  lemma ClockTwo(f: Floats, m: string, s: string, unit: char)
    requires m != "" && s != "" && AllDigits(m) && AllDigits(s)
    requires Value(m) < 0x8000_0000 && Value(s) < 0x8000_0000
    ensures Finish(f, m + ":" + s, unit) == Seconds(Value(s) + Value(m) * 60)
  {
    MinutesText(m, s);
    ParseDigits(m);
    ParseDigits(s);
    hide Split, ParseInt32, Value, AllDigits, Multiplier, Trim, Ambiguous, StripOne;
  }

  /** With two parts a clock is minutes and seconds, whatever unit letter is behind it. */
  lemma MinutesRoundTrip(f: Floats, n: nat, unit: char, order: string)
    requires n / 60 < 0x8000_0000 && IsOrder(order) && IsUnit(unit)
    ensures Parsed(f, PrintMinutes(n), order) == Seconds(n)
    ensures Parsed(f, PrintMinutes(n) + [unit], order) == Seconds(n)
  {
    var m, s := Itoa(n / 60), TwoDigits(n % 60);
    TwoDigitsValue(n % 60);
    ItoaValue(n / 60);
    assert n / 60 * 60 + n % 60 == n;
    hide Itoa, TwoDigits;
    MinutesParsed(f, m, s, unit, order);
  }

  lemma MinutesParsed(f: Floats, m: string, s: string, unit: char, order: string)
    requires m != "" && s != "" && AllDigits(m) && AllDigits(s) && IsOrder(order) && IsUnit(unit)
    requires Value(m) < 0x8000_0000 && Value(s) < 0x8000_0000
    ensures Parsed(f, m + ":" + s, order) == Seconds(Value(s) + Value(m) * 60)
    ensures Parsed(f, m + ":" + s + [unit], order) == Seconds(Value(s) + Value(m) * 60)
  {
    hide Value, AllDigits, Strip, Finish, Trim, StripOne, Ambiguous, IsOrder, IsUnit, Blank, Split;
    var text := m + ":" + s;
    MinutesText(m, s);
    ClockTwo(f, m, s, 's');
    ClockTwo(f, m, s, unit);
    StripsOne(order, text);
    UnitBehind(text, unit);
    StripsOne(order, text + [unit]);
  }

  lemma MinutesText(m: string, s: string)
    requires m != "" && s != "" && AllDigits(m) && AllDigits(s)
    ensures var text := m + ":" + s;
            && Trim(text) == text && !Ambiguous(text) && StripOne(text) == (text, 's') && !IsUnit(text[|text| - 1])
            && ':' in text && '.' !in text && Split(text, ':') == [m, s] && !Blank(text[0])
  {
    var text := m + ":" + s;
    SolidDigits(m);
    SolidDigits(s);
    SplitFirst(m, s, ':');
    SplitWhole(s, ':');
    assert text == m + [':'] + s;
    assert text[0] == m[0] && text[|text| - 1] == s[|s| - 1] && text[|m|] == ':';
    TrimSolid(text);
  }

  lemma UnitBehind(text: string, unit: char)
    requires text != "" && IsUnit(unit) && !IsUnit(text[|text| - 1]) && !Blank(text[0])
    ensures Trim(text + [unit]) == text + [unit] && !Ambiguous(text + [unit])
    ensures StripOne(text + [unit]) == (text, unit)
  {
    TrimSolid(text + [unit]);
    assert (text + [unit])[..|text|] == text;
  }

  /** A decimal is its value times the unit, the part behind the point dropped. */
  lemma DecimalValue(f: Floats, text: string, x: real, unit: char, order: string)
    requires '.' in text && f(text) == Some(x) && x >= 0.0 && IsOrder(order) && IsUnit(unit) && !Blank(text[0])
    ensures var r := Parsed(f, text + [unit], order);
            r.Seconds? && r.n as real <= x * Multiplier(unit) as real < r.n as real + 1.0
  {
    if EndsIn(text, UNITS) {
      assert false;
    }
    UnitBehind(text, unit);
    StripsOne(order, text + [unit]);
    assert x * Multiplier(unit) as real >= 0.0;
    hide Strip, Trim, Split, Multiplier, StripOne, IsOrder;
  }
}
