/** The kill:death ratio, over exact rationals. */
module Ratios {

  function Abs(x: real): real { if x < 0.0 then -x else x }

  /** CalculateKDR on a player's numbers: with more deaths than frags the two are swapped
      and the result is negated. */
  function Kdr(frags: int, deaths: int): real {
    var nom, denom := if deaths > frags then deaths else frags, if deaths > frags then frags else deaths;
    var sign := if deaths > frags then -1.0 else 1.0;
    if denom == 0 then Abs(nom as real) * sign
    else Abs(nom as real / denom as real) * sign
  }

  /** The ratio is 0 only without frags and deaths, is at least 1 in size otherwise, and is
      negative exactly when deaths outnumber frags. */
  predicate Bounded(frags: int, deaths: int) {
    var r := Kdr(frags, deaths);
    && (r == 0.0 <==> frags == 0 && deaths == 0)
    && (r != 0.0 ==> Abs(r) >= 1.0)
    && (r < 0.0 <==> deaths > frags)
  }

  lemma QuotientOrder(x: int, y: int, u: int, v: int)
    requires x >= 0 && u >= 0 && y > 0 && v > 0
    ensures x as real / y as real <= u as real / v as real <==> x * v <= u * y
  {
    var a, b, c, d := x as real, y as real, u as real, v as real;
    assert (a / b) * (b * d) == a * d && (c / d) * (b * d) == c * b;
    Scale(a / b, c / d, b * d);
    assert (x * v) as real == a * d && (u * y) as real == c * b;
  }

  lemma Scale(p: real, q: real, k: real)
    requires k > 0.0
    ensures p <= q <==> p * k <= q * k
  {
    if p <= q {
      assert (q - p) * k >= 0.0;
    } else {
      assert (p - q) * k > 0.0;
    }
  }

  /** The divisor that stands for a number of frags: its size, and one for none. */
  function Size(frags: int): (n: nat)
    ensures n > 0
  {
    if frags == 0 then 1 else if frags < 0 then -frags else frags
  }

  /** The ratio of two counts, both at least one after the swap. */
  lemma KdrCases(frags: int, deaths: int)
    requires deaths >= 0
    ensures deaths > frags ==> Kdr(frags, deaths) == -(deaths as real / Size(frags) as real)
    ensures deaths <= frags ==> Kdr(frags, deaths) == frags as real / (if deaths == 0 then 1 else deaths) as real
  {
    if deaths > frags && frags < 0 {
      var a, b := deaths as real, frags as real;
      assert a / b == -(a / -b);
      assert a / -b >= 0.0;
    }
  }

  lemma SizeOfQuotient(x: int, y: int)
    requires x >= 0 && y > 0
    ensures var q := x as real / y as real;
            q >= 0.0 && (q >= 1.0 <==> x >= y) && (q == 0.0 <==> x == 0)
  {
    QuotientOrder(1, 1, x, y);
    QuotientOrder(x, y, 0, 1);
    QuotientOrder(0, 1, x, y);
  }

  /** For a player with some deaths or none, the bound holds exactly when losses on the
      frag side never exceed the deaths. */
  lemma BoundedExactly(frags: int, deaths: int)
    requires deaths >= 0
    ensures Bounded(frags, deaths) <==> frags + deaths >= 0
  {
    KdrCases(frags, deaths);
    if deaths > frags {
      SizeOfQuotient(deaths, Size(frags));
    } else {
      SizeOfQuotient(frags, if deaths == 0 then 1 else deaths);
    }
  }

  /** Another death never raises the ratio. */
  lemma DeathsLower(frags: int, deaths: int)
    requires deaths >= 0 && frags + deaths >= 0
    ensures Kdr(frags, deaths + 1) <= Kdr(frags, deaths)
  {
    KdrCases(frags, deaths);
    KdrCases(frags, deaths + 1);
    if deaths > frags {
      var size := Size(frags);
      MoreOverSame(deaths, deaths + 1, size);
    } else if deaths + 1 <= frags {
      SameOverMore(frags, if deaths == 0 then 1 else deaths, deaths + 1);
    } else {
      SizeOfQuotient(frags, if deaths == 0 then 1 else deaths);
      SizeOfQuotient(deaths + 1, Size(frags));
    }
  }

  lemma MoreOverSame(x: int, u: int, y: int)
    requires 0 <= x <= u && y > 0
    ensures x as real / y as real <= u as real / y as real
  {
    QuotientOrder(x, y, u, y);
    assert x * y <= u * y;
  }

  lemma SameOverMore(x: int, y: int, v: int)
    requires x >= 0 && 0 < y <= v
    ensures x as real / v as real <= x as real / y as real
    ensures x as real / y as real <= x as real / v as real <==> x == 0 || y == v
  {
    QuotientOrder(x, v, x, y);
    QuotientOrder(x, y, x, v);
    assert x * y <= x * v;
    assert x * v <= x * y <==> x == 0 || y == v;
  }

  /** Another frag lowers the ratio exactly for a player whose frags are at -2 or below. */
  lemma FragLowersExactly(frags: int, deaths: int)
    requires deaths >= 0 && frags + deaths >= 0
    ensures Kdr(frags + 1, deaths) < Kdr(frags, deaths) <==> frags <= -2
  {
    KdrCases(frags, deaths);
    KdrCases(frags + 1, deaths);
    if deaths > frags + 1 {
      var before := Size(frags);
      var after := Size(frags + 1);
      if frags <= -2 {
        SameOverMore(deaths, after, before);
      } else {
        SameOverMore(deaths, before, after);
      }
    } else if deaths <= frags {
      MoreOverSame(frags, frags + 1, if deaths == 0 then 1 else deaths);
    } else {
      SizeOfQuotient(deaths, Size(frags));
      SizeOfQuotient(frags + 1, if deaths == 0 then 1 else deaths);
    }
  }

  /** A suicide, one death more and one frag less, raises the ratio exactly for a player
      whose frags are below zero and who died more often than that. */
  lemma SuicideRaisesExactly(frags: int, deaths: int)
    requires deaths >= 0 && frags + deaths >= 0
    ensures Kdr(frags - 1, deaths + 1) > Kdr(frags, deaths) <==> frags < 0 && frags + deaths > 0
  {
    if frags >= 0 {
      DeathsLower(frags, deaths);
      FragLowersExactly(frags - 1, deaths + 1);
    } else {
      KdrCases(frags, deaths);
      KdrCases(frags - 1, deaths + 1);
      QuotientOrder(deaths, -frags, deaths + 1, 1 - frags);
      hide Kdr;
      assert deaths * (1 - frags) <= (deaths + 1) * -frags <==> deaths <= -frags;
    }
  }
}
