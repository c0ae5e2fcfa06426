/** Times as exact numbers of seconds, as in shared/time.c, and the sample index derived from them
    in shared/signal.c.  Conversions to double are exact here.
 */
module Times {
  import opened Basics
  import opened Ratios

  type Time = r: Rat | r.Valid() witness Rat(0, 1)

  const MINUTE := 60
  const HOUR := 60 * 60
  const DAY := 60 * 60 * 24

  function CreateTime(days: int, hours: int, minutes: int, seconds: Time): (t: Rat)
    ensures t.Valid()
  {
    var whole := days * DAY + hours * HOUR + minutes * MINUTE;
    NormalizedIsNormal(whole, 1);
    SumIsExact(Create(whole, 1), seconds);
    Add(Create(whole, 1), seconds)
  }

  /** Any fields make a time, in or out of their usual ranges, and it is their exact sum. */
  lemma CreatedTimeIsTheSum(days: int, hours: int, minutes: int, seconds: Time)
    ensures CreateTime(days, hours, minutes, seconds).Normal()
    ensures CreateTime(days, hours, minutes, seconds).Value() ==
      (86400 * days + 3600 * hours + 60 * minutes) as real + seconds.Value()
  {
    var whole := days * DAY + hours * HOUR + minutes * MINUTE;
    CreateValue(whole, 1);
    SumIsExact(Create(whole, 1), seconds);
  }

  /** The whole part of a time, rounded towards zero. */
  function Whole(t: Time): int { TruncDiv(t.num, t.denom) }

  function Divisions(t: Time): (r: Rat)
    ensures r.Valid()
  {
    NormalizedIsNormal(TruncMod(t.num, t.denom), t.denom);
    Create(TruncMod(t.num, t.denom), t.denom)
  }

  function Seconds(t: Time): int { TruncMod(Whole(t), MINUTE) }

  function Minutes(t: Time): int { TruncDiv(TruncMod(Whole(t), HOUR), MINUTE) }

  function Hours(t: Time): int { TruncDiv(TruncMod(Whole(t), DAY), HOUR) }

  function Days(t: Time): int { TruncDiv(Whole(t), DAY) }

  function ToSeconds(t: Time): int {
    Days(t) * 24 * 60 * 60 + Hours(t) * 60 * 60 + Minutes(t) * 60 + Seconds(t)
  }

  /** C's conversion of a double to an integer. */
  function TruncReal(x: real): int {
    if x >= 0.0 then x.Floor else -((-x).Floor)
  }

  function ApproxMillis(r: Time): int {
    TruncReal(r.num as real / r.denom as real * 1000.0)
  }

  function ToMilliseconds(t: Time): int {
    Days(t) * 24 * 60 * 60 * 1000 + Hours(t) * 60 * 60 * 1000 + Minutes(t) * 60 * 1000 + Seconds(t) * 1000
    + ApproxMillis(Divisions(t))
  }

  /** The sample of `m` milliseconds. */
  function IndexOfMilliseconds(m: int): int { TruncReal(m as real / 1000.0 * 44100.0) }

  /** The sample at which `run_actions` lets an action for this time run. */
  function SampleIndex(t: Time): int {
    IndexOfMilliseconds(ToMilliseconds(t))
  }

  // ----- Truncation -----

  lemma TruncDivIsTrunc(a: int, b: int)
    requires b > 0
    ensures TruncDiv(a, b) == TruncReal(a as real / b as real)
  {
    var n := Abs(a);
    FloorOfQuotient(n, b);
    if a < 0 {
      assert -(a as real / b as real) == n as real / b as real;
      assert a as real / b as real < 0.0;
    } else {
      assert a as real / b as real >= 0.0;
    }
  }

  lemma FloorOfQuotient(n: nat, b: int)
    requires b > 0
    ensures (n as real / b as real).Floor == n / b
  {
    var q, r := n / b, n % b;
    var x := n as real / b as real;
    assert n as real == b as real * q as real + r as real;
    assert x == q as real + r as real / b as real;
    assert 0.0 <= r as real / b as real < 1.0;
  }

  lemma TruncShift(k: int, x: real)
    requires (k >= 0 && x >= 0.0) || (k <= 0 && x <= 0.0)
    ensures TruncReal(k as real + x) == k + TruncReal(x)
  {
  }

  lemma TruncMonotone(x: real, y: real)
    requires x <= y
    ensures TruncReal(x) <= TruncReal(y)
  {
  }

  lemma TruncSplits(a: int, b: int)
    requires b > 0
    ensures a == b * TruncDiv(a, b) + TruncMod(a, b)
    ensures a >= 0 ==> TruncDiv(a, b) >= 0 && 0 <= TruncMod(a, b) < b
    ensures a <= 0 ==> TruncDiv(a, b) <= 0 && -b < TruncMod(a, b) <= 0
  {
    var n := Abs(a);
    assert n == b * (n / b) + n % b;
    if a < 0 { assert b * -(n / b) == -(b * (n / b)); }
  }

  lemma WholeAndPart(t: Time)
    ensures t.Value() == Whole(t) as real + Divisions(t).Value()
    ensures t.num >= 0 ==> Whole(t) >= 0 && 0.0 <= Divisions(t).Value() < 1.0
    ensures t.num <= 0 ==> Whole(t) <= 0 && -1.0 < Divisions(t).Value() <= 0.0
  {
    TruncSplits(t.num, t.denom);
    CreateValue(TruncMod(t.num, t.denom), t.denom);
    PartOfWhole(t.num, t.denom, Whole(t), TruncMod(t.num, t.denom));
  }

  lemma PartOfWhole(a: int, b: int, q: int, r: int)
    requires b > 0 && a == b * q + r
    ensures a as real / b as real == q as real + r as real / b as real
    ensures 0 <= r < b ==> 0.0 <= r as real / b as real < 1.0
    ensures -b < r <= 0 ==> -1.0 < r as real / b as real <= 0.0
  {
    assert a as real == b as real * q as real + r as real;
  }

  // ----- The conversions -----

  lemma ClockFields(t: Time)
    ensures Days(t) * DAY + Hours(t) * HOUR + Minutes(t) * MINUTE + Seconds(t) == Whole(t)
    ensures -24 < Hours(t) < 24 && -60 < Minutes(t) < 60 && -60 < Seconds(t) < 60
    ensures Whole(t) >= 0 ==> Days(t) >= 0 && Hours(t) >= 0 && Minutes(t) >= 0 && Seconds(t) >= 0
    ensures Whole(t) <= 0 ==> Days(t) <= 0 && Hours(t) <= 0 && Minutes(t) <= 0 && Seconds(t) <= 0
  {
    ClockOf(Whole(t));
  }

  lemma ClockOf(w: int)
    ensures var d, h := TruncDiv(w, DAY), TruncDiv(TruncMod(w, DAY), HOUR);
            var m, s := TruncDiv(TruncMod(w, HOUR), MINUTE), TruncMod(w, MINUTE);
            && d * DAY + h * HOUR + m * MINUTE + s == w
            && -24 < h < 24 && -60 < m < 60 && -60 < s < 60
            && (w >= 0 ==> d >= 0 && h >= 0 && m >= 0 && s >= 0)
            && (w <= 0 ==> d <= 0 && h <= 0 && m <= 0 && s <= 0)
  {
    TruncSplits(w, DAY);
    TruncSplits(w, HOUR);
    TruncSplits(w, MINUTE);
    TruncSplits(TruncMod(w, DAY), HOUR);
    TruncSplits(TruncMod(w, HOUR), MINUTE);
    var n := Abs(w);
    assert n % 86400 / 3600 == n / 3600 - 24 * (n / 86400);
    assert n % 3600 / 60 == n / 60 - 60 * (n / 3600);
  }

  /** The accessors split a time exactly, whatever its sign. */
  lemma TimeRecombines(t: Time)
    ensures (86400 * Days(t) + 3600 * Hours(t) + 60 * Minutes(t) + Seconds(t)) as real +
              Divisions(t).Value() == t.Value()
    ensures ToSeconds(t) == TruncReal(t.Value())
    ensures -24 < Hours(t) < 24 && -60 < Minutes(t) < 60 && -60 < Seconds(t) < 60 && -1.0 < Divisions(t).Value() < 1.0
    ensures t.num >= 0 ==> Days(t) >= 0 && Hours(t) >= 0 && Minutes(t) >= 0 && Seconds(t) >= 0
    ensures t.num >= 0 ==> Divisions(t).Value() >= 0.0
    ensures t.num <= 0 ==> Days(t) <= 0 && Hours(t) <= 0 && Minutes(t) <= 0 && Seconds(t) <= 0
    ensures t.num <= 0 ==> Divisions(t).Value() <= 0.0
  {
    WholeAndPart(t);
    ClockFields(t);
    TruncDivIsTrunc(t.num, t.denom);
  }

  lemma MillisecondsOfWhole(t: Time)
    ensures ToMilliseconds(t) == Whole(t) * 1000 + TruncReal(Divisions(t).Value() * 1000.0)
  {
    ClockFields(t);
  }

  /** Milliseconds are 1000 times the exact value, rounded towards zero. */
  lemma MillisecondsAreExact(t: Time)
    ensures ToMilliseconds(t) == TruncReal(t.Value() * 1000.0)
  {
    MillisecondsOfWhole(t);
    WholeAndPart(t);
    ShiftedMillis(Whole(t), Divisions(t).Value(), t.Value());
  }

  lemma ShiftedMillis(q: int, x: real, v: real)
    requires v == q as real + x
    requires (q >= 0 && x >= 0.0) || (q <= 0 && x <= 0.0)
    ensures q * 1000 + TruncReal(x * 1000.0) == TruncReal(v * 1000.0)
  {
    Thousand(q, x, v);
    TruncShift(q * 1000, x * 1000.0);
  }

  lemma Thousand(q: int, x: real, v: real)
    requires v == q as real + x
    ensures (q * 1000) as real + x * 1000.0 == v * 1000.0
  {
  }

  /** While the result fits 31 bits, so does every term and partial sum. */
  lemma MillisecondsFit(t: Time)
    requires -0x7FFF_FFFF <= TruncReal(t.Value() * 1000.0) <= 0x7FFF_FFFF
    ensures Int32(Days(t) * 24 * 60 * 60 * 1000) && Int32(Hours(t) * 60 * 60 * 1000)
    ensures Int32(Minutes(t) * 60 * 1000) && Int32(Seconds(t) * 1000) && Int32(ApproxMillis(Divisions(t)))
    ensures Int32(Days(t) * 24 * 60 * 60 * 1000 + Hours(t) * 60 * 60 * 1000)
    ensures Int32(Days(t) * 24 * 60 * 60 * 1000 + Hours(t) * 60 * 60 * 1000 + Minutes(t) * 60 * 1000)
    ensures Int32(ToMilliseconds(t) - ApproxMillis(Divisions(t))) && Int32(ToMilliseconds(t))
  {
    ClockFields(t);
    MillisecondsAreExact(t);
    WholeAndPart(t);
    var x := Divisions(t).Value() * 1000.0;
    assert ApproxMillis(Divisions(t)) == TruncReal(x);
  }

  predicate AtMost(x: Time, y: Time) { LessThan(x, y) || Equal(x, y) }

  /** Later times never get an earlier sample. */
  lemma SampleIndexIsMonotone(x: Time, y: Time)
    requires AtMost(x, y)
    ensures SampleIndex(x) <= SampleIndex(y)
  {
    ComparisonIsExact(x, y);
    MillisecondsAreExact(x);
    MillisecondsAreExact(y);
    TruncMonotone(x.Value() * 1000.0, y.Value() * 1000.0);
    TruncMonotone(ToMilliseconds(x) as real / 1000.0 * 44100.0, ToMilliseconds(y) as real / 1000.0 * 44100.0);
  }

  /** Rounding takes less than one from a number that is not negative. */
  lemma TruncIsNear(x: real)
    ensures x >= 0.0 ==> x - 1.0 < TruncReal(x) as real <= x
    ensures x <= 0.0 ==> x <= TruncReal(x) as real < x + 1.0
  {
  }

  ghost predicate WholeMilliseconds(v: real) { TruncReal(v * 1000.0) as real == v * 1000.0 }

  lemma RoundedTwice(m: int, v: real)
    requires m == TruncReal(v * 1000.0)
    ensures v >= 0.0 ==> 44100.0 * v - 45.1 < IndexOfMilliseconds(m) as real <= 44100.0 * v
    ensures v <= 0.0 ==> 44100.0 * v <= IndexOfMilliseconds(m) as real < 44100.0 * v + 45.1
    ensures v <= 0.0 ==> IndexOfMilliseconds(m) <= 0
    ensures WholeMilliseconds(v) ==> IndexOfMilliseconds(m) == TruncReal(44100.0 * v)
  {
    TruncIsNear(v * 1000.0);
    TruncIsNear(m as real / 1000.0 * 44100.0);
  }

  /** The sample of a time is its number of samples at 44100 to the second, but for what two roundings towards
      zero take away: less than a millisecond and less than a sample. */
  lemma SampleIndexIsNear(t: Time)
    ensures t.Value() >= 0.0 ==> 44100.0 * t.Value() - 45.1 < SampleIndex(t) as real <= 44100.0 * t.Value()
    ensures t.Value() <= 0.0 ==> 44100.0 * t.Value() <= SampleIndex(t) as real < 44100.0 * t.Value() + 45.1
    ensures t.Value() <= 0.0 ==> SampleIndex(t) <= 0
    ensures WholeMilliseconds(t.Value()) ==> SampleIndex(t) == TruncReal(44100.0 * t.Value())
  {
    MillisecondsAreExact(t);
    RoundedTwice(ToMilliseconds(t), t.Value());
  }

  /** Sample `k` is that of `v` seconds, at 44100 to the second: at most a millisecond and a sample early, and for
      whole milliseconds the last sample that is not late.  What is due before the beginning is due there. */
  ghost predicate OnTime(v: real, k: nat) {
    && (v <= 0.0 ==> k == 0)
    && (v >= 0.0 ==> 44100.0 * v - 45.1 < k as real <= 44100.0 * v)
    && (v >= 0.0 && WholeMilliseconds(v) ==> k == (44100.0 * v).Floor)
  }

  lemma NearIsOnTime(v: real, i: int)
    requires v >= 0.0 ==> 44100.0 * v - 45.1 < i as real <= 44100.0 * v
    requires v <= 0.0 ==> i <= 0
    requires WholeMilliseconds(v) ==> i == TruncReal(44100.0 * v)
    ensures OnTime(v, if i < 0 then 0 else i)
  {
  }

  lemma RoundedSecond(m: int, s: int)
    requires m == TruncReal(s as real * 1000.0)
    ensures IndexOfMilliseconds(m) == 44100 * s
  {
    assert s as real * 1000.0 == (1000 * s) as real && m == 1000 * s;
    assert m as real / 1000.0 == s as real && s as real * 44100.0 == (44100 * s) as real;
  }

  /** A time of whole seconds has the sample of exactly that many seconds. */
  lemma SecondsAreSamples(t: Time, s: int)
    requires t.Value() == s as real
    ensures SampleIndex(t) == 44100 * s
  {
    MillisecondsAreExact(t);
    RoundedSecond(ToMilliseconds(t), s);
  }

  /** The heap's order on times is a total preorder. */
  lemma AtMostIsTotalPreorder(x: Time, y: Time, z: Time)
    ensures AtMost(x, x)
    ensures AtMost(x, y) || AtMost(y, x)
    ensures AtMost(x, y) && AtMost(y, z) ==> AtMost(x, z)
  {
    ComparisonIsExact(x, x);
    ComparisonIsExact(x, y);
    ComparisonIsExact(y, x);
    ComparisonIsExact(y, z);
    ComparisonIsExact(x, z);
  }
}
