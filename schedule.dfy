/**
 * The records of the shipping schedule (ports, route legs, complete itineraries) and the
 * date/time arithmetic the route engine uses to decide whether one leg can follow another.
 *
 * Dates are `DD-MM-YYYY` and times `HH:MM` text, read by fixed-width slicing: the subset
 * types below say which characters must be digits, so the digit conversions never fail.
 */
module Schedule {

  predicate IsDigit(c: char) {
    '0' <= c <= '9'
  }

  function DigitValue(c: char): (v: nat)
    requires IsDigit(c)
    ensures v < 10
  {
    (c as int) - ('0' as int)
  }

  /** The value of the two decimal digits s[i], s[i+1]. */
  function Number2(s: string, i: nat): (v: nat)
    requires i + 2 <= |s| && IsDigit(s[i]) && IsDigit(s[i + 1])
    ensures v < 100
  {
    10 * DigitValue(s[i]) + DigitValue(s[i + 1])
  }

  /** `DD-MM-YYYY`: only the digit positions are read; the separators are skipped. */
  predicate IsDateText(s: string) {
    |s| == 10 &&
    IsDigit(s[0]) && IsDigit(s[1]) &&
    IsDigit(s[3]) && IsDigit(s[4]) &&
    IsDigit(s[6]) && IsDigit(s[7]) && IsDigit(s[8]) && IsDigit(s[9])
  }

  /** `HH:MM`: only the digit positions are read. */
  predicate IsTimeText(s: string) {
    |s| == 5 && IsDigit(s[0]) && IsDigit(s[1]) && IsDigit(s[3]) && IsDigit(s[4])
  }

  type DateText = s: string | IsDateText(s) witness "01-01-2024"
  type TimeText = s: string | IsTimeText(s) witness "00:00"

  function Day(d: DateText): (v: nat) ensures v < 100 { Number2(d, 0) }
  function Month(d: DateText): (v: nat) ensures v < 100 { Number2(d, 3) }
  function Year(d: DateText): (v: nat)
    ensures v < 10000
  {
    100 * Number2(d, 6) + Number2(d, 8)
  }

  function Hours(t: TimeText): (v: nat) ensures v < 100 { Number2(t, 0) }
  function Minutes(t: TimeText): (v: nat) ensures v < 100 { Number2(t, 3) }

  /** A time of day on the 24-hour clock. */
  predicate IsClockTime(t: TimeText) {
    Hours(t) <= 23 && Minutes(t) <= 59
  }

  /** One scheduled leg out of the port whose adjacency row holds it. */
  datatype Route = Route(
    destination: string,
    date: DateText,
    depTime: TimeText,
    arrTime: TimeText,
    cost: int,
    company: string,
    travelTime: int)

  datatype Port = Port(name: string, cost: int, weatherConditions: seq<string>)

  /** One itinerary produced by the route enumerator. */
  datatype CompleteRoute = CompleteRoute(
    portPath: seq<int>,
    routeLegs: seq<Route>,
    totalCost: int,
    totalTime: int,
    layoverCount: int)

  /** Quotient and remainder are unique: n == q * b + r with 0 <= r < b fixes n / b and n % b. */
  lemma DivModOf(n: int, b: int, q: int, r: int)
    requires 0 < b && 0 <= r < b && n == q * b + r
    ensures n / b == q && n % b == r
  {
    var q' := n / b;
    if q' < q {
      MulStepUp(q', q, b);
    } else if q < q' {
      MulStepUp(q, q', b);
    }
  }

  /** The number yyyymmdd splits back into its year, month and day fields. */
  lemma DateDigits(y: nat, m: nat, d: nat)
    requires m < 100 && d < 100
    ensures var r := y * 10000 + m * 100 + d;
      r / 10000 == y && r % 10000 / 100 == m && r % 100 == d
  {
    var low := m * 100 + d;
    var r := y * 10000 + low;
    DivModOf(r, 10000, y, low);
    DivModOf(low, 100, m, d);
    DivModOf(r, 100, y * 100 + m, d);
  }

  /** The date as the number yyyymmdd. */
  function DateToInt(d: DateText): (r: nat)
    ensures r / 10000 == Year(d) && r % 10000 / 100 == Month(d) && r % 100 == Day(d)
  {
    DateDigits(Year(d), Month(d), Day(d));
    Year(d) * 10000 + Month(d) * 100 + Day(d)
  }

  /** Calendar order on (year, month, day), written independently of DateToInt. */
  predicate DateBefore(a: DateText, b: DateText) {
    Year(a) < Year(b) ||
    (Year(a) == Year(b) && (Month(a) < Month(b) || (Month(a) == Month(b) && Day(a) < Day(b))))
  }

  predicate SameDate(a: DateText, b: DateText) {
    Year(a) == Year(b) && Month(a) == Month(b) && Day(a) == Day(b)
  }

  lemma MulStepUp(lo: int, hi: int, base: int)
    requires 0 < base && lo < hi
    ensures lo * base + base <= hi * base
  {
    var k := hi - lo - 1;
    assert hi * base == (lo + 1 + k) * base;
    assert (lo + 1 + k) * base == lo * base + base + k * base;
    assert k * base >= 0;
  }

  /** Comparing hi * base + lo compares (hi, lo) lexicographically when lo is a digit of base. */
  lemma ScaledLess(hi1: int, lo1: int, hi2: int, lo2: int, base: int)
    requires 0 < base && 0 <= lo1 < base && 0 <= lo2 < base
    ensures hi1 * base + lo1 < hi2 * base + lo2 <==> hi1 < hi2 || (hi1 == hi2 && lo1 < lo2)
    ensures hi1 * base + lo1 == hi2 * base + lo2 <==> hi1 == hi2 && lo1 == lo2
  {
    if hi1 < hi2 {
      MulStepUp(hi1, hi2, base);
    } else if hi2 < hi1 {
      MulStepUp(hi2, hi1, base);
    }
  }

  /** Comparing the yyyymmdd numbers is comparing the calendar dates. */
  lemma DateToIntOrder(a: DateText, b: DateText)
    ensures DateToInt(a) < DateToInt(b) <==> DateBefore(a, b)
    ensures DateToInt(a) == DateToInt(b) <==> SameDate(a, b)
  {
    ScaledLess(Month(a), Day(a), Month(b), Day(b), 100);
    var lowA := Month(a) * 100 + Day(a);
    var lowB := Month(b) * 100 + Day(b);
    ScaledLess(Year(a), lowA, Year(b), lowB, 10000);
  }

  /** Minutes since midnight of `HH:MM`. */
  function TimeToMinutes(t: TimeText): (r: nat)
    ensures Minutes(t) < 60 ==> r / 60 == Hours(t) && r % 60 == Minutes(t)
    ensures IsClockTime(t) ==> r < 24 * 60
  {
    Hours(t) * 60 + Minutes(t)
  }

  /** A minute of the day is its own remainder modulo one day, also one day later. */
  lemma DayWrap(m: int)
    ensures 0 <= m < 24 * 60 ==> m % (24 * 60) == m && (m + 24 * 60) % (24 * 60) == m
  {
  }

  /**
   * Duration of a leg in minutes; an arrival earlier in the day than the departure is taken
   * to be on the next day.
   */
  function CalculateTravelTime(depTime: TimeText, arrTime: TimeText): (r: int)
    ensures IsClockTime(depTime) && IsClockTime(arrTime) ==>
      0 <= r < 24 * 60 && (TimeToMinutes(depTime) + r) % (24 * 60) == TimeToMinutes(arrTime)
    ensures TimeToMinutes(arrTime) >= TimeToMinutes(depTime) ==> r == TimeToMinutes(arrTime) - TimeToMinutes(depTime)
  {
    var depMinutes := TimeToMinutes(depTime);
    var arrMinutes := TimeToMinutes(arrTime);
    DayWrap(arrMinutes);
    var travelTime := arrMinutes - depMinutes;
    if travelTime < 0 then travelTime + 24 * 60 else travelTime
  }

  /**
   * `currentLeg` may follow `prevLeg`: it departs on a later date, or on the same date at a
   * strictly later minute than `prevLeg` arrives. The arrival is taken to be on `prevLeg`'s
   * date, also for a leg that crosses midnight.
   */
  predicate IsValidLegTransition(prevLeg: Route, currentLeg: Route) {
    var prevArrivalDate := DateToInt(prevLeg.date);
    var currentDepDate := DateToInt(currentLeg.date);
    var prevArrivalTime := TimeToMinutes(prevLeg.arrTime);
    var currentDepTime := TimeToMinutes(currentLeg.depTime);
    if currentDepDate > prevArrivalDate then true
    else if currentDepDate == prevArrivalDate then currentDepTime > prevArrivalTime
    else false
  }

  /** Lexicographic order on (year, month, day, minute), the reference for the chaining rule. */
  predicate StampBefore(y1: int, m1: int, d1: int, t1: int, y2: int, m2: int, d2: int, t2: int) {
    y1 < y2 || (y1 == y2 && (m1 < m2 || (m1 == m2 && (d1 < d2 || (d1 == d2 && t1 < t2)))))
  }

  /** The chaining rule is the strict calendar order of (prev arrival, next departure). */
  lemma TransitionIsStrictOrder(prevLeg: Route, currentLeg: Route)
    ensures IsValidLegTransition(prevLeg, currentLeg) <==>
      StampBefore(Year(prevLeg.date), Month(prevLeg.date), Day(prevLeg.date), TimeToMinutes(prevLeg.arrTime),
                  Year(currentLeg.date), Month(currentLeg.date), Day(currentLeg.date), TimeToMinutes(currentLeg.depTime))
  {
    DateToIntOrder(prevLeg.date, currentLeg.date);
    DateToIntOrder(currentLeg.date, prevLeg.date);
  }

  /** Every adjacent pair of legs is a valid transition. */
  ghost predicate Chained(legs: seq<Route>) {
    forall i :: 1 <= i < |legs| ==> IsValidLegTransition(legs[i - 1], legs[i])
  }

  /** Appending a leg that chains after the last one keeps the sequence chained. */
  lemma ChainedAppend(legs: seq<Route>, route: Route)
    requires Chained(legs) && (|legs| > 0 ==> IsValidLegTransition(legs[|legs| - 1], route))
    ensures Chained(legs + [route])
  {
    var l := legs + [route];
    forall i | 1 <= i < |l| ensures IsValidLegTransition(l[i - 1], l[i]) {
      if i < |legs| {
        assert l[i - 1] == legs[i - 1] && l[i] == legs[i];
      } else {
        assert l[i - 1] == legs[|legs| - 1] && l[i] == route;
      }
    }
  }

  /** The loop of the path check: every pair (legs[j-1], legs[j]) with j >= i chains. */
  function ChainedFrom(legs: seq<Route>, i: nat): (b: bool)
    requires 1 <= i
    ensures b <==> forall j :: i <= j < |legs| ==> IsValidLegTransition(legs[j - 1], legs[j])
    decreases |legs| - i
  {
    if i >= |legs| then true
    else if !IsValidLegTransition(legs[i - 1], legs[i]) then false
    else ChainedFrom(legs, i + 1)
  }

  /**
   * A port path and its legs form a temporally valid route: at least one leg, one leg per
   * consecutive pair of ports, and every adjacent pair of legs chains.
   */
  function IsValidRoutePath(path: seq<int>, routeLegs: seq<Route>): (b: bool)
    ensures b <==> 1 <= |routeLegs| && |routeLegs| == |path| - 1 && Chained(routeLegs)
  {
    if |routeLegs| < 1 then false
    else if |routeLegs| != |path| - 1 then false
    else ChainedFrom(routeLegs, 1)
  }

  /** Along a chained leg sequence the departure dates never go back. */
  lemma {:induction false} ChainedDatesNondecreasing(legs: seq<Route>, i: nat, j: nat)
    requires Chained(legs) && i <= j < |legs|
    ensures DateToInt(legs[i].date) <= DateToInt(legs[j].date)
    decreases j - i
  {
    if i < j {
      ChainedDatesNondecreasing(legs, i, j - 1);
      assert IsValidLegTransition(legs[j - 1], legs[j]);
    }
  }
}
