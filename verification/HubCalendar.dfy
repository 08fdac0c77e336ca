/** app/hub_calendar.py: a hub's own days and months, as spans of UTC instants.

    A time zone is two functions: the instant each local day begins, and the local day of each
    instant. All that is taken of them is `Keeps`: no day begins before the one it follows, and an
    instant's local day is the one it falls in. Nothing is taken of how long a day is, so days of 23
    and 25 hours are included, and days a zone skips, which begin and end at one instant. Days are
    proleptic Gregorian ordinals; instants are in any fixed unit. */
module HubCalendar {
  import opened Wrappers

  datatype Zone = Zone(midnight: int -> int, localDate: int -> int)

  ghost predicate Keeps(z: Zone) {
    && (forall d :: Follows(z, d))
    && (forall t :: FallsInItsDay(z, t))
  }

  predicate Follows(z: Zone, d: int) {
    z.midnight(d) <= z.midnight(d + 1)
  }

  predicate FallsInItsDay(z: Zone, t: int) {
    z.midnight(z.localDate(t)) <= t < z.midnight(z.localDate(t) + 1)
  }

  /** The zone does not skip the day. */
  predicate Lasts(z: Zone, d: int) {
    z.midnight(d) < z.midnight(d + 1)
  }

  /** A clock that never changes keeps, and so does one that skips a day, as Apia's did on 30 December 2011. */
  lemma ZonesThatKeep(skipped: int)
    ensures Keeps(Zone(d => 24 * d, t => t / 24))
    ensures var z := Zone(d => if d <= skipped then 24 * d else 24 * (d - 1),
                          t => if t < 24 * skipped then t / 24 else t / 24 + 1);
      Keeps(z) && !Lasts(z, skipped)
  {
  }

  /** A day as the two midnights that bound it. */
  type Span = (int, int)

  function DayBounds(z: Zone, day: int): Span {
    (z.midnight(day), z.midnight(day + 1))
  }

  /** The `n` days from `first`. */
  function DaysFrom(z: Zone, first: int, n: nat): (days: seq<Span>)
    ensures |days| == n && forall i :: 0 <= i < n ==> days[i] == DayBounds(z, first + i)
  {
    if n == 0 then [] else DaysFrom(z, first, n - 1) + [DayBounds(z, first + n - 1)]
  }

  /** `hub_days`: from the local day of `since`, every day that begins before `until`. */
  method HubDays(z: Zone, since: int, until: int) returns (days: seq<Span>)
    requires Keeps(z)
    ensures IsHubDays(z, since, until, days)
  {
    var day := z.localDate(since);
    days := [];
    while z.midnight(day) < until
      invariant day == z.localDate(since) + |days|
      invariant days == DaysFrom(z, z.localDate(since), |days|)
      invariant |days| > 0 ==> z.midnight(day - 1) < until
      decreases z.localDate(until) - day
    {
      UpToTheLast(z, day, until);
      days := days + [(z.midnight(day), z.midnight(day + 1))];
      day := day + 1;
    }
  }

  ghost predicate IsHubDays(z: Zone, since: int, until: int, days: seq<Span>) {
    var first := z.localDate(since);
    && days == DaysFrom(z, first, |days|)
    && (|days| > 0 ==> z.midnight(first + |days| - 1) < until)
    && until <= z.midnight(first + |days|)
  }

  predicate Within(t: int, s: Span) {
    s.0 <= t < s.1
  }

  /** One after another with no gap and no overlap. */
  ghost predicate Contiguous(days: seq<Span>) {
    forall i, j :: 0 <= i < j < |days| && j == i + 1 ==> days[i].1 == days[j].0
  }

  ghost predicate InExactlyOne(t: int, days: seq<Span>) {
    exists i :: 0 <= i < |days| && Within(t, days[i]) && forall j :: 0 <= j < |days| && Within(t, days[j]) ==> j == i
  }

  function Length(days: seq<Span>): int {
    if days == [] then 0 else Length(days[..|days| - 1]) + days[|days| - 1].1 - days[|days| - 1].0
  }

  lemma DaysAbut(z: Zone, first: int, n: nat)
    ensures Contiguous(DaysFrom(z, first, n))
  {
  }

  lemma {:induction false} LengthsTelescope(z: Zone, first: int, n: nat)
    ensures Length(DaysFrom(z, first, n)) == z.midnight(first + n) - z.midnight(first)
  {
    if n > 0 {
      var days := DaysFrom(z, first, n);
      assert days[..|days| - 1] == DaysFrom(z, first, n - 1);
      LengthsTelescope(z, first, n - 1);
    }
  }

  lemma {:induction false} LaterDay(z: Zone, d: int, e: int)
    requires Keeps(z) && d <= e
    ensures z.midnight(d) <= z.midnight(e)
    decreases e - d
  {
    if d < e {
      assert Follows(z, e - 1);
      LaterDay(z, d, e - 1);
    }
  }

  lemma MidnightsAreInOrder(z: Zone, d: int, e: int)
    requires Keeps(z)
    ensures d <= e ==> z.midnight(d) <= z.midnight(e)
    ensures z.midnight(d) < z.midnight(e) ==> d < e
  {
    if d <= e {
      LaterDay(z, d, e);
    } else {
      LaterDay(z, e, d);
    }
  }

  /** A day that begins before an instant is no later than the instant's own. */
  lemma UpToTheLast(z: Zone, d: int, t: int)
    requires Keeps(z) && z.midnight(d) < t
    ensures d <= z.localDate(t)
  {
    assert FallsInItsDay(z, t);
    MidnightsAreInOrder(z, d, z.localDate(t) + 1);
  }

  lemma OneDayOnly(z: Zone, t: int, d: int)
    requires Keeps(z)
    ensures Within(t, DayBounds(z, d)) <==> d == z.localDate(t)
  {
    var e := z.localDate(t);
    assert FallsInItsDay(z, t);
    if Within(t, DayBounds(z, d)) {
      MidnightsAreInOrder(z, d, e + 1);
      MidnightsAreInOrder(z, e, d + 1);
    }
  }

  lemma EachInstantOnce(z: Zone, since: int, until: int, days: seq<Span>, t: int)
    requires Keeps(z) && since <= t < until && IsHubDays(z, since, until, days)
    ensures InExactlyOne(t, days)
  {
    var first := z.localDate(since);
    var i := z.localDate(t) - first;
    assert FallsInItsDay(z, since) && FallsInItsDay(z, t);
    OneDayOnly(z, t, first + i);
    MidnightsAreInOrder(z, first, first + i + 1);
    MidnightsAreInOrder(z, first + i, first + |days|);
    assert Within(t, days[i]);
    forall j | 0 <= j < |days| && Within(t, days[j]) ensures j == i {
      OneDayOnly(z, t, first + j);
    }
  }

  /** A local day is returned exactly when it overlaps the period. */
  lemma ReturnedIffOverlaps(z: Zone, since: int, until: int, days: seq<Span>, d: int)
    requires Keeps(z) && since < until && IsHubDays(z, since, until, days)
    ensures DayBounds(z, d) in days <==> Overlaps(z, since, until, d)
  {
    var first := z.localDate(since);
    assert FallsInItsDay(z, since);
    MidnightsAreInOrder(z, first, d + 1);
    MidnightsAreInOrder(z, d, first + |days|);
    if DayBounds(z, d) in days {
      var i :| 0 <= i < |days| && days[i] == DayBounds(z, d);
      MidnightsAreInOrder(z, d, first + i);
      MidnightsAreInOrder(z, first + i, d);
      MidnightsAreInOrder(z, first + i, first + |days| - 1);
      MidnightsAreInOrder(z, first + 1, first + i + 1);
    }
    assert 0 <= d - first < |days| ==> days[d - first] == DayBounds(z, d);
  }

  lemma EveryInstantOnce(z: Zone, since: int, until: int, days: seq<Span>)
    requires Keeps(z) && IsHubDays(z, since, until, days)
    ensures forall t :: since <= t < until ==> InExactlyOne(t, days)
  {
    forall t | since <= t < until ensures InExactlyOne(t, days) {
      EachInstantOnce(z, since, until, days, t);
    }
  }

  predicate Overlaps(z: Zone, since: int, until: int, d: int) {
    z.midnight(d) < until && since < z.midnight(d + 1)
  }

  lemma ReturnedAreOverlapping(z: Zone, since: int, until: int, days: seq<Span>)
    requires Keeps(z) && since < until && IsHubDays(z, since, until, days)
    ensures forall d :: DayBounds(z, d) in days <==> Overlaps(z, since, until, d)
  {
    forall d ensures DayBounds(z, d) in days <==> Overlaps(z, since, until, d) {
      ReturnedIffOverlaps(z, since, until, days, d);
    }
  }

  /** The days tile the period: contiguous, every instant of it in exactly one of them, and a local day
      among them exactly when it overlaps it. */
  lemma DaysTile(z: Zone, since: int, until: int, days: seq<Span>)
    requires Keeps(z) && since < until && IsHubDays(z, since, until, days)
    ensures Contiguous(days)
    ensures forall t :: since <= t < until ==> InExactlyOne(t, days)
    ensures forall d :: DayBounds(z, d) in days <==> Overlaps(z, since, until, d)
    ensures |days| > 0 && Length(days) == days[|days| - 1].1 - days[0].0
  {
    EveryInstantOnce(z, since, until, days);
    ReturnedAreOverlapping(z, since, until, days);
    PeriodHasADay(z, since, until, days);
  }

  lemma PeriodHasADay(z: Zone, since: int, until: int, days: seq<Span>)
    requires Keeps(z) && since < until && IsHubDays(z, since, until, days)
    ensures |days| > 0 && Contiguous(days) && Length(days) == days[|days| - 1].1 - days[0].0
  {
    assert FallsInItsDay(z, since);
    SomeDays(z, z.localDate(since), |days|);
  }

  lemma SomeDays(z: Zone, first: int, n: nat)
    requires n > 0
    ensures Contiguous(DaysFrom(z, first, n))
    ensures Length(DaysFrom(z, first, n)) == DaysFrom(z, first, n)[n - 1].1 - DaysFrom(z, first, n)[0].0
  {
    DaysAbut(z, first, n);
    LengthsTelescope(z, first, n);
  }

  /** Over a period of whole days, exactly those, unless the first or the last is one the zone skips. */
  lemma WholeDays(z: Zone, first: int, n: nat, days: seq<Span>)
    requires Keeps(z) && n > 0 && IsHubDays(z, z.midnight(first), z.midnight(first + n), days)
    ensures days == DaysFrom(z, first, n) <==> Lasts(z, first) && Lasts(z, first + n - 1)
  {
    if days == DaysFrom(z, first, n) {
      BothEndsLast(z, first, n, days);
    }
    if Lasts(z, first) && Lasts(z, first + n - 1) {
      OneDayOnly(z, z.midnight(first), first);
      MidnightsAreInOrder(z, first + n, first + |days|);
      MidnightsAreInOrder(z, first + |days|, first + n - 1);
      MidnightsAreInOrder(z, first, first + n - 1);
      MidnightsAreInOrder(z, first + n, first + |days| - 1);
    }
  }

  lemma BothEndsLast(z: Zone, first: int, n: nat, days: seq<Span>)
    requires Keeps(z) && n > 0 && IsHubDays(z, z.midnight(first), z.midnight(first + n), days)
    requires days == DaysFrom(z, first, n)
    ensures Lasts(z, first) && Lasts(z, first + n - 1)
  {
    var from := z.localDate(z.midnight(first));
    assert FallsInItsDay(z, z.midnight(first));
    assert days[0] == DayBounds(z, first) && days[0] == DayBounds(z, from);
    assert days[n - 1] == DayBounds(z, first + n - 1) && days[n - 1] == DayBounds(z, from + n - 1);
  }

  /** From one instant to the other, first to last, and as long as that. */
  ghost predicate Spans(days: seq<Span>, since: int, until: int) {
    && (days != [] ==> days[0].0 == since && days[|days| - 1].1 == until)
    && Length(days) == until - since
  }

  lemma DaysSpan(z: Zone, from: int, k: nat)
    ensures Spans(DaysFrom(z, from, k), z.midnight(from), z.midnight(from + k))
  {
    LengthsTelescope(z, from, k);
  }

  /** With days skipped at either end or not, the days returned span the whole period. */
  lemma WholeDaysSpan(z: Zone, first: int, n: nat, days: seq<Span>)
    requires Keeps(z) && IsHubDays(z, z.midnight(first), z.midnight(first + n), days)
    ensures Spans(days, z.midnight(first), z.midnight(first + n))
  {
    SameEnds(z, first, n, |days|);
    DaysSpan(z, z.localDate(z.midnight(first)), |days|);
  }

  lemma SameEnds(z: Zone, first: int, n: nat, k: nat)
    requires Keeps(z)
    requires var from := z.localDate(z.midnight(first));
      (k > 0 ==> z.midnight(from + k - 1) < z.midnight(first + n)) && z.midnight(first + n) <= z.midnight(from + k)
    ensures var from := z.localDate(z.midnight(first));
      z.midnight(from) == z.midnight(first) && z.midnight(from + k) == z.midnight(first + n)
  {
    var from := z.localDate(z.midnight(first));
    assert FallsInItsDay(z, z.midnight(first));
    MidnightsAreInOrder(z, first, from + 1);
    MidnightsAreInOrder(z, first, from);
    MidnightsAreInOrder(z, first, first + n);
    if k > 0 {
      MidnightsAreInOrder(z, from + k - 1, first + n);
      MidnightsAreInOrder(z, from + k, first + n);
    }
  }

  // ---------------------------------------------------------------- months

  predicate IsLeap(y: int) {
    y % 4 == 0 && (y % 100 != 0 || y % 400 == 0)
  }

  function DaysInMonth(y: int, m: int): nat {
    if m == 2 then if IsLeap(y) then 29 else 28
    else if m == 4 || m == 6 || m == 9 || m == 11 then 30 else 31
  }

  function DaysBeforeYear(y: int): int {
    (y - 1) * 365 + (y - 1) / 4 - (y - 1) / 100 + (y - 1) / 400
  }

  function DaysBeforeMonth(y: int, m: int): nat
    requires m >= 1
  {
    if m == 1 then 0 else DaysBeforeMonth(y, m - 1) + DaysInMonth(y, m - 1)
  }

  /** `date(y, m, d).toordinal()`. */
  function Ordinal(y: int, m: int, d: int): int
    requires m >= 1
  {
    DaysBeforeYear(y) + DaysBeforeMonth(y, m) + d
  }

  /** What `date` accepts as the first of a month. */
  predicate ValidMonth(y: int, m: int) {
    1 <= y <= 9999 && 1 <= m <= 12
  }

  /** Thirty days hath September. */
  lemma MonthLengths(y: int)
    ensures forall m :: m in {1, 3, 5, 7, 8, 10, 12} ==> DaysInMonth(y, m) == 31
    ensures forall m :: m in {4, 6, 9, 11} ==> DaysInMonth(y, m) == 30
    ensures DaysInMonth(y, 2) == if y % 4 == 0 && (y % 100 != 0 || y % 400 == 0) then 29 else 28
  {
  }

  /** Days are numbered from the first of January of the year 1. */
  lemma OrdinalsStart()
    ensures Ordinal(1, 1, 1) == 1
  {
    assert DaysBeforeYear(1) == 0 && DaysBeforeMonth(1, 1) == 0;
  }

  /** And one after another within a month. */
  lemma OrdinalsGoOn(y: int, m: int, d: int)
    requires m >= 1
    ensures Ordinal(y, m, d + 1) == Ordinal(y, m, d) + 1
  {
  }

  /** The year and month that follow. */
  function Following(y: int, m: int): (next: (int, int))
    ensures 1 <= m <= 12 ==> next == if m == 12 then (y + 1, 1) else (y, m + 1)
  {
    (y + m / 12, m % 12 + 1)
  }

  /** `hub_month`; None where `date` raises, which the last month it can represent makes it do. */
  function HubMonth(z: Zone, y: int, m: int): Option<Span> {
    var (y', m') := Following(y, m);
    if !ValidMonth(y', m') || !ValidMonth(y, m) then None
    else Some((z.midnight(Ordinal(y, m, 1)), z.midnight(Ordinal(y', m', 1))))
  }

  /** A month has bounds exactly when both its first and the next month's are dates: every month of the years 1 to
      9999 but the last. */
  lemma MonthIsThere(z: Zone, y: int, m: int)
    ensures HubMonth(z, y, m).Some? <==> 1 <= y <= 9999 && 1 <= m <= 12 && !(y == 9999 && m == 12)
  {
  }

  /** The first of the following month is as many days on as the month has. */
  lemma FollowingMonth(y: int, m: int)
    requires ValidMonth(y, m)
    ensures Ordinal(Following(y, m).0, Following(y, m).1, 1) == Ordinal(y, m, 1) + DaysInMonth(y, m)
  {
    if m == 12 {
      YearLength(y);
    }
  }

  lemma YearLength(y: int)
    ensures DaysBeforeYear(y + 1) == DaysBeforeYear(y) + 365 + if IsLeap(y) then 1 else 0
    ensures DaysBeforeMonth(y, 12) + DaysInMonth(y, 12) == 365 + if IsLeap(y) then 1 else 0
  {
    NextQuotient(y, 4);
    NextQuotient(y, 100);
    NextQuotient(y, 400);
    Centuries(y);
    MonthsOfTheYear(y);
  }

  /** A quotient goes up by one exactly at each multiple. */
  lemma NextQuotient(y: int, k: int)
    requires k > 1
    ensures y / k == (y - 1) / k + if y % k == 0 then 1 else 0
  {
    var q, r := (y - 1) / k, (y - 1) % k;
    assert y - 1 == k * q + r && 0 <= r < k;
    if r == k - 1 {
      assert k * (q + 1) + 0 == k * q + k;
      QuotientIs(k, q + 1, 0);
    } else {
      QuotientIs(k, q, r + 1);
    }
  }

  lemma QuotientIs(k: int, q: int, r: int)
    requires 0 <= r < k
    ensures (k * q + r) / k == q && (k * q + r) % k == r
  {
    var y := k * q + r;
    var d := y / k - q;
    assert y == k * (y / k) + y % k;
    assert k * (y / k) - k * q == k * d;
    assert -k < k * d < k;
    MultipleGrows(k, d);
  }

  lemma MultipleGrows(k: int, d: int)
    requires k > 0
    ensures d >= 1 ==> k * d >= k
    ensures d <= -1 ==> k * d <= -k
  {
    if d >= 1 {
      assert k * d >= k * 1;
    } else if d <= -1 {
      assert k * d <= k * -1;
    }
  }

  /** A year that 100 divides is one that 4 divides, and so on. */
  lemma Centuries(y: int)
    ensures y % 100 == 0 ==> y % 4 == 0
    ensures y % 400 == 0 ==> y % 100 == 0
  {
    QuotientIs(4, 25 * (y / 100), 0);
    QuotientIs(100, 4 * (y / 400), 0);
  }

  lemma MonthsOfTheYear(y: int)
    ensures DaysBeforeMonth(y, 12) + DaysInMonth(y, 12) == 365 + if IsLeap(y) then 1 else 0
  {
    assert DaysBeforeMonth(y, 2) == 31;
    assert DaysBeforeMonth(y, 4) == 31 + DaysInMonth(y, 2) + 31;
    assert DaysBeforeMonth(y, 6) == DaysBeforeMonth(y, 4) + 61;
    assert DaysBeforeMonth(y, 8) == DaysBeforeMonth(y, 6) + 61;
    assert DaysBeforeMonth(y, 10) == DaysBeforeMonth(y, 8) + 61;
    assert DaysBeforeMonth(y, 12) == DaysBeforeMonth(y, 10) + 61;
  }

  /** A month begins with its first day and spans as many days as it has. */
  lemma MonthSpan(z: Zone, y: int, m: int)
    requires HubMonth(z, y, m).Some?
    ensures HubMonth(z, y, m).value ==
            (z.midnight(Ordinal(y, m, 1)), z.midnight(Ordinal(y, m, 1) + DaysInMonth(y, m)))
  {
    NextBegins(z, y, m);
  }

  lemma NextBegins(z: Zone, y: int, m: int)
    requires ValidMonth(y, m)
    ensures z.midnight(Ordinal(Following(y, m).0, Following(y, m).1, 1)) ==
            z.midnight(Ordinal(y, m, 1) + DaysInMonth(y, m))
  {
    FollowingMonth(y, m);
    SameInstant(z, Ordinal(Following(y, m).0, Following(y, m).1, 1), Ordinal(y, m, 1) + DaysInMonth(y, m));
  }

  lemma SameInstant(z: Zone, d: int, e: int)
    requires d == e
    ensures z.midnight(d) == z.midnight(e)
  {
  }

  /** The next month, if the calendar has it, begins where this one ends. */
  lemma MonthsAbut(z: Zone, y: int, m: int)
    requires HubMonth(z, y, m).Some? && HubMonth(z, Following(y, m).0, Following(y, m).1).Some?
    ensures HubMonth(z, Following(y, m).0, Following(y, m).1).value.0 == HubMonth(z, y, m).value.1
  {
  }

  /** The hub's days over the hub's month are exactly the days of that month, unless the zone skips its first or
      its last; they span it in any case. */
  lemma MonthIsItsDays(z: Zone, y: int, m: int, days: seq<Span>)
    requires Keeps(z) && HubMonth(z, y, m).Some?
    requires IsHubDays(z, HubMonth(z, y, m).value.0, HubMonth(z, y, m).value.1, days)
    ensures var first, n := Ordinal(y, m, 1), DaysInMonth(y, m);
      days == DaysFrom(z, first, n) <==> Lasts(z, first) && Lasts(z, first + n - 1)
    ensures Spans(days, HubMonth(z, y, m).value.0, HubMonth(z, y, m).value.1)
  {
    MonthSpan(z, y, m);
    MonthOf(z, Ordinal(y, m, 1), DaysInMonth(y, m), HubMonth(z, y, m).value, days);
  }

  lemma MonthOf(z: Zone, first: int, n: nat, month: Span, days: seq<Span>)
    requires Keeps(z) && n > 0 && month == (z.midnight(first), z.midnight(first + n))
    requires IsHubDays(z, month.0, month.1, days)
    ensures days == DaysFrom(z, first, n) <==> Lasts(z, first) && Lasts(z, first + n - 1)
    ensures Spans(days, month.0, month.1)
  {
    WholeDays(z, first, n, days);
    WholeDaysSpan(z, first, n, days);
  }
}
