/** app/baseline/metrics.py: engaged hours, from the best source each driver-day has.

    Hours are reals: rounding is not modelled. Comparing a time that carries an offset with one that does not
    raises, and nothing in the source catches it. */
module EngagedHours {
  import opened Timestamps
  import opened Wrappers
  import BaselineLoading
  import HeaderBinding

  type Row = BaselineLoading.ActivityRow

  /** A driver and a calendar day. */
  datatype DriverDay = DriverDay(driver: string, day: int)

  /** Where a day's hours came from, most trustworthy first. */
  datatype Source = FromShift | FromStated | FromSpan

  datatype Engaged = Engaged(total: real, source: Source, driverDays: nat, coveredDays: nat)

  function DayOf(r: Row): DriverDay {
    DriverDay(r.driverId, r.completedAt.Date())
  }

  // ---------------------------------------------------------------- one driver-day

  /** `[f(r) for r in rows if f(r) is not None]`. */
  function Pick<T>(f: Row -> Option<T>, rows: seq<Row>): seq<T> {
    if rows == [] then []
    else (if f(rows[0]).Some? then [f(rows[0]).value] else []) + Pick(f, rows[1..])
  }

  function Starts(rows: seq<Row>): seq<Time> {
    Pick((r: Row) => r.shiftStart, rows)
  }

  function Ends(rows: seq<Row>): seq<Time> {
    Pick((r: Row) => r.shiftEnd, rows)
  }

  function Completions(rows: seq<Row>): seq<Time> {
    Pick((r: Row) => Some(r.completedAt), rows)
  }

  function Stated(rows: seq<Row>): seq<real> {
    Pick((r: Row) => if r.hours.Some? && r.hours.value > 0.0 then r.hours else None, rows)
  }

  function Sum(s: seq<real>): real {
    if s == [] then 0.0 else s[0] + Sum(s[1..])
  }

  function ToHours(seconds: int): real {
    seconds as real / 3600.0
  }

  predicate AllEqual(s: seq<real>) {
    forall i, j :: 0 <= i < j < |s| ==> s[i] == s[j]
  }

  /** A stated total repeated on every row counts once. */
  function StatedHours(members: seq<Row>): real
    requires Stated(members) != []
  {
    var stated := Stated(members);
    if AllEqual(stated) then stated[0] else Sum(stated)
  }

  type Share = Option<(real, Source)>

  /** What one driver-day contributes, from its best source; none if no source gives it hours. */
  function DayHours(members: seq<Row>): Result<Share, TypeError> {
    if Starts(members) != [] && Ends(members) != [] then
      match Between(Ends(members), Starts(members))
      case Err(_) => Err(MixedZones)
      case Ok(span) => if span > 0 then Ok(Some((ToHours(span), FromShift))) else WithoutClock(members)
    else WithoutClock(members)
  }

  function WithoutClock(members: seq<Row>): Result<Share, TypeError> {
    if Stated(members) != [] then Ok(Some((StatedHours(members), FromStated)))
    else if |members| > 1 then
      assert Completions(members) != [] by { PickAll(members); }
      match Between(Completions(members), Completions(members))
      case Err(_) => Err(MixedZones)
      case Ok(span) => Ok(if span > 0 then Some((ToHours(span), FromSpan)) else None)
    else Ok(None)
  }

  lemma {:induction false} PickAll(rows: seq<Row>)
    ensures |Completions(rows)| == |rows|
    ensures forall i :: 0 <= i < |rows| ==> Completions(rows)[i] == rows[i].completedAt
  {
    if rows != [] {
      PickAll(rows[1..]);
    }
  }

  // ---------------------------------------------------------------- all of them

  function Members(rows: seq<Row>, k: DriverDay): seq<Row> {
    Pick((r: Row) => if DayOf(r) == k then Some(r) else None, rows)
  }

  /** The driver-days of the first `n` rows, in order of first appearance. */
  function DaysUpTo(rows: seq<Row>, n: nat): seq<DriverDay>
    requires n <= |rows|
  {
    if n == 0 then []
    else
      var before, k := DaysUpTo(rows, n - 1), DayOf(rows[n - 1]);
      if k in before then before else before + [k]
  }

  function Days(rows: seq<Row>): seq<DriverDay> {
    DaysUpTo(rows, |rows|)
  }

  function Contribution(rows: seq<Row>, k: DriverDay): Result<Share, TypeError> {
    DayHours(Members(rows, k))
  }

  /** `total`, `covered` and `used`. */
  datatype Tally = Tally(total: real, covered: nat, used: set<Source>)

  const NOTHING := Tally(0.0, 0, {})

  function One(c: Share): Tally {
    match c
    case None => NOTHING
    case Some((hours, source)) => Tally(hours, 1, {source})
  }

  function Plus(t: Tally, u: Tally): Tally {
    Tally(t.total + u.total, t.covered + u.covered, t.used + u.used)
  }

  /** What a driver-day contributes, whatever the rows. */
  type Shares = DriverDay -> Result<Share, TypeError>

  function ContributionOf(rows: seq<Row>): Shares {
    k => Contribution(rows, k)
  }

  /** The days' shares added up, unless one raised. */
  function Total(f: Shares, days: seq<DriverDay>): Result<Tally, TypeError> {
    if days == [] then Ok(NOTHING) else Both(OneDay(f(days[0])), Total(f, days[1..]))
  }

  /** Two tallies together, unless either raised. */
  function Both(t: Result<Tally, TypeError>, u: Result<Tally, TypeError>): Result<Tally, TypeError> {
    if t.Ok? && u.Ok? then Ok(Plus(t.value, u.value)) else Err(MixedZones)
  }

  function OneDay(c: Result<Share, TypeError>): Result<Tally, TypeError> {
    if c.Ok? then Ok(One(c.value)) else Err(MixedZones)
  }

  function Tallied(rows: seq<Row>): Result<Tally, TypeError> {
    Total(ContributionOf(rows), Days(rows))
  }

  function Weakest(used: set<Source>): Source {
    if FromSpan in used then FromSpan else if FromStated in used then FromStated else FromShift
  }

  function Reported(t: Tally, days: nat): Option<Engaged> {
    if t.total <= 0.0 then None else Some(Engaged(t.total, Weakest(t.used), days, t.covered))
  }

  function Hours(rows: seq<Row>): Result<Option<Engaged>, TypeError> {
    match Tallied(rows)
    case Err(_) => Err(MixedZones)
    case Ok(t) => Ok(Reported(t, |Days(rows)|))
  }

  // ---------------------------------------------------------------- the source's loops

  /** The dictionary after `i` rows: each driver-day's rows in order. */
  ghost predicate Grouped(rows: seq<Row>, i: nat, days: seq<DriverDay>, groups: map<DriverDay, seq<Row>>)
    requires i <= |rows|
  {
    && days == DaysUpTo(rows, i)
    && (forall k :: k in groups <==> k in days)
    && (forall k :: Group(groups, k) == Members(rows[..i], k))
  }

  function Group(groups: map<DriverDay, seq<Row>>, k: DriverDay): seq<Row> {
    if k in groups then groups[k] else []
  }

  method GroupRow(rows: seq<Row>, i: nat, days: seq<DriverDay>, groups: map<DriverDay, seq<Row>>)
    returns (days': seq<DriverDay>, groups': map<DriverDay, seq<Row>>)
    requires i < |rows| && Grouped(rows, i, days, groups)
    ensures Grouped(rows, i + 1, days', groups')
  {
    var k := DayOf(rows[i]);
    days', groups' := days, groups;
    if k !in groups {
      groups' := groups'[k := []];
      days' := days' + [k];
    }
    groups' := groups'[k := groups'[k] + [rows[i]]];
    forall d ensures Group(groups', d) == Members(rows[..i + 1], d) {
      MembersGrow(rows, i, d);
      assert Group(groups, d) == Members(rows[..i], d);
    }
  }

  /** `_driver_days`: each row appended to its driver-day, the dictionary in order of first appearance. */
  method DriverDays(rows: seq<Row>) returns (days: seq<DriverDay>, groups: map<DriverDay, seq<Row>>)
    ensures days == Days(rows)
    ensures forall k :: k in groups <==> k in days
    ensures forall k :: k in groups ==> groups[k] == Members(rows, k)
  {
    days, groups := [], map[];
    for i := 0 to |rows|
      invariant Grouped(rows, i, days, groups)
    {
      days, groups := GroupRow(rows, i, days, groups);
    }
    assert rows[..|rows|] == rows;
    assert forall k :: k in groups ==> groups[k] == Group(groups, k);
  }

  lemma MembersGrow(rows: seq<Row>, i: nat, k: DriverDay)
    requires i < |rows|
    ensures Members(rows[..i + 1], k) == Members(rows[..i], k) + if DayOf(rows[i]) == k then [rows[i]] else []
  {
    assert rows[..i + 1] == rows[..i] + [rows[i]];
    PickJoin((r: Row) => if DayOf(r) == k then Some(r) else None, rows[..i], [rows[i]]);
  }

  lemma {:induction false} PickJoin<T>(f: Row -> Option<T>, a: seq<Row>, b: seq<Row>)
    ensures Pick(f, a + b) == Pick(f, a) + Pick(f, b)
  {
    if a == [] {
      assert a + b == b;
    } else {
      var head := if f(a[0]).Some? then [f(a[0]).value] else [];
      assert (a + b)[0] == a[0] && (a + b)[1..] == a[1..] + b;
      PickJoin(f, a[1..], b);
      assert Pick(f, a + b) == head + (Pick(f, a[1..]) + Pick(f, b));
      assert Pick(f, a) == head + Pick(f, a[1..]);
    }
  }

  /** One driver-day added to the total, the count and the sources. */
  method AddDay(t: Tally, c: Share) returns (r: Tally)
    ensures r == Plus(t, One(c))
  {
    match c {
      case None =>
        assert t.used + {} == t.used;
        return t;
      case Some((hours, source)) =>
        return Tally(t.total + hours, t.covered + 1, t.used + {source});
    }
  }

  /** The accumulating loop. */
  method Accumulate(rows: seq<Row>, days: seq<DriverDay>, groups: map<DriverDay, seq<Row>>)
    returns (r: Result<Tally, TypeError>)
    requires forall k :: k in days ==> k in groups && groups[k] == Members(rows, k)
    ensures r == Total(ContributionOf(rows), days)
  {
    var t := NOTHING;
    for i := 0 to |days|
      invariant Total(ContributionOf(rows), days[..i]) == Ok(t)
    {
      var hours := DayHours(groups[days[i]]);
      assert ContributionOf(rows)(days[i]) == hours;
      OneMoreDay(ContributionOf(rows), days, i);
      if hours.Err? {
        SomeDayRaises(ContributionOf(rows), days, i);
        return Err(MixedZones);
      }
      t := AddDay(t, hours.value);
    }
    assert days[..|days|] == days;
    return Ok(t);
  }

  lemma OneMoreDay(f: Shares, days: seq<DriverDay>, i: nat)
    requires i < |days|
    ensures Total(f, days[..i + 1]) == Both(Total(f, days[..i]), OneDay(f(days[i])))
  {
    assert days[..i + 1] == days[..i] + [days[i]];
    TotalJoin(f, days[..i], [days[i]]);
    OneTotal(f, days[i]);
  }

  lemma SomeDayRaises(f: Shares, days: seq<DriverDay>, i: nat)
    requires i < |days| && f(days[i]).Err?
    ensures Total(f, days) == Err(MixedZones)
  {
    TotalRaisesIff(f, days);
  }

  method EngagedHoursOf(rows: seq<Row>) returns (r: Result<Option<Engaged>, TypeError>)
    ensures r == Hours(rows)
  {
    var days, groups := DriverDays(rows);
    var tally := Accumulate(rows, days, groups);
    match tally {
      case Err(_) => return Err(MixedZones);
      case Ok(t) =>
        if t.total <= 0.0 {
          return Ok(None);
        }
        return Ok(Some(Engaged(t.total, Weakest(t.used), |days|, t.covered)));
    }
  }

  // ---------------------------------------------------------------- when it raises

  lemma {:induction false} PickedFrom<T>(f: Row -> Option<T>, rows: seq<Row>)
    ensures forall x :: x in Pick(f, rows) <==> exists r :: r in rows && f(r) == Some(x)
  {
    if rows != [] {
      PickedFrom(f, rows[1..]);
      assert forall r :: r in rows <==> r == rows[0] || r in rows[1..];
    }
  }

  /** The day has a clock-in and a clock-out, and two of all its clock times do not compare. */
  ghost predicate MixedClock(members: seq<Row>) {
    Starts(members) != [] && Ends(members) != [] && Mixed(Ends(members) + Starts(members))
  }

  /** Two of the day's completion times do not compare. */
  ghost predicate MixedDrops(members: seq<Row>) {
    exists r, q :: r in members && q in members && !Comparable(r.completedAt, q.completedAt)
  }

  /** Some row clocks in before some row clocks out. */
  ghost predicate Clocked(members: seq<Row>) {
    exists r, q :: r in members && q in members && ClockedBy(r, q)
  }

  predicate ClockedBy(r: Row, q: Row) {
    r.shiftStart.Some? && q.shiftEnd.Some? && r.shiftStart.value.At() < q.shiftEnd.value.At()
  }

  predicate States(r: Row) {
    r.hours.Some? && r.hours.value > 0.0
  }

  ghost predicate NoneStates(members: seq<Row>) {
    forall r :: r in members ==> !States(r)
  }

  ghost predicate TwoTimes(members: seq<Row>) {
    exists r, q :: r in members && q in members && r.completedAt.At() < q.completedAt.At()
  }

  /** A driver-day raises exactly when its clock times are mixed, or when it has to fall back on its drops and
      they are. */
  lemma DayRaisesIff(members: seq<Row>)
    ensures DayHours(members).Err? <==>
      MixedClock(members) || (!Clocked(members) && NoneStates(members) && MixedDrops(members))
  {
    if Starts(members) != [] && Ends(members) != [] {
      BetweenIs(Ends(members), Starts(members));
    }
    if !MixedClock(members) {
      ClockedIff(members);
    }
    StatedIff(members);
    WithoutClockIs(members);
  }

  /** What the clock comes to, where its times compare. */
  lemma ClockedIff(members: seq<Row>)
    requires !MixedClock(members)
    ensures Clocked(members) <==>
      Starts(members) != [] && Ends(members) != [] && Between(Ends(members), Starts(members)).Ok? &&
      Between(Ends(members), Starts(members)).value > 0
    ensures forall r, q :: r in members && q in members && ClockedBy(r, q) ==>
      q.shiftEnd.value.At() - r.shiftStart.value.At() <= Between(Ends(members), Starts(members)).value
  {
    PickedFrom((r: Row) => r.shiftStart, members);
    PickedFrom((r: Row) => r.shiftEnd, members);
    var ends, starts := Ends(members), Starts(members);
    forall r, q | r in members && q in members && ClockedBy(r, q)
      ensures r.shiftStart.value in starts && q.shiftEnd.value in ends
    {
    }
    if starts != [] && ends != [] {
      BetweenIs(ends, starts);
      var e, s :| e in ends && s in starts && Between(ends, starts).value == e.At() - s.At();
      var q :| q in members && q.shiftEnd == Some(e);
      var r :| r in members && r.shiftStart == Some(s);
      assert e.At() - s.At() > 0 ==> ClockedBy(r, q);
    }
  }

  lemma StatedIff(members: seq<Row>)
    ensures Stated(members) == [] <==> NoneStates(members)
  {
    PickedFrom((r: Row) => if r.hours.Some? && r.hours.value > 0.0 then r.hours else None, members);
    if Stated(members) != [] {
      assert Stated(members)[0] in Stated(members);
    }
    if r :| r in members && States(r) {
      assert r.hours.value in Stated(members);
    }
  }

  /** The fallback: stated hours if there are any, then the span of the drops. */
  lemma WithoutClockIs(members: seq<Row>)
    ensures WithoutClock(members).Err? <==> NoneStates(members) && MixedDrops(members)
    ensures WithoutClock(members).Ok? ==>
      match WithoutClock(members).value
      case Some((hours, FromStated)) => !NoneStates(members) && hours > 0.0
      case Some((hours, FromSpan)) => NoneStates(members) && TwoTimes(members) && hours > 0.0
      case Some((_, FromShift)) => false
      case None => NoneStates(members) && !TwoTimes(members)
  {
    StatedIff(members);
    StatedIsPositive(members);
    SpanIs(members);
  }

  lemma SpanIs(members: seq<Row>)
    ensures |Completions(members)| == |members|
    ensures |members| > 1 ==>
      && (Between(Completions(members), Completions(members)).Err? <==> MixedDrops(members))
      && (Between(Completions(members), Completions(members)).Ok? ==>
            (Between(Completions(members), Completions(members)).value > 0 <==> TwoTimes(members)))
    ensures |members| <= 1 ==> !MixedDrops(members) && !TwoTimes(members)
  {
    PickAll(members);
    if |members| > 1 {
      var times := Completions(members);
      PickedFrom((r: Row) => Some(r.completedAt), members);
      BetweenIs(times, times);
      SpanOfDrops(members, times);
    }
  }

  lemma SpanOfDrops(members: seq<Row>, times: seq<Time>)
    requires times != []
    requires forall t :: t in times <==> exists r :: r in members && r.completedAt == t
    ensures Mixed(times + times) <==> MixedDrops(members)
    ensures forall v :: IsSpan(v, times, times) ==> (v > 0 <==> TwoTimes(members))
  {
    MixedIff(members, times);
    forall v | IsSpan(v, times, times) ensures v > 0 <==> TwoTimes(members) {
      SpanIff(members, times, v);
    }
  }

  lemma MixedIff(members: seq<Row>, times: seq<Time>)
    requires forall t :: t in times <==> exists r :: r in members && r.completedAt == t
    ensures Mixed(times + times) <==> MixedDrops(members)
  {
    assert forall t :: t in times + times <==> t in times;
    if t, u :| t in times && u in times && !Comparable(t, u) {
      var r :| r in members && r.completedAt == t;
      var q :| q in members && q.completedAt == u;
      assert !Comparable(r.completedAt, q.completedAt);
    }
    if r, q :| r in members && q in members && !Comparable(r.completedAt, q.completedAt) {
      assert r.completedAt in times + times && q.completedAt in times + times;
    }
  }

  lemma SpanIff(members: seq<Row>, times: seq<Time>, v: int)
    requires IsSpan(v, times, times)
    requires forall t :: t in times <==> exists r :: r in members && r.completedAt == t
    ensures v > 0 <==> TwoTimes(members)
  {
    if r, q :| r in members && q in members && r.completedAt.At() < q.completedAt.At() {
      assert q.completedAt in times && r.completedAt in times;
    }
    if v > 0 {
      var e, s :| e in times && s in times && v == e.At() - s.At();
      var q :| q in members && q.completedAt == e;
      var r :| r in members && r.completedAt == s;
      assert r.completedAt.At() < q.completedAt.At();
    }
  }

  lemma StatedIsPositive(members: seq<Row>)
    ensures Stated(members) != [] ==> StatedHours(members) > 0.0
  {
    PickedFrom((r: Row) => if r.hours.Some? && r.hours.value > 0.0 then r.hours else None, members);
    var stated := Stated(members);
    forall i | 0 <= i < |stated| ensures stated[i] > 0.0 {
      assert stated[i] in stated;
    }
    SumPositive(stated);
  }

  lemma {:induction false} SumPositive(s: seq<real>)
    requires forall i :: 0 <= i < |s| ==> s[i] > 0.0
    ensures Sum(s) >= 0.0 && (s != [] ==> Sum(s) > 0.0)
  {
    if s != [] {
      SumPositive(s[1..]);
    }
  }

  lemma {:induction false} TotalRaisesIff(f: Shares, days: seq<DriverDay>)
    ensures Total(f, days).Err? <==> exists i :: 0 <= i < |days| && f(days[i]).Err?
    ensures Total(f, days).Err? ==> Total(f, days) == Err(MixedZones)
  {
    if days != [] {
      TotalRaisesIff(f, days[1..]);
      if i :| 0 <= i < |days| && f(days[i]).Err? {
        assert i > 0 ==> days[1..][i - 1] == days[i];
      }
    }
  }

  /** Engaged hours raise exactly when some driver-day does. */
  lemma HoursRaiseIff(rows: seq<Row>)
    ensures Hours(rows).Err? <==> exists k :: k in Days(rows) && Contribution(rows, k).Err?
  {
    var days := Days(rows);
    TotalRaisesIff(ContributionOf(rows), days);
    if k :| k in days && Contribution(rows, k).Err? {
      var i :| 0 <= i < |days| && days[i] == k;
      assert ContributionOf(rows)(days[i]).Err?;
    }
    if i :| 0 <= i < |days| && ContributionOf(rows)(days[i]).Err? {
      assert days[i] in days && Contribution(rows, days[i]).Err?;
    }
  }

  /** Each time on the line that is compared with another carries an offset, or each carries none. */
  predicate CellsOfKind(p: BaselineLoading.Parsers, m: map<HeaderBinding.Field, HeaderBinding.Header>,
                        raw: BaselineLoading.Line, zoned: bool)
  {
    && TimeOfKind(BaselineLoading.Parsed(p.timestamp, BaselineLoading.Get(m, raw, "completed_at")), zoned)
    && TimeOfKind(BaselineLoading.Parsed(p.timestamp, BaselineLoading.Get(m, raw, "shift_start")), zoned)
    && TimeOfKind(BaselineLoading.Parsed(p.timestamp, BaselineLoading.Get(m, raw, "shift_end")), zoned)
  }

  predicate TimeOfKind(t: Option<Time>, zoned: bool) {
    t.Some? ==> t.value.Zoned() == zoned
  }

  /** With every time in the file's own cells of one kind, nothing raises: neither the load nor the hours. */
  lemma OneKindIsSafe(p: BaselineLoading.Parsers, m: map<HeaderBinding.Field, HeaderBinding.Header>,
                      raws: seq<BaselineLoading.Line>, zoned: bool)
    requires forall k :: 0 <= k < |raws| ==> CellsOfKind(p, m, raws[k], zoned)
    ensures !BaselineLoading.SomeRaise(BaselineLoading.ActivityReader(p, m), raws, |raws|)
    ensures Hours(BaselineLoading.RowsUpTo(BaselineLoading.ActivityReader(p, m), raws, |raws|)).Ok?
  {
    LoadOfOneKind(p, m, raws, zoned);
    RowsOfOneKind(p, m, raws, |raws|, zoned);
    HoursOfOneKind(BaselineLoading.RowsUpTo(BaselineLoading.ActivityReader(p, m), raws, |raws|), zoned);
  }

  lemma LoadOfOneKind(p: BaselineLoading.Parsers, m: map<HeaderBinding.Field, HeaderBinding.Header>,
                      raws: seq<BaselineLoading.Line>, zoned: bool)
    requires forall k :: 0 <= k < |raws| ==> CellsOfKind(p, m, raws[k], zoned)
    ensures !BaselineLoading.SomeRaise(BaselineLoading.ActivityReader(p, m), raws, |raws|)
  {
    forall k: nat | k < |raws| ensures !BaselineLoading.MixedShift(p, m, raws[k]) {
      assert CellsOfKind(p, m, raws[k], zoned);
    }
    BaselineLoading.LoadRaisesIff(p, m, raws, |raws|);
  }

  lemma HoursOfOneKind(rows: seq<Row>, zoned: bool)
    requires forall r :: r in rows ==> OfKind(r, zoned)
    ensures Hours(rows).Ok?
  {
    HoursRaiseIff(rows);
    forall k ensures Contribution(rows, k).Ok? {
      MembersAreOfTheDay(rows, k);
      DayOfOneKind(Members(rows, k), zoned);
    }
  }

  predicate OfKind(r: Row, zoned: bool) {
    && r.completedAt.Zoned() == zoned
    && (r.shiftStart.Some? ==> r.shiftStart.value.Zoned() == zoned)
    && (r.shiftEnd.Some? ==> r.shiftEnd.value.Zoned() == zoned)
  }

  lemma {:induction false} RowsOfOneKind(p: BaselineLoading.Parsers, m: map<HeaderBinding.Field, HeaderBinding.Header>,
                                         raws: seq<BaselineLoading.Line>, n: nat, zoned: bool)
    requires n <= |raws| && forall k :: 0 <= k < |raws| ==> CellsOfKind(p, m, raws[k], zoned)
    ensures forall r :: r in BaselineLoading.RowsUpTo(BaselineLoading.ActivityReader(p, m), raws, n) ==>
      OfKind(r, zoned)
  {
    if n > 0 {
      RowsOfOneKind(p, m, raws, n - 1, zoned);
      RowOfOneKind(p, m, raws[n - 1], n + 1, zoned);
    }
  }

  lemma RowOfOneKind(p: BaselineLoading.Parsers, m: map<HeaderBinding.Field, HeaderBinding.Header>,
                     raw: BaselineLoading.Line, line: nat, zoned: bool)
    requires CellsOfKind(p, m, raw, zoned)
    ensures var read := BaselineLoading.ReadActivity(p, m, raw, line); read.Row? ==> OfKind(read.row, zoned)
  {
  }

  lemma DayOfOneKind(members: seq<Row>, zoned: bool)
    requires forall r :: r in members ==> OfKind(r, zoned)
    ensures DayHours(members).Ok?
  {
    DayRaisesIff(members);
    PickedFrom((r: Row) => r.shiftStart, members);
    PickedFrom((r: Row) => r.shiftEnd, members);
    forall t | t in Ends(members) + Starts(members) ensures t.Zoned() == zoned {
      assert t in Ends(members) || t in Starts(members);
    }
  }

  lemma {:induction false} MembersAreOfTheDay(rows: seq<Row>, k: DriverDay)
    ensures forall r :: r in Members(rows, k) ==> DayOf(r) == k && r in rows
  {
    if rows != [] {
      MembersAreOfTheDay(rows[1..], k);
    }
  }

  /** And one driver-day whose drops are of both kinds is enough to lose the hours of every driver. */
  lemma MixedDropsLoseTheHours(a: Row, b: Row, others: seq<Row>)
    requires DayOf(a) == DayOf(b) && !Comparable(a.completedAt, b.completedAt)
    requires a.shiftStart.None? && b.shiftStart.None? && a.hours.None? && b.hours.None?
    requires forall r :: r in others ==> DayOf(r) != DayOf(a)
    ensures Hours([a, b] + others).Err?
  {
    var rows, k := [a, b] + others, DayOf(a);
    assert Members(rows, k) == [a, b] by {
      PickJoin((r: Row) => if DayOf(r) == k then Some(r) else None, [a, b], others);
      NoMembers(others, k);
      assert [a, b][1..] == [b] && [b][1..] == [];
    }
    TwoDropsRaise(a, b);
    DaysEnumerate(rows, |rows|);
    assert rows[0] == a && k in Days(rows);
    HoursRaiseIff(rows);
  }

  lemma TwoDropsRaise(a: Row, b: Row)
    requires !Comparable(a.completedAt, b.completedAt)
    requires a.shiftStart.None? && b.shiftStart.None? && a.hours.None? && b.hours.None?
    ensures DayHours([a, b]).Err?
  {
    assert [a, b][1..] == [b] && [b][1..] == [];
    assert a in [a, b] && b in [a, b];
    DayRaisesIff([a, b]);
  }

  lemma {:induction false} NoMembers(rows: seq<Row>, k: DriverDay)
    requires forall r :: r in rows ==> DayOf(r) != k
    ensures Members(rows, k) == []
  {
    if rows != [] {
      assert rows[0] in rows;
      NoMembers(rows[1..], k);
    }
  }

  // ---------------------------------------------------------------- row order does not matter

  /** `b` is a permutation of `a`: what is left of each without the first element of `a`. */
  lemma Without<T>(a: seq<T>, b: seq<T>) returns (front: seq<T>, back: seq<T>)
    requires multiset(a) == multiset(b) && a != []
    ensures b == front + ([a[0]] + back)
    ensures multiset(a[1..]) == multiset(front + back)
  {
    assert a == [a[0]] + a[1..];
    assert a[0] in multiset(b);
    var i :| 0 <= i < |b| && b[i] == a[0];
    front, back := b[..i], b[i + 1..];
    assert b == front + ([a[0]] + back);
    calc {
      multiset(a[1..]);
      multiset(a) - multiset{a[0]};
      multiset(front) + (multiset{a[0]} + multiset(back)) - multiset{a[0]};
      multiset(front) + multiset(back);
      multiset(front + back);
    }
  }

  lemma {:induction false} PickPermuted<T>(f: Row -> Option<T>, a: seq<Row>, b: seq<Row>)
    requires multiset(a) == multiset(b)
    ensures multiset(Pick(f, a)) == multiset(Pick(f, b))
  {
    if a == [] {
      assert |b| == |multiset(b)| == 0;
    } else {
      var x := a[0];
      var front, back := Without(a, b);
      PickPermuted(f, a[1..], front + back);
      PickJoin(f, front, [x] + back);
      PickJoin(f, front, back);
      assert ([x] + back)[1..] == back;
    }
  }

  lemma {:induction false} SumJoin(a: seq<real>, b: seq<real>)
    ensures Sum(a + b) == Sum(a) + Sum(b)
  {
    if a == [] {
      assert a + b == b;
    } else {
      assert (a + b)[1..] == a[1..] + b;
      SumJoin(a[1..], b);
    }
  }

  lemma {:induction false} SumPermuted(a: seq<real>, b: seq<real>)
    requires multiset(a) == multiset(b)
    ensures Sum(a) == Sum(b)
  {
    if a == [] {
      assert |b| == |multiset(b)| == 0;
    } else {
      var x := a[0];
      var front, back := Without(a, b);
      SumPermuted(a[1..], front + back);
      SumJoin(front, [x] + back);
      SumJoin(front, back);
      assert ([x] + back)[1..] == back;
    }
  }

  lemma SameElements<T>(a: seq<T>, b: seq<T>)
    requires multiset(a) == multiset(b)
    ensures |a| == |b| && forall x :: x in a <==> x in b
  {
    assert |a| == |multiset(a)| == |b|;
    forall x ensures x in a <==> x in b {
      assert x in a <==> x in multiset(a);
      assert x in b <==> x in multiset(b);
    }
  }

  lemma AllEqualByElements(s: seq<real>)
    ensures AllEqual(s) <==> forall x, y :: x in s && y in s ==> x == y
  {
    if AllEqual(s) {
      forall x, y | x in s && y in s ensures x == y {
        var i :| 0 <= i < |s| && s[i] == x;
        var j :| 0 <= j < |s| && s[j] == y;
        assert i < j || j < i || i == j;
      }
    } else {
      var i, j :| 0 <= i < j < |s| && s[i] != s[j];
      assert s[i] in s && s[j] in s;
    }
  }

  lemma StatedPermuted(a: seq<Row>, b: seq<Row>)
    requires multiset(a) == multiset(b)
    ensures Stated(a) == [] <==> Stated(b) == []
    ensures Stated(a) != [] ==> StatedHours(a) == StatedHours(b)
  {
    PickPermuted((r: Row) => if r.hours.Some? && r.hours.value > 0.0 then r.hours else None, a, b);
    SameElements(Stated(a), Stated(b));
    SumPermuted(Stated(a), Stated(b));
    AllEqualByElements(Stated(a));
    AllEqualByElements(Stated(b));
    if Stated(a) != [] {
      assert Stated(a)[0] in Stated(b) && Stated(b)[0] in Stated(b);
    }
  }

  lemma WithoutClockPermuted(a: seq<Row>, b: seq<Row>)
    requires multiset(a) == multiset(b)
    ensures WithoutClock(a) == WithoutClock(b)
  {
    StatedPermuted(a, b);
    PickPermuted((r: Row) => Some(r.completedAt), a, b);
    SameElements(a, b);
    SameElements(Completions(a), Completions(b));
    PickAll(a);
    PickAll(b);
    if |a| > 1 {
      BetweenByElements(Completions(a), Completions(a), Completions(b), Completions(b));
    }
  }

  lemma DayPermuted(a: seq<Row>, b: seq<Row>)
    requires multiset(a) == multiset(b)
    ensures DayHours(a) == DayHours(b)
  {
    PickPermuted((r: Row) => r.shiftStart, a, b);
    PickPermuted((r: Row) => r.shiftEnd, a, b);
    SameElements(Starts(a), Starts(b));
    SameElements(Ends(a), Ends(b));
    WithoutClockPermuted(a, b);
    if Starts(a) != [] && Ends(a) != [] {
      BetweenByElements(Ends(a), Starts(a), Ends(b), Starts(b));
    }
  }

  lemma ContributionPermuted(a: seq<Row>, b: seq<Row>, k: DriverDay)
    requires multiset(a) == multiset(b)
    ensures Contribution(a, k) == Contribution(b, k)
  {
    PickPermuted((r: Row) => if DayOf(r) == k then Some(r) else None, a, b);
    DayPermuted(Members(a, k), Members(b, k));
  }

  predicate Distinct(days: seq<DriverDay>) {
    forall i, j :: 0 <= i < j < |days| ==> days[i] != days[j]
  }

  lemma DaysEnumerate(rows: seq<Row>, n: nat)
    requires n <= |rows|
    ensures Distinct(DaysUpTo(rows, n))
    ensures forall i :: 0 <= i < n ==> DayOf(rows[i]) in DaysUpTo(rows, n)
    ensures forall k :: k in DaysUpTo(rows, n) ==> exists i :: 0 <= i < n && DayOf(rows[i]) == k
  {
    DaysDiffer(rows, n);
    forall k ensures k in DaysUpTo(rows, n) <==> exists i :: 0 <= i < n && DayOf(rows[i]) == k {
      DayOfSomeRow(rows, n, k);
    }
  }

  lemma {:induction false} DaysDiffer(rows: seq<Row>, n: nat)
    requires n <= |rows|
    ensures Distinct(DaysUpTo(rows, n))
  {
    if n > 0 {
      DaysDiffer(rows, n - 1);
    }
  }

  lemma {:induction false} DayOfSomeRow(rows: seq<Row>, n: nat, k: DriverDay)
    requires n <= |rows|
    ensures k in DaysUpTo(rows, n) <==> exists i :: 0 <= i < n && DayOf(rows[i]) == k
  {
    if n > 0 {
      DayOfSomeRow(rows, n - 1, k);
      assert k in DaysUpTo(rows, n) <==> k in DaysUpTo(rows, n - 1) || DayOf(rows[n - 1]) == k;
    }
  }

  lemma SameDaysOfPermuted(a: seq<Row>, b: seq<Row>, k: DriverDay)
    requires multiset(a) == multiset(b) && k in Days(a)
    ensures k in Days(b)
  {
    DaysEnumerate(a, |a|);
    DaysEnumerate(b, |b|);
    SameElements(a, b);
    var i :| 0 <= i < |a| && DayOf(a[i]) == k;
    assert a[i] in a;
    var j :| 0 <= j < |b| && b[j] == a[i];
  }

  /** The same days in any order: what `f` makes of them is tallied the same. */
  lemma {:induction false} OrderOfDays(das: seq<DriverDay>, dbs: seq<DriverDay>)
    requires Distinct(das) && Distinct(dbs)
    requires forall k :: k in das <==> k in dbs
    ensures multiset(das) == multiset(dbs)
  {
    forall k ensures multiset(das)[k] == multiset(dbs)[k] {
      DistinctCounts(das, k);
      DistinctCounts(dbs, k);
    }
  }

  lemma {:induction false} DistinctCounts(days: seq<DriverDay>, k: DriverDay)
    requires Distinct(days)
    ensures multiset(days)[k] == if k in days then 1 else 0
  {
    if days != [] {
      assert days == [days[0]] + days[1..];
      assert Distinct(days[1..]);
      DistinctCounts(days[1..], k);
      assert days[0] !in days[1..];
    }
  }

  lemma BothCommutes(t: Result<Tally, TypeError>, u: Result<Tally, TypeError>)
    ensures Both(t, u) == Both(u, t)
  {
    if t.Ok? && u.Ok? {
      assert t.value.used + u.value.used == u.value.used + t.value.used;
    }
  }

  lemma BothAssociates(t: Result<Tally, TypeError>, u: Result<Tally, TypeError>, v: Result<Tally, TypeError>)
    ensures Both(Both(t, u), v) == Both(t, Both(u, v))
  {
    if t.Ok? && u.Ok? && v.Ok? {
      assert t.value.used + u.value.used + v.value.used == t.value.used + (u.value.used + v.value.used);
    }
  }

  lemma PlusNothing(t: Tally)
    ensures Plus(NOTHING, t) == t && Plus(t, NOTHING) == t
  {
    assert {} + t.used == t.used && t.used + {} == t.used;
  }

  /** Nothing, before or after, changes nothing: there is one error. */
  lemma NothingMore(t: Result<Tally, TypeError>)
    ensures Both(Ok(NOTHING), t) == t && Both(t, Ok(NOTHING)) == t
  {
    match t
    case Ok(x) => PlusNothing(x);
    case Err(MixedZones) =>
  }

  lemma {:induction false} TotalJoin(f: Shares, a: seq<DriverDay>, b: seq<DriverDay>)
    ensures Total(f, a + b) == Both(Total(f, a), Total(f, b))
  {
    if a == [] {
      assert a + b == b;
      NothingMore(Total(f, b));
    } else {
      assert (a + b)[1..] == a[1..] + b && (a + b)[0] == a[0];
      TotalJoin(f, a[1..], b);
      BothAssociates(OneDay(f(a[0])), Total(f, a[1..]), Total(f, b));
    }
  }

  lemma OneTotal(f: Shares, k: DriverDay)
    ensures Total(f, [k]) == OneDay(f(k))
  {
    assert [k][1..] == [];
    NothingMore(OneDay(f(k)));
  }

  lemma {:induction false} TotalPermuted(f: Shares, a: seq<DriverDay>, b: seq<DriverDay>)
    requires multiset(a) == multiset(b)
    ensures Total(f, a) == Total(f, b)
  {
    if a == [] {
      assert |b| == |multiset(b)| == 0;
    } else {
      var x := a[0];
      var front, back := Without(a, b);
      TotalPermuted(f, a[1..], front + back);
      TotalJoin(f, front, [x] + back);
      TotalJoin(f, front, back);
      TotalJoin(f, [x], back);
      OneTotal(f, x);
      MoveForward(Total(f, front), OneDay(f(x)), Total(f, back));
    }
  }

  lemma MoveForward(t: Result<Tally, TypeError>, u: Result<Tally, TypeError>, v: Result<Tally, TypeError>)
    ensures Both(t, Both(u, v)) == Both(u, Both(t, v))
  {
    BothAssociates(t, u, v);
    BothCommutes(t, u);
    BothAssociates(u, t, v);
  }

  lemma {:induction false} TotalOfSame(f: Shares, g: Shares, days: seq<DriverDay>)
    requires forall k :: f(k) == g(k)
    ensures Total(f, days) == Total(g, days)
  {
    if days != [] {
      TotalOfSame(f, g, days[1..]);
    }
  }

  /** The same days in another order, contributing the same, tally the same. */
  lemma SameTallies(f: Shares, das: seq<DriverDay>, g: Shares, dbs: seq<DriverDay>)
    requires multiset(das) == multiset(dbs) && forall k :: f(k) == g(k)
    ensures Total(f, das) == Total(g, dbs) && |das| == |dbs|
  {
    TotalOfSame(f, g, das);
    TotalPermuted(g, das, dbs);
    SameElements(das, dbs);
  }

  /** The total, the coverage and the source reported are the same in whatever order the rows come; and so is
      whether there are any to report. */
  lemma RowOrderDoesNotMatter(a: seq<Row>, b: seq<Row>)
    requires multiset(a) == multiset(b)
    ensures Hours(a) == Hours(b)
  {
    var das, dbs := Days(a), Days(b);
    forall k ensures ContributionOf(a)(k) == ContributionOf(b)(k) {
      ContributionPermuted(a, b, k);
    }
    forall k ensures k in das <==> k in dbs {
      if k in das {
        SameDaysOfPermuted(a, b, k);
      }
      if k in dbs {
        SameDaysOfPermuted(b, a, k);
      }
    }
    DaysEnumerate(a, |a|);
    DaysEnumerate(b, |b|);
    OrderOfDays(das, dbs);
    SameTallies(ContributionOf(a), das, ContributionOf(b), dbs);
  }

  // ---------------------------------------------------------------- the source reported

  function Trust(s: Source): nat {
    match s case FromSpan => 0 case FromStated => 1 case FromShift => 2
  }

  predicate DrawsOn(c: Result<Share, TypeError>, s: Source) {
    c.Ok? && c.value.Some? && c.value.value.1 == s
  }

  /** The source reported is one that was used, and none that was used is weaker. */
  lemma ReportsTheWeakest(rows: seq<Row>)
    requires Hours(rows).Ok? && Hours(rows).value.Some?
    ensures exists k :: k in Days(rows) && DrawsOn(Contribution(rows, k), Hours(rows).value.value.source)
    ensures forall k, s :: k in Days(rows) && DrawsOn(Contribution(rows, k), s) ==>
      Trust(s) >= Trust(Hours(rows).value.value.source)
  {
    var f, days := ContributionOf(rows), Days(rows);
    UsedByDays(f, days);
    var used := Tallied(rows).value.used;
    assert Weakest(used) in used && SomeDraws(f, days, Weakest(used));
    var i :| 0 <= i < |days| && DrawsOn(f(days[i]), Weakest(used));
    assert days[i] in days && DrawsOn(Contribution(rows, days[i]), Weakest(used));
    forall k, s | k in days && DrawsOn(Contribution(rows, k), s) ensures s in used {
      DrawnByOne(f, days, k, s);
    }
  }

  lemma DrawnByOne(f: Shares, days: seq<DriverDay>, k: DriverDay, s: Source)
    requires k in days && DrawsOn(f(k), s)
    ensures SomeDraws(f, days, s)
  {
    var j :| 0 <= j < |days| && days[j] == k;
    assert DrawsOn(f(days[j]), s);
  }

  lemma {:induction false} UsedByDays(f: Shares, days: seq<DriverDay>)
    requires Total(f, days).Ok?
    ensures var t := Total(f, days).value;
      (forall s :: s in t.used <==> SomeDraws(f, days, s)) && (t.used == {} ==> t.total == 0.0)
  {
    if days != [] {
      var c, rest := f(days[0]), days[1..];
      UsedByDays(f, rest);
      OneDraws(c);
      var t, u := Total(f, rest).value, Total(f, days).value;
      assert u == Plus(One(c.value), t);
      forall s ensures s in u.used <==> SomeDraws(f, days, s) {
        DrawnFirstOrLater(f, days, s);
      }
    }
  }

  /** Some day's hours come from that source. */
  ghost predicate SomeDraws(f: Shares, days: seq<DriverDay>, s: Source) {
    exists i :: 0 <= i < |days| && DrawsOn(f(days[i]), s)
  }

  lemma DrawnFirstOrLater(f: Shares, days: seq<DriverDay>, s: Source)
    requires days != []
    ensures SomeDraws(f, days, s) <==> DrawsOn(f(days[0]), s) || SomeDraws(f, days[1..], s)
  {
    var rest := days[1..];
    if SomeDraws(f, rest, s) {
      var i :| 0 <= i < |rest| && DrawsOn(f(rest[i]), s);
      assert rest[i] == days[i + 1];
    }
    if SomeDraws(f, days, s) {
      var i :| 0 <= i < |days| && DrawsOn(f(days[i]), s);
      assert i > 0 ==> rest[i - 1] == days[i];
    }
  }

  lemma OneDraws(c: Result<Share, TypeError>)
    requires c.Ok?
    ensures forall s :: s in One(c.value).used <==> DrawsOn(c, s)
    ensures One(c.value).used == {} ==> One(c.value).total == 0.0
  {
  }

  // ---------------------------------------------------------------- the best source each day has

  /** These hours are the longest, in seconds, that any row clocks out after any row clocks in. */
  ghost predicate LongestClocked(members: seq<Row>, hours: real) {
    && (exists r, q :: r in members && q in members && ClockedBy(r, q) && ClocksFor(r, q, hours))
    && (forall r, q :: r in members && q in members && ClockedBy(r, q) ==>
          (q.shiftEnd.value.At() - r.shiftStart.value.At()) as real <= hours * 3600.0)
  }

  predicate ClocksFor(r: Row, q: Row, hours: real)
    requires ClockedBy(r, q)
  {
    (q.shiftEnd.value.At() - r.shiftStart.value.At()) as real == hours * 3600.0
  }

  /** The longest any drop comes after any other. */
  ghost predicate LongestDrops(members: seq<Row>, hours: real) {
    && (exists r, q :: r in members && q in members && DropsFor(r, q, hours))
    && (forall r, q :: r in members && q in members ==>
          (q.completedAt.At() - r.completedAt.At()) as real <= hours * 3600.0)
  }

  predicate DropsFor(r: Row, q: Row, hours: real) {
    (q.completedAt.At() - r.completedAt.At()) as real == hours * 3600.0
  }

  /** The clock wins, then a stated total, then the span of drops, each where the day's rows have it; and a
      day with none of them contributes nothing. What the clock and the drops come to is the longest there is
      between them. */
  lemma BestSourceWins(members: seq<Row>)
    requires DayHours(members).Ok?
    ensures match DayHours(members).value
      case Some((hours, FromShift)) => Clocked(members) && hours > 0.0 && LongestClocked(members, hours)
      case Some((hours, FromStated)) => !Clocked(members) && !NoneStates(members) && hours > 0.0
      case Some((hours, FromSpan)) =>
        !Clocked(members) && NoneStates(members) && TwoTimes(members) && hours > 0.0 && LongestDrops(members, hours)
      case None => !Clocked(members) && NoneStates(members) && !TwoTimes(members)
  {
    DayRaisesIff(members);
    ClockedIff(members);
    WithoutClockIs(members);
    if Clocked(members) {
      ClockIsLongest(members);
    } else if NoneStates(members) && TwoTimes(members) {
      DropsAreLongest(members);
    }
  }

  lemma ClockIsLongest(members: seq<Row>)
    requires DayHours(members).Ok? && Clocked(members)
    ensures Starts(members) != [] && Ends(members) != [] && Between(Ends(members), Starts(members)).Ok?
    ensures LongestClocked(members, ToHours(Between(Ends(members), Starts(members)).value))
  {
    DayRaisesIff(members);
    ClockedIff(members);
    var ends, starts := Ends(members), Starts(members);
    BetweenIs(ends, starts);
    var span := Between(ends, starts).value;
    PickedFrom((r: Row) => r.shiftStart, members);
    PickedFrom((r: Row) => r.shiftEnd, members);
    var e, s :| e in ends && s in starts && span == e.At() - s.At();
    var q :| q in members && q.shiftEnd == Some(e);
    var r :| r in members && r.shiftStart == Some(s);
    SecondsBack(span);
    assert ClockedBy(r, q) && ClocksFor(r, q, ToHours(span));
  }

  lemma DropsAreLongest(members: seq<Row>)
    requires |members| > 1 && Completions(members) != []
    requires Between(Completions(members), Completions(members)).Ok?
    ensures LongestDrops(members, ToHours(Between(Completions(members), Completions(members)).value))
  {
    BetweenIs(Completions(members), Completions(members));
    PickedFrom((r: Row) => Some(r.completedAt), members);
    SpanOfTimes(members, Completions(members), Between(Completions(members), Completions(members)).value);
  }

  lemma SpanOfTimes(members: seq<Row>, times: seq<Time>, span: int)
    requires IsSpan(span, times, times)
    requires forall t :: t in times <==> exists r :: r in members && r.completedAt == t
    ensures LongestDrops(members, ToHours(span))
  {
    var e, s :| e in times && s in times && span == e.At() - s.At();
    var q :| q in members && q.completedAt == e;
    var r :| r in members && r.completedAt == s;
    SecondsBack(span);
    assert DropsFor(r, q, ToHours(span));
    forall r, q | r in members && q in members
      ensures (q.completedAt.At() - r.completedAt.At()) as real <= ToHours(span) * 3600.0
    {
      assert r.completedAt in times && q.completedAt in times;
    }
  }

  lemma SecondsBack(seconds: int)
    ensures ToHours(seconds) * 3600.0 == seconds as real
  {
  }

  // ---------------------------------------------------------------- stated hours

  /** The day has no clock to go by, and its clock times do not raise. */
  ghost predicate Unclockable(members: seq<Row>) {
    !Clocked(members) && !MixedClock(members)
  }

  /** A total repeated on every row that states one counts once. */
  lemma RepeatedTotalCountsOnce(members: seq<Row>, h: real)
    requires Unclockable(members) && !NoneStates(members)
    requires forall r :: r in members && States(r) ==> r.hours == Some(h)
    ensures DayHours(members) == Ok(Some((h, FromStated)))
  {
    DayRaisesIff(members);
    ClockedIff(members);
    StatedIff(members);
    PickedFrom((r: Row) => if r.hours.Some? && r.hours.value > 0.0 then r.hours else None, members);
    forall i | 0 <= i < |Stated(members)| ensures Stated(members)[i] == h {
      assert Stated(members)[i] in Stated(members);
    }
  }

  ghost function SumStated(members: seq<Row>): real {
    if members == [] then 0.0
    else (if States(members[0]) then members[0].hours.value else 0.0) + SumStated(members[1..])
  }

  /** One more row adds what it states, if it states anything. */
  lemma {:induction false} OneMoreStated(members: seq<Row>, r: Row)
    ensures SumStated(members + [r]) == SumStated(members) + if States(r) then r.hours.value else 0.0
  {
    if members == [] {
      assert [] + [r] == [r] && [r][1..] == [];
    } else {
      assert (members + [r])[1..] == members[1..] + [r] && (members + [r])[0] == members[0];
      OneMoreStated(members[1..], r);
    }
  }

  /** Two different totals, and every row's counts. */
  lemma DifferentTotalsAddUp(members: seq<Row>, a: Row, b: Row)
    requires Unclockable(members) && a in members && b in members && States(a) && States(b) && a.hours != b.hours
    ensures DayHours(members) == Ok(Some((SumStated(members), FromStated)))
  {
    DayRaisesIff(members);
    ClockedIff(members);
    StatedIff(members);
    StatedAddsUp(members);
    PickedFrom((r: Row) => if r.hours.Some? && r.hours.value > 0.0 then r.hours else None, members);
    var stated := Stated(members);
    assert a.hours.value in stated && b.hours.value in stated;
    var i :| 0 <= i < |stated| && stated[i] == a.hours.value;
    var j :| 0 <= j < |stated| && stated[j] == b.hours.value;
    assert i < j || j < i;
  }

  lemma {:induction false} StatedAddsUp(members: seq<Row>)
    ensures Sum(Stated(members)) == SumStated(members)
  {
    if members != [] {
      var r := members[0];
      StatedAddsUp(members[1..]);
      assert Stated(members) == (if States(r) then [r.hours.value] else []) + Stated(members[1..]);
      if States(r) {
        assert Stated(members)[1..] == Stated(members[1..]);
      } else {
        assert Stated(members) == Stated(members[1..]);
      }
    }
  }

  // ---------------------------------------------------------------- the days together

  /** Two rows are of one driver-day exactly when they are the same driver's and completed on one date, each by its
      own clock. */
  lemma SameDriverDayIff(r: Row, q: Row)
    ensures DayOf(r) == DayOf(q) <==>
      r.driverId == q.driverId && exists day :: OnDay(r.completedAt, day) && OnDay(q.completedAt, day)
  {
    DateIs(r.completedAt, r.completedAt.Date());
    DateIs(q.completedAt, q.completedAt.Date());
    assert OnDay(r.completedAt, r.completedAt.Date()) && OnDay(q.completedAt, q.completedAt.Date());
    if day :| OnDay(r.completedAt, day) && OnDay(q.completedAt, day) {
      DateIs(r.completedAt, day);
      DateIs(q.completedAt, day);
    }
  }

  predicate OnDay(t: Time, day: int) {
    day * 86400 <= t.wall < (day + 1) * 86400
  }

  /** The hours of one driver-day are its share. */
  lemma OneDayIsItsShare(rows: seq<Row>, k: DriverDay)
    requires rows != [] && forall r :: r in rows ==> DayOf(r) == k
    ensures match DayHours(rows)
      case Err(_) => Hours(rows).Err?
      case Ok(None) => Hours(rows) == Ok(None)
      case Ok(Some((hours, source))) => Hours(rows) == Ok(Some(Engaged(hours, source, 1, 1)))
  {
    TallyOfOneDay(rows, k);
    if DayHours(rows).Ok? {
      ShareIsPositive(rows);
    }
  }

  lemma TallyOfOneDay(rows: seq<Row>, k: DriverDay)
    requires rows != [] && forall r :: r in rows ==> DayOf(r) == k
    ensures Days(rows) == [k] && Tallied(rows) == OneDay(DayHours(rows))
  {
    DaysOfOne(rows, k, |rows|);
    AllMembers(rows, k);
    OneTotal(ContributionOf(rows), k);
  }

  lemma ShareIsPositive(members: seq<Row>)
    requires DayHours(members).Ok?
    ensures DayHours(members).value.Some? ==> DayHours(members).value.value.0 > 0.0
  {
    BestSourceWins(members);
  }

  lemma {:induction false} DaysOfOne(rows: seq<Row>, k: DriverDay, n: nat)
    requires n <= |rows| && forall r :: r in rows ==> DayOf(r) == k
    ensures DaysUpTo(rows, n) == if n == 0 then [] else [k]
  {
    if n > 0 {
      DaysOfOne(rows, k, n - 1);
      assert rows[n - 1] in rows;
    }
  }

  lemma {:induction false} AllMembers(rows: seq<Row>, k: DriverDay)
    requires forall r :: r in rows ==> DayOf(r) == k
    ensures Members(rows, k) == rows
  {
    if rows != [] {
      assert rows[0] in rows;
      AllMembers(rows[1..], k);
    }
  }

  /** An export that repeats a day's total on each of its drops is charged for it once. */
  lemma RepeatedDayCountsOnce(rows: seq<Row>, k: DriverDay, h: real)
    requires rows != [] && forall r :: r in rows ==> DayOf(r) == k
    requires Unclockable(rows) && !NoneStates(rows) && forall r :: r in rows && States(r) ==> r.hours == Some(h)
    ensures Hours(rows) == Ok(Some(Engaged(h, FromStated, 1, 1)))
  {
    OneDayIsItsShare(rows, k);
    RepeatedTotalCountsOnce(rows, h);
  }

  /** And one that states each drop's own hours, for all of them. */
  lemma DifferentDayAddsUp(rows: seq<Row>, k: DriverDay, a: Row, b: Row)
    requires forall r :: r in rows ==> DayOf(r) == k
    requires Unclockable(rows) && a in rows && b in rows && States(a) && States(b) && a.hours != b.hours
    ensures Hours(rows) == Ok(Some(Engaged(SumStated(rows), FromStated, 1, 1)))
  {
    OneDayIsItsShare(rows, k);
    DifferentTotalsAddUp(rows, a, b);
  }

  ghost function HoursIn(h: Option<Engaged>): real {
    if h.Some? then h.value.total else 0.0
  }

  ghost function CoveredIn(h: Option<Engaged>): nat {
    if h.Some? then h.value.coveredDays else 0
  }

  /** Rows of other driver-days add their hours and the days they cover, and raise if they do. */
  lemma HoursAdd(a: seq<Row>, b: seq<Row>)
    requires forall r, q :: r in a && q in b ==> DayOf(r) != DayOf(q)
    ensures Hours(a + b).Ok? <==> Hours(a).Ok? && Hours(b).Ok?
    ensures Hours(a + b).Ok? ==>
      && HoursIn(Hours(a + b).value) == HoursIn(Hours(a).value) + HoursIn(Hours(b).value)
      && CoveredIn(Hours(a + b).value) == CoveredIn(Hours(a).value) + CoveredIn(Hours(b).value)
  {
    TallyJoin(a, b);
    HoursShow(a);
    HoursShow(b);
    HoursShow(a + b);
  }

  /** What is reported is what was tallied: nothing is left out by reporting none. */
  lemma HoursShow(rows: seq<Row>)
    ensures Hours(rows).Ok? <==> Tallied(rows).Ok?
    ensures Tallied(rows).Ok? ==>
      HoursIn(Hours(rows).value) == Tallied(rows).value.total &&
      CoveredIn(Hours(rows).value) == Tallied(rows).value.covered
  {
    if Tallied(rows).Ok? {
      SharesArePositive(rows, Days(rows));
    }
  }

  lemma {:induction false} SharesArePositive(rows: seq<Row>, days: seq<DriverDay>)
    requires Total(ContributionOf(rows), days).Ok?
    ensures var t := Total(ContributionOf(rows), days).value;
      t.total >= 0.0 && (t.total > 0.0 <==> t.covered > 0)
  {
    if days != [] {
      SharesArePositive(rows, days[1..]);
      var c := ContributionOf(rows)(days[0]);
      assert c.Ok? && c == DayHours(Members(rows, days[0]));
      ShareIsPositive(Members(rows, days[0]));
    }
  }

  lemma TallyJoin(a: seq<Row>, b: seq<Row>)
    requires forall r, q :: r in a && q in b ==> DayOf(r) != DayOf(q)
    ensures Tallied(a + b) == Both(Tallied(a), Tallied(b))
  {
    DaysOfBoth(a, b);
    SharesOfFirst(a, b);
    SharesOfSecond(a, b);
    TotalJoin(ContributionOf(a + b), Days(a), Days(b));
  }

  lemma DaysOfBoth(a: seq<Row>, b: seq<Row>)
    requires forall r, q :: r in a && q in b ==> DayOf(r) != DayOf(q)
    ensures Days(a + b) == Days(a) + Days(b)
  {
    DaysJoin(a, b, |b|);
  }

  lemma SharesOfFirst(a: seq<Row>, b: seq<Row>)
    requires forall r, q :: r in a && q in b ==> DayOf(r) != DayOf(q)
    ensures Total(ContributionOf(a + b), Days(a)) == Tallied(a)
  {
    forall k | k in Days(a) ensures ContributionOf(a + b)(k) == ContributionOf(a)(k) {
      DayOfFirst(a, b, k);
    }
    TotalOnDays(ContributionOf(a + b), ContributionOf(a), Days(a));
  }

  lemma SharesOfSecond(a: seq<Row>, b: seq<Row>)
    requires forall r, q :: r in a && q in b ==> DayOf(r) != DayOf(q)
    ensures Total(ContributionOf(a + b), Days(b)) == Tallied(b)
  {
    forall k | k in Days(b) ensures ContributionOf(a + b)(k) == ContributionOf(b)(k) {
      DayOfSecond(a, b, k);
    }
    TotalOnDays(ContributionOf(a + b), ContributionOf(b), Days(b));
  }

  lemma DayOfFirst(a: seq<Row>, b: seq<Row>, k: DriverDay)
    requires k in Days(a) && forall r, q :: r in a && q in b ==> DayOf(r) != DayOf(q)
    ensures Contribution(a + b, k) == Contribution(a, k)
  {
    OneOfTheRows(a, k);
    MembersJoin(a, b, k);
    NoMembers(b, k);
    assert Members(a, k) + [] == Members(a, k);
  }

  lemma DayOfSecond(a: seq<Row>, b: seq<Row>, k: DriverDay)
    requires k in Days(b) && forall r, q :: r in a && q in b ==> DayOf(r) != DayOf(q)
    ensures Contribution(a + b, k) == Contribution(b, k)
  {
    OneOfTheRows(b, k);
    MembersJoin(a, b, k);
    NoMembers(a, k);
    assert [] + Members(b, k) == Members(b, k);
  }

  lemma OneOfTheRows(rows: seq<Row>, k: DriverDay)
    ensures k in Days(rows) <==> exists r :: r in rows && DayOf(r) == k
  {
    DayOfSomeRow(rows, |rows|, k);
    if r :| r in rows && DayOf(r) == k {
      var i :| 0 <= i < |rows| && rows[i] == r;
    }
    if i :| 0 <= i < |rows| && DayOf(rows[i]) == k {
      assert rows[i] in rows;
    }
  }

  lemma MembersJoin(a: seq<Row>, b: seq<Row>, k: DriverDay)
    ensures Members(a + b, k) == Members(a, k) + Members(b, k)
  {
    PickJoin((r: Row) => if DayOf(r) == k then Some(r) else None, a, b);
  }

  lemma {:induction false} TotalOnDays(f: Shares, g: Shares, days: seq<DriverDay>)
    requires forall k :: k in days ==> f(k) == g(k)
    ensures Total(f, days) == Total(g, days)
  {
    if days != [] {
      TotalOnDays(f, g, days[1..]);
    }
  }

  lemma {:induction false} DaysJoin(a: seq<Row>, b: seq<Row>, n: nat)
    requires n <= |b| && forall r, q :: r in a && q in b ==> DayOf(r) != DayOf(q)
    ensures DaysUpTo(a + b, |a| + n) == Days(a) + DaysUpTo(b, n)
  {
    if n == 0 {
      DaysByPrefix(a, b, |a|);
    } else {
      DaysJoin(a, b, n - 1);
      var k := DayOf(b[n - 1]);
      assert (a + b)[|a| + n - 1] == b[n - 1] && b[n - 1] in b;
      OneOfTheRows(a, k);
      assert k !in Days(a);
      var before := DaysUpTo(b, n - 1);
      assert Days(a) + (before + [k]) == Days(a) + before + [k];
    }
  }

  lemma {:induction false} DaysByPrefix(a: seq<Row>, b: seq<Row>, n: nat)
    requires n <= |a|
    ensures DaysUpTo(a + b, n) == DaysUpTo(a, n)
  {
    if n > 0 {
      DaysByPrefix(a, b, n - 1);
    }
  }

  /** The driver-days reported are the different ones among the rows. */
  lemma DriverDaysAreDistinct(rows: seq<Row>)
    requires Hours(rows).Ok? && Hours(rows).value.Some?
    ensures Hours(rows).value.value.driverDays == |set r | r in rows :: DayOf(r)|
  {
    DaysDiffer(rows, |rows|);
    var there := set r | r in rows :: DayOf(r);
    forall k ensures k in there <==> k in Days(rows) {
      OneOfTheRows(rows, k);
    }
    DistinctSize(Days(rows), there);
  }

  lemma {:induction false} DistinctSize(days: seq<DriverDay>, there: set<DriverDay>)
    requires Distinct(days) && forall k :: k in there <==> k in days
    ensures |there| == |days|
  {
    if days != [] {
      assert days[0] !in days[1..];
      DistinctSize(days[1..], there - {days[0]});
    }
  }

  // ---------------------------------------------------------------- the fallback is a lower bound

  /** The row with its clock times and stated hours taken away, if its driver-day is one of `ks`. */
  function Unclocked(r: Row, ks: set<DriverDay>): Row {
    if DayOf(r) in ks then r.(shiftStart := None, shiftEnd := None, hours := None) else r
  }

  function UnclockedAll(rows: seq<Row>, ks: set<DriverDay>): seq<Row> {
    if rows == [] then [] else [Unclocked(rows[0], ks)] + UnclockedAll(rows[1..], ks)
  }

  /** Every drop fell, as far as they compare, between one clock-in of the day and one clock-out. */
  ghost predicate WithinClock(members: seq<Row>) {
    exists s, e :: s in Starts(members) && e in Ends(members) && forall r :: r in members ==>
      Inside(r.completedAt, s, e)
  }

  predicate Inside(t: Time, s: Time, e: Time) {
    Comparable(t, s) && Comparable(t, e) && s.At() <= t.At() <= e.At()
  }

  lemma {:induction false} MembersUnclocked(rows: seq<Row>, ks: set<DriverDay>, k: DriverDay)
    ensures Members(UnclockedAll(rows, ks), k) == UnclockedAll(Members(rows, k), ks)
  {
    if rows != [] {
      MembersUnclocked(rows[1..], ks, k);
      assert UnclockedAll(rows, ks)[1..] == UnclockedAll(rows[1..], ks);
      assert UnclockedAll(rows, ks)[0] == Unclocked(rows[0], ks) && DayOf(Unclocked(rows[0], ks)) == DayOf(rows[0]);
      if DayOf(rows[0]) == k {
        assert Members(rows, k) == [rows[0]] + Members(rows[1..], k);
        assert Members(rows, k)[1..] == Members(rows[1..], k);
      } else {
        assert Members(rows, k) == Members(rows[1..], k);
        assert Members(UnclockedAll(rows, ks), k) == Members(UnclockedAll(rows[1..], ks), k);
      }
    }
  }

  lemma {:induction false} UnclockedMembers(members: seq<Row>, ks: set<DriverDay>, k: DriverDay)
    requires forall r :: r in members ==> DayOf(r) == k
    ensures k !in ks ==> UnclockedAll(members, ks) == members
    ensures k in ks ==> Starts(UnclockedAll(members, ks)) == [] && Stated(UnclockedAll(members, ks)) == []
    ensures |UnclockedAll(members, ks)| == |members|
    ensures Completions(UnclockedAll(members, ks)) == Completions(members)
  {
    if members != [] {
      assert members[0] in members && forall r :: r in members[1..] ==> r in members;
      UnclockedMembers(members[1..], ks, k);
      assert UnclockedAll(members, ks)[1..] == UnclockedAll(members[1..], ks);
    }
  }

  function HoursOf(c: Result<Share, TypeError>): real {
    match c
    case Ok(Some((hours, _))) => hours
    case _ => 0.0
  }

  lemma DayFallsBackLower(rows: seq<Row>, ks: set<DriverDay>, k: DriverDay)
    requires Contribution(rows, k).Ok? && (k in ks ==> WithinClock(Members(rows, k)))
    ensures Contribution(UnclockedAll(rows, ks), k).Ok?
    ensures HoursOf(Contribution(UnclockedAll(rows, ks), k)) <= HoursOf(Contribution(rows, k))
  {
    var members := Members(rows, k);
    MembersUnclocked(rows, ks, k);
    MembersAreOfTheDay(rows, k);
    UnclockedMembers(members, ks, k);
    if k in ks {
      SpanWithinShift(members);
    }
  }

  /** The hours of a day left with its drops alone. */
  function DropsOnly(members: seq<Row>): Result<Share, TypeError> {
    if |members| > 1 then
      assert Completions(members) != [] by { PickAll(members); }
      match Between(Completions(members), Completions(members))
      case Err(_) => Err(MixedZones)
      case Ok(span) => Ok(if span > 0 then Some((ToHours(span), FromSpan)) else None)
    else Ok(None)
  }

  lemma SpanWithinShift(members: seq<Row>)
    requires WithinClock(members) && DayHours(members).Ok?
    ensures DropsOnly(members).Ok? && HoursOf(DropsOnly(members)) <= HoursOf(DayHours(members))
  {
    var s, e :| s in Starts(members) && e in Ends(members) && forall r :: r in members ==> Inside(r.completedAt, s, e);
    PickAll(members);
    SpanIs(members);
    DayHoursAtLeast(members, s, e);
    if |members| > 1 {
      BetweenIs(Completions(members), Completions(members));
      DropsWithin(members, Completions(members), s, e);
    }
  }

  /** A day's hours are no fewer than any clock-in to any clock-out of it, and never negative. */
  lemma DayHoursAtLeast(members: seq<Row>, s: Time, e: Time)
    requires DayHours(members).Ok? && s in Starts(members) && e in Ends(members)
    ensures HoursOf(DayHours(members)) >= 0.0 && ToHours(e.At() - s.At()) <= HoursOf(DayHours(members))
  {
    BestSourceWins(members);
    BetweenIs(Ends(members), Starts(members));
    assert e.At() - s.At() <= Between(Ends(members), Starts(members)).value;
  }

  lemma DropsWithin(members: seq<Row>, times: seq<Time>, s: Time, e: Time)
    requires |times| == |members| && forall i :: 0 <= i < |members| ==> times[i] == members[i].completedAt
    requires forall r :: r in members ==> Inside(r.completedAt, s, e)
    ensures forall v :: IsSpan(v, times, times) ==> v <= e.At() - s.At()
  {
    forall t | t in times ensures Inside(t, s, e) {
      var i :| 0 <= i < |times| && times[i] == t;
      assert members[i] in members;
    }
  }

  predicate NoMore(c: Result<Share, TypeError>, d: Result<Share, TypeError>) {
    c.Ok? && HoursOf(c) <= HoursOf(d)
  }

  predicate Lower(t: Result<Tally, TypeError>, u: Result<Tally, TypeError>) {
    t.Ok? && u.Ok? && t.value.total <= u.value.total
  }

  lemma BothLower(t: Result<Tally, TypeError>, u: Result<Tally, TypeError>, t': Result<Tally, TypeError>,
                  u': Result<Tally, TypeError>)
    requires Lower(t, u) && Lower(t', u')
    ensures Lower(Both(t, t'), Both(u, u'))
  {
  }

  lemma {:induction false} TotalLower(f: Shares, g: Shares, days: seq<DriverDay>)
    requires Total(g, days).Ok?
    requires forall i :: 0 <= i < |days| ==> NoMore(f(days[i]), g(days[i]))
    ensures Lower(Total(f, days), Total(g, days))
  {
    if days != [] {
      forall i | 0 <= i < |days[1..]| ensures NoMore(f(days[1..][i]), g(days[1..][i])) {
        assert days[1..][i] == days[i + 1];
      }
      TotalLower(f, g, days[1..]);
      OneIsHours(f(days[0]));
      OneIsHours(g(days[0]));
      BothLower(OneDay(f(days[0])), OneDay(g(days[0])), Total(f, days[1..]), Total(g, days[1..]));
    }
  }

  lemma OneIsHours(c: Result<Share, TypeError>)
    ensures c.Ok? ==> One(c.value).total == HoursOf(c)
  {
  }

  lemma {:induction false} DaysUnclocked(rows: seq<Row>, ks: set<DriverDay>)
    ensures |UnclockedAll(rows, ks)| == |rows|
    ensures forall i :: 0 <= i < |rows| ==> UnclockedAll(rows, ks)[i] == Unclocked(rows[i], ks)
  {
    if rows != [] {
      DaysUnclocked(rows[1..], ks);
    }
  }

  lemma {:induction false} SameDays(a: seq<Row>, b: seq<Row>, n: nat)
    requires n <= |a| == |b| && forall i :: 0 <= i < |a| ==> DayOf(a[i]) == DayOf(b[i])
    ensures DaysUpTo(a, n) == DaysUpTo(b, n)
  {
    if n > 0 {
      SameDays(a, b, n - 1);
    }
  }

  /** Losing the clock times and stated hours of any driver-days whose drops all fell on the clock never
      raises the total, nor makes the sum raise: the span of completed drops is the lower bound it is said to
      be, and drops per hour from it is never an understatement. */
  lemma SpanFallbackIsLower(rows: seq<Row>, ks: set<DriverDay>)
    requires Hours(rows).Ok?
    requires forall k :: k in ks && k in Days(rows) ==> WithinClock(Members(rows, k))
    ensures Hours(UnclockedAll(rows, ks)).Ok?
    ensures Tallied(UnclockedAll(rows, ks)).value.total <= Tallied(rows).value.total
    ensures Hours(UnclockedAll(rows, ks)).value.Some? ==>
      Hours(rows).value.Some? &&
      |rows| as real / Hours(rows).value.value.total <= |rows| as real / Hours(UnclockedAll(rows, ks)).value.value.total
  {
    var less, days := UnclockedAll(rows, ks), Days(rows);
    DaysUnclocked(rows, ks);
    SameDays(less, rows, |rows|);
    HoursRaiseIff(rows);
    forall i | 0 <= i < |days|
      ensures NoMore(ContributionOf(less)(days[i]), ContributionOf(rows)(days[i]))
    {
      assert days[i] in days;
      DayFallsBackLower(rows, ks, days[i]);
    }
    TotalLower(ContributionOf(less), ContributionOf(rows), days);
    if Hours(less).value.Some? {
      RateFalls(|rows| as real, Tallied(less).value.total, Tallied(rows).value.total);
    }
  }

  lemma RateFalls(drops: real, low: real, high: real)
    requires drops >= 0.0 && 0.0 < low <= high
    ensures drops / high <= drops / low
  {
    var q := drops / low;
    assert q * low == drops && q >= 0.0;
    assert q * high >= drops;
  }
}
