/** app/baseline/loaders.py: a vendor export loaded with a full account of the rows that did not parse.

    Both loaders are one loop over a file's records, differing in how they read one; `Load` is that loop.
    How a cell's text is read as a time or a number is a parameter; a time read may or may not carry an offset
    from UTC, and comparing one that does with one that does not raises, which nothing here catches. */
module BaselineLoading {
  import opened Counting
  import opened HeaderBinding
  import opened Strings
  import opened Timestamps
  import opened Wrappers

  /** One record as the CSV reader gives it, by header. A short one lacks its last headers. */
  type Line = map<Header, string>

  datatype Reason =
    | NoDriver
    | NoCompletion
    | BadCompletion(raw: string)
    | NoAmount
    | BadAmount(raw: string)

  datatype Issue = Issue(line: nat, reason: Reason)

  /** A clock time alone lands on one placeholder day. */
  datatype Parsers = Parsers(timestamp: string -> Option<Time>, timeOnly: string -> bool,
                             number: string -> Option<real>)

  datatype ActivityRow = ActivityRow(
    line: nat,
    driverId: string,
    completedAt: Time,
    stopRef: Option<string>,
    routeRef: Option<string>,
    promisedAt: Option<Time>,
    shiftStart: Option<Time>,
    shiftEnd: Option<Time>,
    hours: Option<real>,
    miles: Option<real>)

  datatype InvoiceRow = InvoiceRow(
    line: nat,
    amount: real,
    stopRef: Option<string>,
    customerRef: Option<string>,
    invoicedAt: Option<Time>,
    stopCount: Option<real>,
    miles: Option<real>)

  /** What reading one record comes to. */
  datatype Reading<R> = Row(row: R) | Bad(issue: Issue) | Raised(error: TypeError)

  datatype Loaded<R> = Loaded(rows: seq<R>, issues: seq<Issue>, total: nat, coverage: map<Field, nat>)

  // ---------------------------------------------------------------- reading one record

  /** `ColumnMap.get`: unmapped, missing and blank are one answer. */
  function Get(m: map<Field, Header>, raw: Line, f: Field): Option<string> {
    if f !in m || m[f] !in raw || Strip(raw[m[f]]) == "" then None else Some(Strip(raw[m[f]]))
  }

  function Parsed<T>(parse: string -> Option<T>, cell: Option<string>): Option<T> {
    if cell.Some? then parse(cell.value) else None
  }

  /** The shift's end: a clock time before the shift's start is taken to be the next day's. The comparison comes
      before the question whether the end is a clock time. */
  function ShiftEnd(p: Parsers, start: Option<Time>, raw: Option<string>): Result<Option<Time>, TypeError> {
    var end := Parsed(p.timestamp, raw);
    if start.None? || end.None? then Ok(end)
    else
      match Less(end.value, start.value)
      case Err(e) => Err(e)
      case Ok(before) => Ok(if before && p.timeOnly(raw.value) then Some(end.value.Plus(DAY)) else end)
  }

  function ReadActivity(p: Parsers, m: map<Field, Header>, raw: Line, line: nat): Reading<ActivityRow> {
    var driver, completed := Get(m, raw, "driver_id"), Get(m, raw, "completed_at");
    if driver.None? then Bad(Issue(line, NoDriver))
    else if completed.None? then Bad(Issue(line, NoCompletion))
    else if p.timestamp(completed.value).None? then Bad(Issue(line, BadCompletion(completed.value)))
    else
      var start := Parsed(p.timestamp, Get(m, raw, "shift_start"));
      match ShiftEnd(p, start, Get(m, raw, "shift_end"))
      case Err(e) => Raised(e)
      case Ok(end) =>
        Row(ActivityRow(line, driver.value, p.timestamp(completed.value).value, Get(m, raw, "stop_ref"),
                        Get(m, raw, "route_ref"), Parsed(p.timestamp, Get(m, raw, "promised_at")), start, end,
                        Parsed(p.number, Get(m, raw, "hours")), Parsed(p.number, Get(m, raw, "miles"))))
  }

  function ReadInvoice(p: Parsers, m: map<Field, Header>, raw: Line, line: nat): Reading<InvoiceRow> {
    var amount := Get(m, raw, "amount");
    if amount.None? then Bad(Issue(line, NoAmount))
    else if p.number(amount.value).None? then Bad(Issue(line, BadAmount(amount.value)))
    else
      Row(InvoiceRow(line, p.number(amount.value).value, Get(m, raw, "stop_ref"), Get(m, raw, "customer_ref"),
                     Parsed(p.timestamp, Get(m, raw, "invoiced_at")), Parsed(p.number, Get(m, raw, "stop_count")),
                     Parsed(p.number, Get(m, raw, "miles"))))
  }

  function ActivityReader(p: Parsers, m: map<Field, Header>): (Line, nat) -> Reading<ActivityRow> {
    (raw: Line, line: nat) => ReadActivity(p, m, raw, line)
  }

  function InvoiceReader(p: Parsers, m: map<Field, Header>): (Line, nat) -> Reading<InvoiceRow> {
    (raw: Line, line: nat) => ReadInvoice(p, m, raw, line)
  }

  const ACTIVITY_FIELDS: seq<Field> :=
    ["stop_ref", "route_ref", "promised_at", "shift_start", "shift_end", "hours", "miles", "driver_id", "completed_at"]

  const INVOICE_FIELDS: seq<Field> := ["stop_ref", "customer_ref", "invoiced_at", "stop_count", "miles", "amount"]

  /** Whether a row carries a value for a field. */
  predicate ActivityHas(r: ActivityRow, f: Field) {
    match f
    case "stop_ref" => r.stopRef.Some?
    case "route_ref" => r.routeRef.Some?
    case "promised_at" => r.promisedAt.Some?
    case "shift_start" => r.shiftStart.Some?
    case "shift_end" => r.shiftEnd.Some?
    case "hours" => r.hours.Some?
    case "miles" => r.miles.Some?
    case "driver_id" => true
    case "completed_at" => true
    case _ => false
  }

  predicate InvoiceHas(r: InvoiceRow, f: Field) {
    match f
    case "stop_ref" => r.stopRef.Some?
    case "customer_ref" => r.customerRef.Some?
    case "invoiced_at" => r.invoicedAt.Some?
    case "stop_count" => r.stopCount.Some?
    case "miles" => r.miles.Some?
    case "amount" => true
    case _ => false
  }

  // ---------------------------------------------------------------- what a row holds

  /** The record has that text, blanks around it aside, in the column bound to the field. */
  ghost predicate CellIs(m: map<Field, Header>, raw: Line, f: Field, text: string) {
    f in m && m[f] in raw && text != "" && text == Strip(raw[m[f]])
  }

  ghost predicate NoCell(m: map<Field, Header>, raw: Line, f: Field) {
    forall text :: !CellIs(m, raw, f, text)
  }

  /** What is read of the field is its own cell's, as that parses. */
  ghost predicate ReadAs<T(!new)>(m: map<Field, Header>, raw: Line, f: Field, parse: string -> Option<T>,
                                  x: Option<T>)
  {
    (NoCell(m, raw, f) && x.None?) || exists text :: CellIs(m, raw, f, text) && x == parse(text)
  }

  ghost predicate TextIs(m: map<Field, Header>, raw: Line, f: Field, x: Option<string>) {
    (NoCell(m, raw, f) && x.None?) || (x.Some? && CellIs(m, raw, f, x.value))
  }

  lemma GetIs(m: map<Field, Header>, raw: Line, f: Field)
    ensures TextIs(m, raw, f, Get(m, raw, f))
    ensures forall text :: CellIs(m, raw, f, text) <==> Get(m, raw, f) == Some(text)
  {
  }

  lemma ParsedIs<T(!new)>(m: map<Field, Header>, raw: Line, f: Field, parse: string -> Option<T>)
    ensures ReadAs(m, raw, f, parse, Parsed(parse, Get(m, raw, f)))
  {
    GetIs(m, raw, f);
    if Get(m, raw, f).Some? {
      assert CellIs(m, raw, f, Get(m, raw, f).value);
    }
  }

  /** A row of the activity export holds its own record's cells: the driver and the completion time, and each other
      field as its column parses. The shift's end is but for the day put on it as `ShiftEnd` says. */
  lemma ActivityRowIs(p: Parsers, m: map<Field, Header>, raw: Line, line: nat)
    requires ReadActivity(p, m, raw, line).Row?
    ensures var r := ReadActivity(p, m, raw, line).row;
      && r.line == line
      && CellIs(m, raw, "driver_id", r.driverId)
      && ReadAs(m, raw, "completed_at", p.timestamp, Some(r.completedAt))
      && TextIs(m, raw, "stop_ref", r.stopRef) && TextIs(m, raw, "route_ref", r.routeRef)
      && ReadAs(m, raw, "promised_at", p.timestamp, r.promisedAt)
      && ReadAs(m, raw, "shift_start", p.timestamp, r.shiftStart)
      && ReadAs(m, raw, "hours", p.number, r.hours) && ReadAs(m, raw, "miles", p.number, r.miles)
  {
    GetIs(m, raw, "driver_id");
    GetIs(m, raw, "stop_ref");
    GetIs(m, raw, "route_ref");
    ParsedIs(m, raw, "completed_at", p.timestamp);
    ParsedIs(m, raw, "promised_at", p.timestamp);
    ParsedIs(m, raw, "shift_start", p.timestamp);
    ParsedIs(m, raw, "hours", p.number);
    ParsedIs(m, raw, "miles", p.number);
  }

  /** Its shift's end is its own cell's time; a clock time before the shift's start is that a day later. */
  lemma ShiftEndIs(p: Parsers, m: map<Field, Header>, raw: Line, line: nat)
    requires ReadActivity(p, m, raw, line).Row?
    ensures var r := ReadActivity(p, m, raw, line).row;
      (NoCell(m, raw, "shift_end") && r.shiftEnd.None?) ||
      exists text :: CellIs(m, raw, "shift_end", text) && EndsAt(p, r.shiftStart, text, r.shiftEnd)
  {
    GetIs(m, raw, "shift_end");
    var end := Get(m, raw, "shift_end");
    if end.Some? {
      assert CellIs(m, raw, "shift_end", end.value);
      var r := ReadActivity(p, m, raw, line).row;
      assert EndsAt(p, r.shiftStart, end.value, r.shiftEnd);
    }
  }

  /** The end read of a text, after that start. */
  predicate EndsAt(p: Parsers, start: Option<Time>, text: string, end: Option<Time>) {
    match p.timestamp(text)
    case None => end.None?
    case Some(t) =>
      if start.Some? && Comparable(t, start.value) && t.At() < start.value.At() && p.timeOnly(text)
      then end == Some(Time(t.wall + 24 * 3600, t.offset))
      else end == Some(t)
  }

  /** A record that is no row says why: it has no driver, no completion time, or one that does not parse, in that
      order. */
  lemma ActivityIssueIs(p: Parsers, m: map<Field, Header>, raw: Line, line: nat)
    ensures NoCell(m, raw, "driver_id") ==> ReadActivity(p, m, raw, line) == Bad(Issue(line, NoDriver))
    ensures !NoCell(m, raw, "driver_id") && NoCell(m, raw, "completed_at") ==>
      ReadActivity(p, m, raw, line) == Bad(Issue(line, NoCompletion))
    ensures forall text :: !NoCell(m, raw, "driver_id") && CellIs(m, raw, "completed_at", text) ==>
      (if p.timestamp(text).None? then ReadActivity(p, m, raw, line) == Bad(Issue(line, BadCompletion(text)))
       else !ReadActivity(p, m, raw, line).Bad?)
  {
    GetIs(m, raw, "driver_id");
    GetIs(m, raw, "completed_at");
  }

  lemma InvoiceRowIs(p: Parsers, m: map<Field, Header>, raw: Line, line: nat)
    requires ReadInvoice(p, m, raw, line).Row?
    ensures var r := ReadInvoice(p, m, raw, line).row;
      && r.line == line
      && ReadAs(m, raw, "amount", p.number, Some(r.amount))
      && TextIs(m, raw, "stop_ref", r.stopRef) && TextIs(m, raw, "customer_ref", r.customerRef)
      && ReadAs(m, raw, "invoiced_at", p.timestamp, r.invoicedAt)
      && ReadAs(m, raw, "stop_count", p.number, r.stopCount) && ReadAs(m, raw, "miles", p.number, r.miles)
  {
    GetIs(m, raw, "stop_ref");
    GetIs(m, raw, "customer_ref");
    ParsedIs(m, raw, "amount", p.number);
    ParsedIs(m, raw, "invoiced_at", p.timestamp);
    ParsedIs(m, raw, "stop_count", p.number);
    ParsedIs(m, raw, "miles", p.number);
  }

  lemma InvoiceIssueIs(p: Parsers, m: map<Field, Header>, raw: Line, line: nat)
    ensures NoCell(m, raw, "amount") ==> ReadInvoice(p, m, raw, line) == Bad(Issue(line, NoAmount))
    ensures forall text :: CellIs(m, raw, "amount", text) ==>
      (if p.number(text).None? then ReadInvoice(p, m, raw, line) == Bad(Issue(line, BadAmount(text)))
       else ReadInvoice(p, m, raw, line).Row?)
  {
    GetIs(m, raw, "amount");
  }

  /** The record has a cell for the field that parses. */
  ghost predicate Parses<T(!new)>(m: map<Field, Header>, raw: Line, f: Field, parse: string -> Option<T>) {
    exists text :: CellIs(m, raw, f, text) && parse(text).Some?
  }

  /** What counts as carrying a field, told of the record: a text that is there, or a time or number that parses. */
  lemma ActivityCarries(p: Parsers, m: map<Field, Header>, raw: Line, line: nat, f: Field)
    requires ReadActivity(p, m, raw, line).Row?
    ensures ActivityHas(ReadActivity(p, m, raw, line).row, f) <==>
      || (f in ["stop_ref", "route_ref"] && !NoCell(m, raw, f))
      || (f in ["promised_at", "shift_start", "shift_end"] && Parses(m, raw, f, p.timestamp))
      || (f in ["hours", "miles"] && Parses(m, raw, f, p.number))
      || f in ["driver_id", "completed_at"]
  {
    GetIs(m, raw, f);
    HasByGet(p, m, raw, line, f);
    if f in ["hours", "miles"] {
      ParsesByGet(m, raw, f, p.number);
    } else {
      ParsesByGet(m, raw, f, p.timestamp);
    }
  }

  lemma ParsesByGet<T(!new)>(m: map<Field, Header>, raw: Line, f: Field, parse: string -> Option<T>)
    ensures Parses(m, raw, f, parse) <==> Parsed(parse, Get(m, raw, f)).Some?
  {
    GetIs(m, raw, f);
    if Get(m, raw, f).Some? {
      assert CellIs(m, raw, f, Get(m, raw, f).value);
    }
  }

  lemma HasByGet(p: Parsers, m: map<Field, Header>, raw: Line, line: nat, f: Field)
    requires ReadActivity(p, m, raw, line).Row?
    ensures ActivityHas(ReadActivity(p, m, raw, line).row, f) <==>
      if f in ["stop_ref", "route_ref"] then Get(m, raw, f).Some?
      else if f in ["promised_at", "shift_start", "shift_end"] then Parsed(p.timestamp, Get(m, raw, f)).Some?
      else if f in ["hours", "miles"] then Parsed(p.number, Get(m, raw, f)).Some?
      else f in ["driver_id", "completed_at"]
  {
  }

  lemma InvoiceCarries(p: Parsers, m: map<Field, Header>, raw: Line, line: nat, f: Field)
    requires ReadInvoice(p, m, raw, line).Row?
    ensures InvoiceHas(ReadInvoice(p, m, raw, line).row, f) <==>
      || (f in ["stop_ref", "customer_ref"] && !NoCell(m, raw, f))
      || (f == "invoiced_at" && Parses(m, raw, f, p.timestamp))
      || (f in ["stop_count", "miles"] && Parses(m, raw, f, p.number))
      || f == "amount"
  {
    GetIs(m, raw, f);
  }

  // ---------------------------------------------------------------- the loop

  /** What the first `n` records give. They are numbered from 2, the header being 1. */
  function RowsUpTo<R>(read: (Line, nat) -> Reading<R>, raws: seq<Line>, n: nat): seq<R>
    requires n <= |raws|
  {
    if n == 0 then []
    else RowsUpTo(read, raws, n - 1) + match read(raws[n - 1], n + 1) case Row(r) => [r] case _ => []
  }

  function IssuesUpTo<R>(read: (Line, nat) -> Reading<R>, raws: seq<Line>, n: nat): seq<Issue>
    requires n <= |raws|
  {
    if n == 0 then []
    else IssuesUpTo(read, raws, n - 1) + match read(raws[n - 1], n + 1) case Bad(i) => [i] case _ => []
  }

  /** How many of the first `n` rows carry a value for the field. */
  function Carrying<R>(has: (R, Field) -> bool, rows: seq<R>, f: Field, n: nat): (c: nat)
    requires n <= |rows|
    ensures c <= n
  {
    if n == 0 then 0 else Carrying(has, rows, f, n - 1) + if has(rows[n - 1], f) then 1 else 0
  }

  function Count(coverage: map<Field, nat>, f: Field): nat {
    if f in coverage then coverage[f] else 0
  }

  ghost predicate Covers<R(!new)>(coverage: map<Field, nat>, has: (R, Field) -> bool, fields: seq<Field>,
                                  rows: seq<R>)
  {
    forall f :: Count(coverage, f) == if f in fields then Carrying(has, rows, f, |rows|) else 0
  }

  lemma {:induction false} CarryingByPrefix<R>(has: (R, Field) -> bool, rows: seq<R>, more: seq<R>, f: Field, n: nat)
    requires n <= |rows| && rows <= more
    ensures Carrying(has, rows, f, n) == Carrying(has, more, f, n)
  {
    if n > 0 {
      CarryingByPrefix(has, rows, more, f, n - 1);
    }
  }

  /** `_bump` for each of a row's fields. */
  method Bump<R>(coverage: map<Field, nat>, has: (R, Field) -> bool, fields: seq<Field>, row: R)
    returns (r: map<Field, nat>)
    requires Distinct(fields)
    ensures forall f :: Count(r, f) == Count(coverage, f) + if f in fields && has(row, f) then 1 else 0
  {
    r := coverage;
    for i := 0 to |fields|
      invariant forall f :: Count(r, f) == Count(coverage, f) + if f in fields[..i] && has(row, f) then 1 else 0
    {
      assert fields[..i + 1] == fields[..i] + [fields[i]];
      assert fields[i] !in fields[..i];
      if has(row, fields[i]) {
        r := r[fields[i] := Count(r, fields[i]) + 1];
      }
    }
    assert fields[..|fields|] == fields;
  }

  /** Reading some record raises. */
  ghost predicate SomeRaise<R(!new)>(read: (Line, nat) -> Reading<R>, raws: seq<Line>, n: nat)
    requires n <= |raws|
  {
    exists k: nat :: k < n && Raises(read, raws, k)
  }

  predicate Raises<R(!new)>(read: (Line, nat) -> Reading<R>, raws: seq<Line>, k: nat)
    requires k < |raws|
  {
    read(raws[k], k + 2).Raised?
  }

  /** What a loader's result promises when it has one, its records accounted for. */
  ghost predicate LoadedFrom<R(!new)>(r: Loaded<R>, raws: seq<Line>, read: (Line, nat) -> Reading<R>,
                                      has: (R, Field) -> bool, fields: seq<Field>)
  {
    && r.rows == RowsUpTo(read, raws, |raws|) && r.issues == IssuesUpTo(read, raws, |raws|) && r.total == |raws|
    && Covers(r.coverage, has, fields, r.rows)
    && |r.rows| + |r.issues| == r.total
  }

  method AddRow<R(!new)>(coverage: map<Field, nat>, has: (R, Field) -> bool, fields: seq<Field>, rows: seq<R>, row: R)
    returns (rows': seq<R>, coverage': map<Field, nat>)
    requires Distinct(fields) && Covers(coverage, has, fields, rows)
    ensures rows' == rows + [row] && Covers(coverage', has, fields, rows')
  {
    coverage' := Bump(coverage, has, fields, row);
    OneMoreCovered(coverage, coverage', has, fields, rows, row);
    rows' := rows + [row];
  }

  lemma OneMoreRead<R(!new)>(read: (Line, nat) -> Reading<R>, raws: seq<Line>, i: nat)
    requires i < |raws|
    ensures SomeRaise(read, raws, i + 1) <==> SomeRaise(read, raws, i) || Raises(read, raws, i)
  {
  }

  lemma RaisesForAll<R(!new)>(read: (Line, nat) -> Reading<R>, raws: seq<Line>, i: nat)
    requires i < |raws| && Raises(read, raws, i)
    ensures SomeRaise(read, raws, |raws|)
  {
  }

  /** What the loop has after `i` records, none of which raised. */
  ghost predicate LoadedUpTo<R(!new)>(raws: seq<Line>, read: (Line, nat) -> Reading<R>, has: (R, Field) -> bool,
                                      fields: seq<Field>, i: nat, rows: seq<R>, issues: seq<Issue>,
                                      coverage: map<Field, nat>)
    requires i <= |raws|
  {
    && rows == RowsUpTo(read, raws, i) && issues == IssuesUpTo(read, raws, i)
    && Covers(coverage, has, fields, rows) && !SomeRaise(read, raws, i)
  }

  method LoadLine<R(!new)>(raws: seq<Line>, read: (Line, nat) -> Reading<R>, has: (R, Field) -> bool,
                           fields: seq<Field>, i: nat, rows: seq<R>, issues: seq<Issue>,
                           coverage: map<Field, nat>)
    returns (ok: bool, rows': seq<R>, issues': seq<Issue>, coverage': map<Field, nat>)
    requires Distinct(fields) && i < |raws| && LoadedUpTo(raws, read, has, fields, i, rows, issues, coverage)
    ensures ok <==> !Raises(read, raws, i)
    ensures ok ==> LoadedUpTo(raws, read, has, fields, i + 1, rows', issues', coverage')
  {
    OneMoreRead(read, raws, i);
    ok, rows', issues', coverage' := true, rows, issues, coverage;
    match read(raws[i], i + 2) {
      case Raised(_) =>
        ok := false;
      case Bad(issue) =>
        issues' := issues + [issue];
      case Row(row) =>
        rows', coverage' := AddRow(coverage, has, fields, rows, row);
    }
  }

  /** One record that raises takes the whole load with it. */
  method Load<R(!new)>(raws: seq<Line>, read: (Line, nat) -> Reading<R>, has: (R, Field) -> bool, fields: seq<Field>)
    returns (r: Result<Loaded<R>, TypeError>)
    requires Distinct(fields)
    ensures r.Err? <==> SomeRaise(read, raws, |raws|)
    ensures r.Ok? ==> LoadedFrom(r.value, raws, read, has, fields)
  {
    var rows: seq<R>, issues: seq<Issue>, coverage: map<Field, nat> := [], [], map[];
    for i := 0 to |raws|
      invariant LoadedUpTo(raws, read, has, fields, i, rows, issues, coverage)
    {
      var ok;
      ok, rows, issues, coverage := LoadLine(raws, read, has, fields, i, rows, issues, coverage);
      if !ok {
        RaisesForAll(read, raws, i);
        return Err(MixedZones);
      }
    }
    AllLinesCounted(read, raws, |raws|);
    return Ok(Loaded(rows, issues, |raws|, coverage));
  }

  lemma OneMoreCovered<R(!new)>(coverage: map<Field, nat>, bumped: map<Field, nat>, has: (R, Field) -> bool,
                                fields: seq<Field>, rows: seq<R>, row: R)
    requires Covers(coverage, has, fields, rows)
    requires forall f :: Count(bumped, f) == Count(coverage, f) + if f in fields && has(row, f) then 1 else 0
    ensures Covers(bumped, has, fields, rows + [row])
  {
    forall f ensures Count(bumped, f) == if f in fields then Carrying(has, rows + [row], f, |rows| + 1) else 0 {
      CarryingByPrefix(has, rows, rows + [row], f, |rows|);
      assert Count(coverage, f) == if f in fields then Carrying(has, rows, f, |rows|) else 0;
    }
  }

  method LoadActivity(p: Parsers, m: map<Field, Header>, raws: seq<Line>)
    returns (r: Result<Loaded<ActivityRow>, TypeError>)
    ensures r.Err? <==> exists k: nat :: k < |raws| && MixedShift(p, m, raws[k])
    ensures r.Ok? ==> LoadedFrom(r.value, raws, ActivityReader(p, m), ActivityHas, ACTIVITY_FIELDS)
  {
    r := Load(raws, ActivityReader(p, m), ActivityHas, ACTIVITY_FIELDS);
    LoadRaisesIff(p, m, raws, |raws|);
  }

  method LoadInvoices(p: Parsers, m: map<Field, Header>, raws: seq<Line>)
    returns (r: Result<Loaded<InvoiceRow>, TypeError>)
    ensures r.Ok? && LoadedFrom(r.value, raws, InvoiceReader(p, m), InvoiceHas, INVOICE_FIELDS)
  {
    r := Load(raws, InvoiceReader(p, m), InvoiceHas, INVOICE_FIELDS);
    assert forall k: nat :: k < |raws| ==> !Raises(InvoiceReader(p, m), raws, k);
  }

  // ---------------------------------------------------------------- when the load completes

  /** A record that would have been a row, but for a shift with an offset on one of its times and none on the
      other. */
  predicate MixedShift(p: Parsers, m: map<Field, Header>, raw: Line) {
    var start, end := Parsed(p.timestamp, Get(m, raw, "shift_start")), Parsed(p.timestamp, Get(m, raw, "shift_end"));
    && Get(m, raw, "driver_id").Some?
    && Parsed(p.timestamp, Get(m, raw, "completed_at")).Some?
    && start.Some? && end.Some? && start.value.Zoned() != end.value.Zoned()
  }

  lemma LineRaisesIff(p: Parsers, m: map<Field, Header>, raw: Line, line: nat)
    ensures ReadActivity(p, m, raw, line).Raised? <==> MixedShift(p, m, raw)
  {
  }

  /** The activity load completes exactly when, on each record with a driver and a completion time, both shift
      times carry an offset or neither does. */
  lemma {:induction false} LoadRaisesIff(p: Parsers, m: map<Field, Header>, raws: seq<Line>, n: nat)
    requires n <= |raws|
    ensures SomeRaise(ActivityReader(p, m), raws, n) <==> exists k: nat :: k < n && MixedShift(p, m, raws[k])
  {
    forall k: nat | k < n ensures Raises(ActivityReader(p, m), raws, k) <==> MixedShift(p, m, raws[k]) {
      LineRaisesIff(p, m, raws[k], k + 2);
    }
  }

  /** The record of a driver whose shift began at an ISO time with an offset and ended at a clock time. */
  const ZONED_START: Line := map["driver_id" := "7", "completed_at" := "2024-05-01T09:00:00+00:00",
                                 "shift_start" := "2024-05-01T08:00:00+00:00", "shift_end" := "17:00"]

  const OWN_NAMES: map<Field, Header> := map["driver_id" := "driver_id", "completed_at" := "completed_at",
                                             "shift_start" := "shift_start", "shift_end" := "shift_end"]

  /** Such a record anywhere in a file, and the whole file is lost. */
  lemma OneLineLosesTheFile(p: Parsers, before: seq<Line>, after: seq<Line>)
    requires p.timestamp("2024-05-01T09:00:00+00:00").Some?
    requires p.timestamp("2024-05-01T08:00:00+00:00").Some? && p.timestamp("2024-05-01T08:00:00+00:00").value.Zoned()
    requires p.timestamp("17:00").Some? && !p.timestamp("17:00").value.Zoned()
    ensures var raws := before + [ZONED_START] + after; SomeRaise(ActivityReader(p, OWN_NAMES), raws, |raws|)
  {
    var raws := before + [ZONED_START] + after;
    assert raws[|before|] == ZONED_START;
    NoBlanks("7");
    NoBlanks("2024-05-01T09:00:00+00:00");
    NoBlanks("2024-05-01T08:00:00+00:00");
    NoBlanks("17:00");
    assert MixedShift(p, OWN_NAMES, raws[|before|]);
    LoadRaisesIff(p, OWN_NAMES, raws, |raws|);
  }

  lemma NoBlanks(s: string)
    requires s != "" && !IsSpace(s[0]) && !IsSpace(s[|s| - 1])
    ensures Strip(s) == s
  {
  }

  // ---------------------------------------------------------------- nothing is lost

  lemma {:induction false} AllLinesCounted<R(!new)>(read: (Line, nat) -> Reading<R>, raws: seq<Line>, n: nat)
    requires n <= |raws| && !SomeRaise(read, raws, n)
    ensures |RowsUpTo(read, raws, n)| + |IssuesUpTo(read, raws, n)| == n
  {
    if n > 0 {
      assert !Raises(read, raws, n - 1);
      forall k: nat | k < n - 1 ensures !Raises(read, raws, k) {
      }
      AllLinesCounted(read, raws, n - 1);
    }
  }

  /** A record's row, or its issue, bears the record's own number. */
  ghost predicate OwnLines<R(!new)>(read: (Line, nat) -> Reading<R>, lineOf: R -> nat) {
    forall raw, line: nat ::
      match read(raw, line)
      case Row(r) => lineOf(r) == line
      case Bad(i) => i.line == line
      case Raised(_) => true
  }

  lemma BothLoadersNumberTheirLines(p: Parsers, m: map<Field, Header>)
    ensures OwnLines(ActivityReader(p, m), (r: ActivityRow) => r.line)
    ensures OwnLines(InvoiceReader(p, m), (r: InvoiceRow) => r.line)
  {
  }

  ghost predicate Ascending(s: seq<nat>) {
    forall i, j :: 0 <= i < j < |s| ==> s[i] < s[j]
  }

  function LinesOf<R>(lineOf: R -> nat, rows: seq<R>): (r: seq<nat>)
    ensures |r| == |rows| && forall i :: 0 <= i < |rows| ==> r[i] == lineOf(rows[i])
  {
    seq(|rows|, i requires 0 <= i < |rows| => lineOf(rows[i]))
  }

  /** In a load that completes, every record of the file is one row or one issue and never both, under its own
      number and in the file's order; and there is nothing else. */
  lemma LoadingLosesNothing<R(!new)>(read: (Line, nat) -> Reading<R>, lineOf: R -> nat, raws: seq<Line>)
    requires OwnLines(read, lineOf) && !SomeRaise(read, raws, |raws|)
    ensures var rows := LinesOf(lineOf, RowsUpTo(read, raws, |raws|));
      var issues := LinesOf((i: Issue) => i.line, IssuesUpTo(read, raws, |raws|));
      && Ascending(rows) && Ascending(issues)
      && (forall l :: 2 <= l <= |raws| + 1 <==> l in rows || l in issues)
      && (forall l :: !(l in rows && l in issues))
      && (forall l :: l in rows ==> read(raws[l - 2], l).Row?)
  {
    LinesAreTheirOwn(read, lineOf, raws, |raws|);
    forall k: nat | k < |raws| ensures read(raws[k], k + 2).Row? || read(raws[k], k + 2).Bad? {
      assert !Raises(read, raws, k);
    }
  }

  lemma {:induction false} LinesAreTheirOwn<R(!new)>(read: (Line, nat) -> Reading<R>, lineOf: R -> nat, raws: seq<Line>,
                                                     n: nat)
    requires OwnLines(read, lineOf) && n <= |raws|
    ensures var rows := LinesOf(lineOf, RowsUpTo(read, raws, n));
      var issues := LinesOf((i: Issue) => i.line, IssuesUpTo(read, raws, n));
      && Ascending(rows) && Ascending(issues)
      && (forall l :: l in rows <==> 2 <= l <= n + 1 && read(raws[l - 2], l).Row?)
      && (forall l :: l in issues <==> 2 <= l <= n + 1 && read(raws[l - 2], l).Bad?)
  {
    if n > 0 {
      LinesAreTheirOwn(read, lineOf, raws, n - 1);
      var rows := LinesOf(lineOf, RowsUpTo(read, raws, n - 1));
      var issues := LinesOf((i: Issue) => i.line, IssuesUpTo(read, raws, n - 1));
      OneMoreLine(read, lineOf, raws, n);
      LinesAreBelow(rows, n + 1);
      LinesAreBelow(issues, n + 1);
    }
  }

  lemma OneMoreLine<R(!new)>(read: (Line, nat) -> Reading<R>, lineOf: R -> nat, raws: seq<Line>, n: nat)
    requires OwnLines(read, lineOf) && 0 < n <= |raws|
    ensures LinesOf(lineOf, RowsUpTo(read, raws, n)) ==
            LinesOf(lineOf, RowsUpTo(read, raws, n - 1)) + if read(raws[n - 1], n + 1).Row? then [n + 1] else []
    ensures LinesOf((i: Issue) => i.line, IssuesUpTo(read, raws, n)) ==
            LinesOf((i: Issue) => i.line, IssuesUpTo(read, raws, n - 1)) +
            if read(raws[n - 1], n + 1).Bad? then [n + 1] else []
  {
    var last := read(raws[n - 1], n + 1);
    assert match last case Row(r) => lineOf(r) == n + 1 case Bad(i) => i.line == n + 1 case Raised(_) => true;
  }

  lemma LinesAreBelow(lines: seq<nat>, bound: nat)
    requires Ascending(lines) && forall l :: l in lines ==> l < bound
    ensures Ascending(lines + [bound])
  {
    forall i | 0 <= i < |lines| ensures lines[i] < bound {
      assert lines[i] in lines;
    }
  }

  // ---------------------------------------------------------------- records and the file's lines

  /** What follows the header in the file: a blank line, which the CSV reader skips, or a record, with the line
      breaks its quoted cells hold. */
  datatype Entry = Blank | Record(cells: Line, breaks: nat)

  /** The records the loaders are given, numbered from 2. */
  function Records(file: seq<Entry>): seq<Line> {
    if file == [] then []
    else
      Records(file[..|file| - 1]) + match file[|file| - 1] case Record(cells, _) => [cells] case Blank => []
  }

  function Height(file: seq<Entry>): nat {
    if file == [] then 0
    else Height(file[..|file| - 1]) + match file[|file| - 1] case Record(_, breaks) => 1 + breaks case Blank => 1
  }

  predicate OneLineEach(file: seq<Entry>) {
    forall j :: 0 <= j < |file| ==> file[j].Record? && file[j].breaks == 0
  }

  lemma {:induction false} RecordsAreNoMoreThanLines(file: seq<Entry>)
    ensures |Records(file)| <= Height(file)
    ensures |Records(file)| == Height(file) <==> OneLineEach(file)
  {
    if file != [] {
      var init := file[..|file| - 1];
      RecordsAreNoMoreThanLines(init);
      assert OneLineEach(file) <==> OneLineEach(init) && file[|file| - 1].Record? && file[|file| - 1].breaks == 0;
    }
  }

  lemma {:induction false} RecordsStay(file: seq<Entry>, i: nat, n: nat)
    requires i <= n <= |file|
    ensures Records(file[..i]) <= Records(file[..n])
    decreases n
  {
    if i < n {
      RecordsStay(file, i, n - 1);
      assert file[..n][..n - 1] == file[..n - 1];
    }
  }

  /** The number a record is reported under is its place among the records. It is the line of the file the record
      begins on exactly when no blank line and no line break in a cell comes before it; otherwise it is less. */
  lemma NumberIsTheLineIff(headerBreaks: nat, file: seq<Entry>, i: nat)
    requires i < |file| && file[i].Record?
    ensures var number, line := |Records(file[..i])| + 2, headerBreaks + Height(file[..i]) + 2;
      && number - 2 < |Records(file)| && Records(file)[number - 2] == file[i].cells
      && number <= line
      && (number == line <==> headerBreaks == 0 && OneLineEach(file[..i]))
  {
    RecordsAreNoMoreThanLines(file[..i]);
    RecordsStay(file, i + 1, |file|);
    assert file[..|file|] == file && file[..i + 1][..i] == file[..i];
  }

  // ---------------------------------------------------------------- coverage and completeness

  /** `coverage_of`: None for a field with no column, which is not the same as an empty one. */
  function CoverageOf<R>(r: Loaded<R>, m: map<Field, Header>, f: Field): Option<real> {
    if f !in m then None
    else if r.rows == [] then Some(0.0)
    else Some(Count(r.coverage, f) as real / |r.rows| as real)
  }

  lemma {:induction false} CarryingAllOrNone<R>(has: (R, Field) -> bool, rows: seq<R>, f: Field, n: nat)
    requires n <= |rows|
    ensures Carrying(has, rows, f, n) == n <==> forall i :: 0 <= i < n ==> has(rows[i], f)
    ensures Carrying(has, rows, f, n) == 0 <==> forall i :: 0 <= i < n ==> !has(rows[i], f)
  {
    if n > 0 {
      CarryingAllOrNone(has, rows, f, n - 1);
    }
  }

  /** Every field a row can carry is one its loader counts. */
  lemma NoFieldUncounted(a: ActivityRow, i: InvoiceRow, f: Field)
    ensures ActivityHas(a, f) ==> f in ACTIVITY_FIELDS
    ensures InvoiceHas(i, f) ==> f in INVOICE_FIELDS
  {
  }

  lemma {:induction false} CarryingIs<R(!new)>(has: (R, Field) -> bool, rows: seq<R>, f: Field, n: nat)
    requires n <= |rows|
    ensures Carrying(has, rows, f, n) == |Those((i: nat) => i < |rows| && has(rows[i], f), n)|
  {
    CountGoesUp((i: nat) => i < |rows| && has(rows[i], f), if n > 0 then n - 1 else 0);
    if n > 0 {
      CarryingIs(has, rows, f, n - 1);
    }
  }

  /** Of a mapped field, coverage is how many of the rows carry it, over how many there are; nothing of no rows. */
  lemma CoverageIsTheRows<R(!new)>(r: Loaded<R>, has: (R, Field) -> bool, fields: seq<Field>, m: map<Field, Header>,
                                   f: Field)
    requires Covers(r.coverage, has, fields, r.rows) && f in fields && f in m
    ensures r.rows == [] ==> CoverageOf(r, m, f) == Some(0.0)
    ensures r.rows != [] ==> CoverageOf(r, m, f).Some?
    ensures r.rows != [] ==>
      CoverageOf(r, m, f).value * (|r.rows| as real) ==
        |Those((i: nat) => i < |r.rows| && has(r.rows[i], f), |r.rows|)| as real
  {
    CarryingIs(has, r.rows, f, |r.rows|);
    if r.rows != [] {
      Undivided(Count(r.coverage, f) as real, |r.rows| as real);
    }
  }

  /** Coverage is a share of the rows: none is 0, all is 1, and it is told apart from no column. */
  lemma CoverageIsAShare<R(!new)>(r: Loaded<R>, has: (R, Field) -> bool, fields: seq<Field>, m: map<Field, Header>,
                                  f: Field)
    requires Covers(r.coverage, has, fields, r.rows) && f in fields
    ensures CoverageOf(r, m, f).Some? <==> f in m
    ensures f in m ==> 0.0 <= CoverageOf(r, m, f).value <= 1.0
    ensures f in m && r.rows != [] ==>
      && (CoverageOf(r, m, f).value == 1.0 <==> forall i :: 0 <= i < |r.rows| ==> has(r.rows[i], f))
      && (CoverageOf(r, m, f).value == 0.0 <==> forall i :: 0 <= i < |r.rows| ==> !has(r.rows[i], f))
  {
    var c := Count(r.coverage, f);
    assert c == Carrying(has, r.rows, f, |r.rows|);
    CarryingAllOrNone(has, r.rows, f, |r.rows|);
    if r.rows != [] {
      Share(c, |r.rows|);
    }
  }

  lemma Share(c: nat, n: nat)
    requires c <= n && n > 0
    ensures 0.0 <= c as real / n as real <= 1.0
    ensures c as real / n as real == 1.0 <==> c == n
    ensures c as real / n as real == 0.0 <==> c == 0
  {
    Part(c as real, n as real);
  }

  lemma Part(x: real, d: real)
    requires 0.0 <= x <= d && d > 0.0
    ensures 0.0 <= x / d <= 1.0 && (x / d == 1.0 <==> x == d) && (x / d == 0.0 <==> x == 0.0)
  {
    var q := x / d;
    Undivided(x, d);
    SignOfProduct(q, d);
    SignOfProduct(1.0 - q, d);
  }

  lemma Undivided(x: real, d: real)
    requires d > 0.0
    ensures x / d * d == x && (1.0 - x / d) * d == d - x
  {
  }

  lemma SignOfProduct(a: real, d: real)
    requires d > 0.0
    ensures a * d >= 0.0 <==> a >= 0.0
    ensures a * d == 0.0 <==> a == 0.0
  {
  }

  function Usable<R>(l: Option<Loaded<R>>): nat {
    if l.Some? then |l.value.rows| else 0
  }

  function TotalOf<R>(l: Option<Loaded<R>>): nat {
    if l.Some? then l.value.total else 0
  }

  predicate NoIssues<R>(l: Option<Loaded<R>>) {
    l.Some? ==> |l.value.issues| == 0
  }

  predicate Accounted<R>(l: Option<Loaded<R>>) {
    l.Some? ==> |l.value.rows| + |l.value.issues| == l.value.total
  }

  /** Data completeness before it is rounded; None when no rows were read. */
  function Completeness<A, B>(activity: Option<Loaded<A>>, invoices: Option<Loaded<B>>): Option<real> {
    var total, usable := TotalOf(activity) + TotalOf(invoices), Usable(activity) + Usable(invoices);
    if total == 0 then None else Some(100.0 * usable as real / total as real)
  }

  /** Completeness is 100 exactly when neither file has an issue. */
  lemma CompleteIff<A, B>(activity: Option<Loaded<A>>, invoices: Option<Loaded<B>>)
    requires Accounted(activity) && Accounted(invoices) && Completeness(activity, invoices).Some?
    ensures 0.0 <= Completeness(activity, invoices).value <= 100.0
    ensures Completeness(activity, invoices).value == 100.0 <==> NoIssues(activity) && NoIssues(invoices)
  {
    var total, usable := TotalOf(activity) + TotalOf(invoices), Usable(activity) + Usable(invoices);
    Share(usable, total);
    PerCent(usable as real, total as real);
  }

  /** And in between it is the rows that parsed, of both files, in per cent of all that were read. */
  lemma CompletenessIsTheShare<A, B>(activity: Option<Loaded<A>>, invoices: Option<Loaded<B>>)
    ensures var read := (if activity.Some? then activity.value.total else 0) +
                        (if invoices.Some? then invoices.value.total else 0);
      var parsed := (if activity.Some? then |activity.value.rows| else 0) +
                    (if invoices.Some? then |invoices.value.rows| else 0);
      && (Completeness(activity, invoices).None? <==> read == 0)
      && (read > 0 ==> Completeness(activity, invoices).value * (read as real) == 100.0 * parsed as real)
  {
    var total, usable := TotalOf(activity) + TotalOf(invoices), Usable(activity) + Usable(invoices);
    if total > 0 {
      Undivided(100.0 * usable as real, total as real);
    }
  }

  lemma PerCent(x: real, d: real)
    requires d > 0.0
    ensures 100.0 * x / d == 100.0 * (x / d)
  {
    var p, q := 100.0 * x / d, x / d;
    Undivided(x, d);
    Undivided(100.0 * x, d);
    assert (p - 100.0 * q) * d == p * d - 100.0 * (q * d) == 0.0;
    SignOfProduct(p - 100.0 * q, d);
  }

  lemma RowHasMapped(p: Parsers, m: map<Field, Header>, raw: Line, line: nat, f: Field)
    requires f !in m
    ensures ReadActivity(p, m, raw, line).Row? ==> !ActivityHas(ReadActivity(p, m, raw, line).row, f)
    ensures ReadInvoice(p, m, raw, line).Row? ==> !InvoiceHas(ReadInvoice(p, m, raw, line).row, f)
  {
    assert Get(m, raw, f).None?;
  }

  lemma {:induction false} NoneHas<R(!new)>(read: (Line, nat) -> Reading<R>, has: (R, Field) -> bool, raws: seq<Line>,
                                            n: nat, f: Field)
    requires n <= |raws| && forall raw, line: nat :: read(raw, line).Row? ==> !has(read(raw, line).row, f)
    ensures Carrying(has, RowsUpTo(read, raws, n), f, |RowsUpTo(read, raws, n)|) == 0
  {
    if n > 0 {
      NoneHas(read, has, raws, n - 1, f);
      var before, last := RowsUpTo(read, raws, n - 1), read(raws[n - 1], n + 1);
      match last {
        case Row(row) =>
          assert !has(last.row, f);
          CarryingByPrefix(has, before, before + [row], f, |before|);
        case _ =>
          assert before + [] == before;
      }
    }
  }

  /** A field with no column is carried by no row of either export. */
  lemma UnmappedIsEmpty(p: Parsers, m: map<Field, Header>, f: Field, activity: seq<Line>, a: Loaded<ActivityRow>,
                        invoices: seq<Line>, i: Loaded<InvoiceRow>)
    requires LoadedFrom(a, activity, ActivityReader(p, m), ActivityHas, ACTIVITY_FIELDS)
    requires LoadedFrom(i, invoices, InvoiceReader(p, m), InvoiceHas, INVOICE_FIELDS)
    requires f !in m
    ensures Count(a.coverage, f) == 0 && Count(i.coverage, f) == 0
  {
    forall raw, line: nat
      ensures ActivityReader(p, m)(raw, line).Row? ==> !ActivityHas(ActivityReader(p, m)(raw, line).row, f)
      ensures InvoiceReader(p, m)(raw, line).Row? ==> !InvoiceHas(InvoiceReader(p, m)(raw, line).row, f)
    {
      RowHasMapped(p, m, raw, line, f);
    }
    NoneHas(ActivityReader(p, m), ActivityHas, activity, |activity|, f);
    NoneHas(InvoiceReader(p, m), InvoiceHas, invoices, |invoices|, f);
    assert Count(a.coverage, f) == if f in ACTIVITY_FIELDS then Carrying(ActivityHas, a.rows, f, |a.rows|) else 0;
    assert Count(i.coverage, f) == if f in INVOICE_FIELDS then Carrying(InvoiceHas, i.rows, f, |i.rows|) else 0;
  }

  // ---------------------------------------------------------------- shifts

  /** A clock time carries no offset and lands on the placeholder day, which begins at `day`. */
  ghost predicate ClockDay(p: Parsers, day: int, text: string)
    requires p.timestamp(text).Some?
  {
    var t := p.timestamp(text).value;
    p.timeOnly(text) ==> t.offset.None? && day <= t.wall < day + DAY
  }

  /** As loaded, the shift lasts from nothing to under a day. */
  predicate LastsUnderADay(p: Parsers, start: string, end: string)
    requires p.timestamp(start).Some? && p.timestamp(end).Some?
  {
    match ShiftEnd(p, p.timestamp(start), Some(end))
    case Ok(Some(e)) => 0 <= e.At() - p.timestamp(start).value.At() < DAY
    case _ => false
  }

  /** Wherever the dates lie: two clock times last under a day, and other times do where they compare and are that
      close as they stand, or, before a clock end, less than a day apart either way. */
  lemma LastsWhereverDatesLie(p: Parsers, day: int, start: string, end: string)
    requires p.timestamp(start).Some? && p.timestamp(end).Some?
    requires ClockDay(p, day, start) && ClockDay(p, day, end)
    ensures LastsUnderADay(p, start, end) <==>
      var s, e := p.timestamp(start).value, p.timestamp(end).value;
      || (p.timeOnly(start) && p.timeOnly(end))
      || (Comparable(s, e) && (if p.timeOnly(end) then -DAY else 0) <= e.At() - s.At() < DAY)
  {
  }

  /** No part of the day before the placeholder day, of that day or of the next. */
  ghost predicate FarFrom(t: Time, day: int) {
    t.wall < day - DAY || day + 2 * DAY <= t.wall
  }

  /** A shift written as two clock times lasts under a day, over midnight or not. With a date on one end only, away
      from the placeholder day, it never does: with an offset on that end the load is lost, and without, the shift
      ends that long after its start, or before it. */
  lemma LastsUnderADayIff(p: Parsers, day: int, start: string, end: string)
    requires p.timestamp(start).Some? && p.timestamp(end).Some?
    requires ClockDay(p, day, start) && ClockDay(p, day, end)
    requires p.timeOnly(start) != p.timeOnly(end) ==>
      FarFrom(p.timestamp(if p.timeOnly(start) then end else start).value, day)
    ensures LastsUnderADay(p, start, end) <==>
      var s, e := p.timestamp(start).value, p.timestamp(end).value;
      if p.timeOnly(start) then p.timeOnly(end)
      else !p.timeOnly(end) && Comparable(s, e) && 0 <= e.At() - s.At() < DAY
  {
    LastsWhereverDatesLie(p, day, start, end);
  }
}
