/** app/api/client_routes.py: a delivery manifest uploaded, sent on in bounded batches, and reported
    against its own lines.

    What ingestion makes of each row is the world's business: `world(k)` is the outcome of the k-th row
    the upload submits, whatever it may be. */
module ManifestUpload {
  import opened Wrappers

  const MAX_BATCH_ROWS: nat := 25

  type Deadline = string

  datatype Row = Row(line: int, deadline: Option<Deadline>, address: string)

  datatype ParseError = ParseError(line: int, message: string)

  /** One row through ingestion: an order, an error reported on its row, or an unknown pickup shop,
      which ends the whole upload. */
  datatype Outcome = Placed(order: string) | Refused(error: string) | ShopNotFound

  datatype BatchResult = BatchResult(index: nat, outcome: Outcome)

  datatype RowResult = RowResult(line: int, address: Option<string>, outcome: Outcome)

  /** One call to `submit_orders_batch`. */
  datatype Call = Call(deadline: Deadline, rows: seq<Row>)

  datatype Report = Report(accepted: nat, failed: nat, results: seq<RowResult>)

  function DeadlineOf(row: Row, default: Deadline): Deadline {
    if row.deadline.Some? then row.deadline.value else default
  }

  // ---------------------------------------------------------------- what is to be submitted

  function GroupOf(rows: seq<Row>, default: Deadline, d: Deadline): seq<Row> {
    if rows == [] then []
    else
      GroupOf(rows[..|rows| - 1], default, d) +
      if DeadlineOf(rows[|rows| - 1], default) == d then [rows[|rows| - 1]] else []
  }

  /** The deadlines, in order of first appearance. */
  function Deadlines(rows: seq<Row>, default: Deadline): seq<Deadline> {
    if rows == [] then []
    else
      var before, d := Deadlines(rows[..|rows| - 1], default), DeadlineOf(rows[|rows| - 1], default);
      if d in before then before else before + [d]
  }

  function Chunked(d: Deadline, rows: seq<Row>): seq<Call> {
    if rows == [] then []
    else if |rows| <= MAX_BATCH_ROWS then [Call(d, rows)]
    else [Call(d, rows[..MAX_BATCH_ROWS])] + Chunked(d, rows[MAX_BATCH_ROWS..])
  }

  function PlanFor(rows: seq<Row>, default: Deadline, ds: seq<Deadline>): seq<Call> {
    if ds == [] then []
    else PlanFor(rows, default, ds[..|ds| - 1]) + Chunked(ds[|ds| - 1], GroupOf(rows, default, ds[|ds| - 1]))
  }

  function Plan(rows: seq<Row>, default: Deadline): seq<Call> {
    PlanFor(rows, default, Deadlines(rows, default))
  }

  function Submitted(calls: seq<Call>): seq<Row> {
    if calls == [] then [] else Submitted(calls[..|calls| - 1]) + calls[|calls| - 1].rows
  }

  // ---------------------------------------------------------------- what is reported

  function ErrorResults(errors: seq<ParseError>): seq<RowResult> {
    if errors == [] then []
    else ErrorResults(errors[..|errors| - 1]) +
         [RowResult(errors[|errors| - 1].line, None, Refused(errors[|errors| - 1].message))]
  }

  /** A result for each row submitted, under that row's own line. */
  function RowResults(rows: seq<Row>, world: nat -> Outcome): (r: seq<RowResult>)
    ensures |r| == |rows|
    ensures forall k :: 0 <= k < |rows| ==> r[k] == RowResult(rows[k].line, Some(rows[k].address), world(k))
  {
    seq(|rows|, k requires 0 <= k < |rows| => RowResult(rows[k].line, Some(rows[k].address), world(k)))
  }

  function Insert(results: seq<RowResult>, r: RowResult): seq<RowResult> {
    if results != [] && results[|results| - 1].line > r.line
    then Insert(results[..|results| - 1], r) + [results[|results| - 1]]
    else results + [r]
  }

  /** `results.sort(key=line)`, which is stable. */
  function SortByLine(results: seq<RowResult>): seq<RowResult> {
    if results == [] then [] else Insert(SortByLine(results[..|results| - 1]), results[|results| - 1])
  }

  function Accepted(results: seq<RowResult>): nat {
    if results == [] then 0
    else Accepted(results[..|results| - 1]) + if results[|results| - 1].outcome.Placed? then 1 else 0
  }

  /** None of the submitted rows from `a` up to `b` found the shop missing. */
  predicate ShopFound(world: nat -> Outcome, a: nat, b: nat) {
    forall k :: a <= k < b ==> !world(k).ShopNotFound?
  }

  // ---------------------------------------------------------------- the loops

  /** The loop of `submit_orders_batch`, after `before` rows of earlier batches. */
  method SubmitBatch(rows: seq<Row>, before: nat, world: nat -> Outcome) returns (results: Option<seq<BatchResult>>)
    ensures results.Some? <==> ShopFound(world, before, before + |rows|)
    ensures results.Some? ==> BatchOf(results.value, |rows|, before, world)
  {
    var done: seq<BatchResult> := [];
    for i := 0 to |rows|
      invariant BatchOf(done, i, before, world) && ShopFound(world, before, before + i)
    {
      var outcome := world(before + i);
      if outcome.ShopNotFound? {
        return None;
      }
      done := done + [BatchResult(i, outcome)];
    }
    return Some(done);
  }

  ghost predicate BatchOf(batch: seq<BatchResult>, n: nat, before: nat, world: nat -> Outcome) {
    |batch| == n && forall k :: 0 <= k < n ==> batch[k] == BatchResult(k, world(before + k))
  }

  /** Back from a batch's own numbering to the file's lines. */
  method AddLines(results: seq<RowResult>, chunk: seq<Row>, batch: seq<BatchResult>) returns (r: seq<RowResult>)
    requires |batch| == |chunk| && forall k :: 0 <= k < |batch| ==> batch[k].index == k
    ensures r == results + Lines(chunk, batch)
  {
    r := results;
    for k := 0 to |batch|
      invariant r == results + Lines(chunk, batch)[..k]
    {
      var source := chunk[batch[k].index];
      r := r + [RowResult(source.line, Some(source.address), batch[k].outcome)];
    }
  }

  function Lines(chunk: seq<Row>, batch: seq<BatchResult>): (r: seq<RowResult>)
    requires |batch| == |chunk|
    ensures |r| == |chunk|
    ensures forall k :: 0 <= k < |chunk| ==> r[k] == RowResult(chunk[k].line, Some(chunk[k].address), batch[k].outcome)
  {
    seq(|chunk|, k requires 0 <= k < |chunk| => RowResult(chunk[k].line, Some(chunk[k].address), batch[k].outcome))
  }

  lemma LinesOfChunk(before: seq<Row>, chunk: seq<Row>, batch: seq<BatchResult>, world: nat -> Outcome)
    requires BatchOf(batch, |chunk|, |before|, world)
    ensures RowResults(before + chunk, world) == RowResults(before, world) + Lines(chunk, batch)
  {
  }

  /** What is left of a group from `offset`, and the slice that is its next chunk: past the end, as
      Python slices, there is nothing. */
  function From(group: seq<Row>, offset: nat): seq<Row> {
    if offset < |group| then group[offset..] else []
  }

  function ChunkAt(group: seq<Row>, offset: nat): seq<Row> {
    if offset + MAX_BATCH_ROWS < |group| then group[offset..offset + MAX_BATCH_ROWS] else From(group, offset)
  }

  lemma NextChunk(d: Deadline, group: seq<Row>, offset: nat)
    requires offset < |group|
    ensures Chunked(d, From(group, offset)) ==
            [Call(d, ChunkAt(group, offset))] + Chunked(d, From(group, offset + MAX_BATCH_ROWS))
  {
    var rest := group[offset..];
    if offset + MAX_BATCH_ROWS < |group| {
      assert rest[..MAX_BATCH_ROWS] == group[offset..offset + MAX_BATCH_ROWS];
      assert rest[MAX_BATCH_ROWS..] == group[offset + MAX_BATCH_ROWS..];
    }
  }

  /** What one more call adds. */
  lemma OneMoreCall(calls: seq<Call>, call: Call)
    ensures (calls + [call])[..|calls|] == calls
    ensures Submitted(calls + [call]) == Submitted(calls) + call.rows
  {
    assert (calls + [call])[..|calls|] == calls;
  }

  lemma {:induction false} PlanGrows(rows: seq<Row>, default: Deadline, ds: seq<Deadline>, i: nat)
    requires i <= |ds|
    ensures PlanFor(rows, default, ds[..i]) <= PlanFor(rows, default, ds)
  {
    if i < |ds| {
      var init := ds[..|ds| - 1];
      assert init[..i] == ds[..i];
      PlanGrows(rows, default, init, i);
    } else {
      assert ds[..i] == ds;
    }
  }

  lemma {:induction false} AcceptedIsSome(results: seq<RowResult>)
    ensures Accepted(results) <= |results|
  {
    if results != [] {
      AcceptedIsSome(results[..|results| - 1]);
    }
  }

  method GroupByDeadline(rows: seq<Row>, default: Deadline) returns (ds: seq<Deadline>, groups: map<Deadline, seq<Row>>)
    ensures ds == Deadlines(rows, default)
    ensures forall d :: d in groups <==> d in ds
    ensures forall d :: d in groups ==> groups[d] == GroupOf(rows, default, d)
  {
    ds, groups := [], map[];
    for i := 0 to |rows|
      invariant ds == Deadlines(rows[..i], default)
      invariant forall d :: d in groups <==> d in ds
      invariant forall d :: d in groups ==> groups[d] == GroupOf(rows[..i], default, d)
      invariant forall d :: d !in groups ==> GroupOf(rows[..i], default, d) == []
    {
      assert rows[..i + 1][..i] == rows[..i];
      var d := DeadlineOf(rows[i], default);
      if d !in groups {
        ds := ds + [d];
        groups := groups[d := []];
      }
      groups := groups[d := groups[d] + [rows[i]]];
    }
    assert rows[..|rows|] == rows;
  }

  /** The results so far: those parsed, then one for each row sent. */
  ghost predicate UpToDate(results: seq<RowResult>, parsed: seq<RowResult>, sent: seq<Row>, world: nat -> Outcome) {
    ShopFound(world, 0, |sent|) && results == parsed + RowResults(sent, world)
  }

  /** One chunk, with its results put under the file's lines. */
  method SubmitChunk(chunk: seq<Row>, before: nat, reported: seq<RowResult>, world: nat -> Outcome,
                     ghost parsed: seq<RowResult>, ghost sent: seq<Row>)
    returns (ok: bool, results: seq<RowResult>)
    requires UpToDate(reported, parsed, sent, world) && before == |sent|
    ensures ok <==> ShopFound(world, 0, |sent| + |chunk|)
    ensures ok ==> UpToDate(results, parsed, sent + chunk, world)
  {
    var batch := SubmitBatch(chunk, before, world);
    if batch.None? {
      return false, reported;
    }
    results := AddLines(reported, chunk, batch.value);
    LinesOfChunk(sent, chunk, batch.value, world);
    Regroup(parsed, RowResults(sent, world), Lines(chunk, batch.value));
    ok := true;
  }

  lemma Regroup(a: seq<RowResult>, b: seq<RowResult>, c: seq<RowResult>)
    ensures a + b + c == a + (b + c)
  {
  }

  /** One deadline's rows, in chunks. */
  method SubmitGroup(d: Deadline, group: seq<Row>, sent: seq<Call>, reported: seq<RowResult>, world: nat -> Outcome,
                     ghost parsed: seq<RowResult>)
    returns (ok: bool, calls: seq<Call>, results: seq<RowResult>)
    requires UpToDate(reported, parsed, Submitted(sent), world)
    ensures calls <= sent + Chunked(d, group)
    ensures ok ==> calls == sent + Chunked(d, group) && UpToDate(results, parsed, Submitted(calls), world)
    ensures !ok ==> CutShort(calls, world)
  {
    ok, calls, results := true, sent, reported;
    var offset := 0;
    while offset < |group|
      invariant 0 <= offset && ok
      invariant calls + Chunked(d, From(group, offset)) == sent + Chunked(d, group)
      invariant UpToDate(results, parsed, Submitted(calls), world)
    {
      var call := Call(d, ChunkAt(group, offset));
      NextChunk(d, group, offset);
      assert calls + ([call] + Chunked(d, From(group, offset + MAX_BATCH_ROWS))) ==
             calls + [call] + Chunked(d, From(group, offset + MAX_BATCH_ROWS));
      OneMoreCall(calls, call);
      ok, results := SubmitChunk(call.rows, |Submitted(calls)|, results, world, parsed, Submitted(calls));
      calls := calls + [call];
      if !ok {
        return;
      }
      offset := offset + MAX_BATCH_ROWS;
    }
    assert calls + [] == calls;
  }

  /** The last call met the missing shop, and none before it did. */
  ghost predicate CutShort(calls: seq<Call>, world: nat -> Outcome) {
    calls != [] && ShopFound(world, 0, |Submitted(calls[..|calls| - 1])|) && !ShopFound(world, 0, |Submitted(calls)|)
  }

  lemma PlanStep(rows: seq<Row>, default: Deadline, ds: seq<Deadline>, i: nat)
    requires i < |ds|
    ensures PlanFor(rows, default, ds[..i + 1]) ==
            PlanFor(rows, default, ds[..i]) + Chunked(ds[i], GroupOf(rows, default, ds[i]))
    ensures PlanFor(rows, default, ds[..i + 1]) <= PlanFor(rows, default, ds)
  {
    assert ds[..i + 1][..i] == ds[..i];
    PlanGrows(rows, default, ds, i + 1);
  }

  /** Every deadline's group in turn. */
  method SubmitAll(rows: seq<Row>, default: Deadline, ds: seq<Deadline>, groups: map<Deadline, seq<Row>>,
                   reported: seq<RowResult>, world: nat -> Outcome)
    returns (ok: bool, calls: seq<Call>, results: seq<RowResult>)
    requires forall d :: d in ds ==> d in groups && groups[d] == GroupOf(rows, default, d)
    ensures ok ==> calls == PlanFor(rows, default, ds) && UpToDate(results, reported, Submitted(calls), world)
    ensures !ok ==> calls <= PlanFor(rows, default, ds) && CutShort(calls, world)
  {
    ok, calls, results := true, [], reported;
    assert UpToDate(results, reported, Submitted([]), world) by {
      assert reported + [] == reported;
    }
    for i := 0 to |ds|
      invariant ok
      invariant calls == PlanFor(rows, default, ds[..i])
      invariant UpToDate(results, reported, Submitted(calls), world)
    {
      PlanStep(rows, default, ds, i);
      ok, calls, results := SubmitGroup(ds[i], groups[ds[i]], calls, results, world, reported);
      if !ok {
        return;
      }
    }
    assert ds[..|ds|] == ds;
  }

  /** `upload_order_manifest`, once the file has parsed. The calls it made are returned beside the
      report, or beside the refusal that cut it short. */
  method Upload(rows: seq<Row>, errors: seq<ParseError>, default: Deadline, world: nat -> Outcome)
    returns (report: Option<Report>, calls: seq<Call>)
    ensures forall c :: c in calls ==> Bounded(c, default)
    ensures report.None? ==> calls <= Plan(rows, default) && CutShort(calls, world)
    ensures report.Some? ==> calls == Plan(rows, default) && ShopFound(world, 0, |Submitted(calls)|)
    ensures report.Some? ==> report.value == ReportOf(Parts(rows, errors, default, world))
  {
    var ok, results;
    var ds, groups := GroupByDeadline(rows, default);
    ok, calls, results := SubmitAll(rows, default, ds, groups, ErrorResults(errors), world);
    PlanIsExact(rows, default);
    if !ok {
      return None, calls;
    }
    results := SortByLine(results);
    var accepted := Accepted(results);
    AcceptedIsSome(results);
    return Some(Report(accepted, |results| - accepted, results)), calls;
  }

  function ReportOf(results: seq<RowResult>): Report {
    var sorted := SortByLine(results);
    AcceptedIsSome(sorted);
    Report(Accepted(sorted), |sorted| - Accepted(sorted), sorted)
  }

  // ---------------------------------------------------------------- what is submitted

  /** A row is for its own deadline, or for the default if it has none. */
  predicate IsFor(r: Row, default: Deadline, d: Deadline) {
    r.deadline == Some(d) || (r.deadline.None? && d == default)
  }

  /** A call of one to twenty-five rows, all of its deadline. */
  ghost predicate Bounded(c: Call, default: Deadline) {
    1 <= |c.rows| <= 25 && forall r :: r in c.rows ==> IsFor(r, default, c.deadline)
  }

  /** A group is the rows for its deadline, as they come: it grows by one more such row, and by no other. */
  lemma GroupIs(rows: seq<Row>, r: Row, default: Deadline, d: Deadline)
    ensures GroupOf([], default, d) == []
    ensures GroupOf(rows + [r], default, d) == GroupOf(rows, default, d) + if IsFor(r, default, d) then [r] else []
  {
    assert (rows + [r])[..|rows|] == rows;
  }

  /** Each deadline is some row's, and the deadlines are in the order their first rows come. */
  lemma {:induction false} FirstAppearance(rows: seq<Row>, default: Deadline, i: nat, j: nat) returns (k: nat)
    requires i < j < |Deadlines(rows, default)|
    ensures k < |rows| && IsFor(rows[k], default, Deadlines(rows, default)[i])
    ensures forall l :: 0 <= l <= k ==> !IsFor(rows[l], default, Deadlines(rows, default)[j])
  {
    var init := rows[..|rows| - 1];
    DeadlinesEnumerate(rows, default);
    if j < |Deadlines(init, default)| {
      k := FirstAppearance(init, default, i, j);
    } else {
      k := DeadlineAppears(init, default, i);
      var d := Deadlines(rows, default)[j];
      forall l | 0 <= l <= k ensures !IsFor(rows[l], default, d) {
        assert DeadlineOf(rows[l], default) in Deadlines(init, default) by {
          EveryRowHasItsDeadline(init, default, l);
        }
      }
    }
  }

  lemma {:induction false} DeadlineAppears(rows: seq<Row>, default: Deadline, i: nat) returns (k: nat)
    requires i < |Deadlines(rows, default)|
    ensures k < |rows| && IsFor(rows[k], default, Deadlines(rows, default)[i])
  {
    var init := rows[..|rows| - 1];
    if i < |Deadlines(init, default)| {
      k := DeadlineAppears(init, default, i);
    } else {
      k := |rows| - 1;
    }
  }

  lemma {:induction false} EveryRowHasItsDeadline(rows: seq<Row>, default: Deadline, l: nat)
    requires l < |rows|
    ensures DeadlineOf(rows[l], default) in Deadlines(rows, default)
  {
    if l < |rows| - 1 {
      EveryRowHasItsDeadline(rows[..|rows| - 1], default, l);
    }
  }

  /** No call is made sooner than it need be: all of a deadline's calls but its last are of twenty-five rows. */
  lemma {:induction false} ChunksAreFull(d: Deadline, rows: seq<Row>, i: nat)
    requires i + 1 < |Chunked(d, rows)|
    ensures |Chunked(d, rows)[i].rows| == 25
  {
    if i > 0 {
      ChunksAreFull(d, rows[MAX_BATCH_ROWS..], i - 1);
    }
  }

  lemma {:induction false} ChunksHoldTheGroup(d: Deadline, rows: seq<Row>)
    ensures Submitted(Chunked(d, rows)) == rows
    ensures forall c :: c in Chunked(d, rows) ==>
      c.deadline == d && 1 <= |c.rows| <= MAX_BATCH_ROWS && forall r :: r in c.rows ==> r in rows
  {
    if |rows| > MAX_BATCH_ROWS {
      var first, rest := rows[..MAX_BATCH_ROWS], rows[MAX_BATCH_ROWS..];
      ChunksHoldTheGroup(d, rest);
      SubmittedJoin([Call(d, first)], Chunked(d, rest));
      OneMoreCall([], Call(d, first));
      assert [] + [Call(d, first)] == [Call(d, first)];
      assert rows == first + rest;
    } else if rows != [] {
      OneMoreCall([], Call(d, rows));
      assert [] + [Call(d, rows)] == [Call(d, rows)];
    }
  }

  lemma {:induction false} SubmittedJoin(a: seq<Call>, b: seq<Call>)
    ensures Submitted(a + b) == Submitted(a) + Submitted(b)
  {
    if b == [] {
      assert a + b == a;
    } else {
      assert (a + b)[..|a + b| - 1] == a + b[..|b| - 1];
      SubmittedJoin(a, b[..|b| - 1]);
    }
  }

  lemma {:induction false} GroupJoin(a: seq<Row>, b: seq<Row>, default: Deadline, d: Deadline)
    ensures GroupOf(a + b, default, d) == GroupOf(a, default, d) + GroupOf(b, default, d)
  {
    if b == [] {
      assert a + b == a;
    } else {
      assert (a + b)[..|a + b| - 1] == a + b[..|b| - 1];
      GroupJoin(a, b[..|b| - 1], default, d);
    }
  }

  lemma {:induction false} GroupMembers(rows: seq<Row>, default: Deadline, e: Deadline)
    ensures forall i :: 0 <= i < |GroupOf(rows, default, e)| ==> DeadlineOf(GroupOf(rows, default, e)[i], default) == e
  {
    if rows != [] {
      GroupMembers(rows[..|rows| - 1], default, e);
    }
  }

  /** A group all of one deadline is its own group under that deadline, and empty under another. */
  lemma {:induction false} GroupOfUniform(rows: seq<Row>, default: Deadline, e: Deadline, d: Deadline)
    requires forall i :: 0 <= i < |rows| ==> DeadlineOf(rows[i], default) == e
    ensures GroupOf(rows, default, d) == if d == e then rows else []
  {
    if rows != [] {
      var init, last := rows[..|rows| - 1], rows[|rows| - 1];
      GroupOfUniform(init, default, e, d);
      assert DeadlineOf(last, default) == e && rows == init + [last];
    }
  }

  lemma {:induction false} DeadlinesEnumerate(rows: seq<Row>, default: Deadline)
    ensures forall i, j :: 0 <= i < j < |Deadlines(rows, default)| ==>
      Deadlines(rows, default)[i] != Deadlines(rows, default)[j]
    ensures forall d :: d !in Deadlines(rows, default) ==> GroupOf(rows, default, d) == []
  {
    if rows != [] {
      DeadlinesEnumerate(rows[..|rows| - 1], default);
    }
  }

  lemma {:induction false} PlanForHolds(rows: seq<Row>, default: Deadline, ds: seq<Deadline>, d: Deadline)
    requires forall i, j :: 0 <= i < j < |ds| ==> ds[i] != ds[j]
    ensures GroupOf(Submitted(PlanFor(rows, default, ds)), default, d) ==
            if d in ds then GroupOf(rows, default, d) else []
  {
    if ds != [] {
      var init, e := ds[..|ds| - 1], ds[|ds| - 1];
      var group := GroupOf(rows, default, e);
      assert ds == init + [e];
      PlanForHolds(rows, default, init, d);
      ChunksHoldTheGroup(e, group);
      SubmittedJoin(PlanFor(rows, default, init), Chunked(e, group));
      GroupJoin(Submitted(PlanFor(rows, default, init)), group, default, d);
      GroupMembers(rows, default, e);
      GroupOfUniform(group, default, e, d);
    }
  }

  /** Each call of a plan is of one to twenty-five rows, all for its deadline. */
  lemma {:induction false} PlanIsBounded(rows: seq<Row>, default: Deadline, ds: seq<Deadline>)
    ensures forall c :: c in PlanFor(rows, default, ds) ==> Bounded(c, default)
  {
    if ds != [] {
      PlanIsBounded(rows, default, ds[..|ds| - 1]);
      GroupIsBounded(rows, default, ds[|ds| - 1]);
    }
  }

  lemma GroupIsBounded(rows: seq<Row>, default: Deadline, d: Deadline)
    ensures forall c :: c in Chunked(d, GroupOf(rows, default, d)) ==> Bounded(c, default)
  {
    var group := GroupOf(rows, default, d);
    GroupMembers(rows, default, d);
    ChunksHoldTheGroup(d, group);
    forall c, r | c in Chunked(d, group) && r in c.rows ensures IsFor(r, default, c.deadline) {
      assert r in group;
    }
  }

  lemma {:induction false} CountInGroup(rows: seq<Row>, default: Deadline, x: Row)
    ensures multiset(rows)[x] == multiset(GroupOf(rows, default, DeadlineOf(x, default)))[x]
  {
    if rows != [] {
      var init, last := rows[..|rows| - 1], rows[|rows| - 1];
      CountInGroup(init, default, x);
      assert rows == init + [last];
      assert multiset(rows) == multiset(init) + multiset{last};
      var d := DeadlineOf(x, default);
      assert GroupOf(rows, default, d) == if DeadlineOf(last, default) == d then GroupOf(init, default, d) + [last]
                                          else GroupOf(init, default, d);
    }
  }

  /** Every parsed row is submitted exactly once, in a call of its own or the default deadline of one to
      MAX_BATCH_ROWS rows; and rows of one deadline go in the file's order. */
  lemma PlanIsExact(rows: seq<Row>, default: Deadline)
    ensures multiset(Submitted(Plan(rows, default))) == multiset(rows)
    ensures forall c :: c in Plan(rows, default) ==> Bounded(c, default)
    ensures forall d :: GroupOf(Submitted(Plan(rows, default)), default, d) == GroupOf(rows, default, d)
  {
    DeadlinesEnumerate(rows, default);
    var ds := Deadlines(rows, default);
    forall d ensures GroupOf(Submitted(Plan(rows, default)), default, d) == GroupOf(rows, default, d) {
      PlanForHolds(rows, default, ds, d);
    }
    PlanForHolds(rows, default, ds, default);
    PlanIsBounded(rows, default, ds);
    forall x ensures multiset(Submitted(Plan(rows, default)))[x] == multiset(rows)[x] {
      CountInGroup(rows, default, x);
      CountInGroup(Submitted(Plan(rows, default)), default, x);
    }
  }

  // ---------------------------------------------------------------- what is reported

  ghost predicate SortedByLine(results: seq<RowResult>) {
    forall i, j :: 0 <= i < j < |results| ==> results[i].line <= results[j].line
  }

  lemma {:induction false} InsertAdds(results: seq<RowResult>, r: RowResult)
    ensures |Insert(results, r)| == |results| + 1
    ensures multiset(Insert(results, r)) == multiset(results) + multiset{r}
  {
    if results != [] && results[|results| - 1].line > r.line {
      var init, last := results[..|results| - 1], results[|results| - 1];
      InsertAdds(init, r);
      assert results == init + [last];
    }
  }

  lemma {:induction false} InsertSorts(results: seq<RowResult>, r: RowResult)
    requires SortedByLine(results)
    ensures SortedByLine(Insert(results, r))
    ensures forall i :: 0 <= i < |Insert(results, r)| ==>
      Insert(results, r)[i].line <= r.line ||
        (results != [] && Insert(results, r)[i].line <= results[|results| - 1].line)
  {
    if results != [] && results[|results| - 1].line > r.line {
      InsertSorts(results[..|results| - 1], r);
    }
  }

  lemma {:induction false} SortSorts(results: seq<RowResult>)
    ensures SortedByLine(SortByLine(results))
    ensures |SortByLine(results)| == |results|
    ensures multiset(SortByLine(results)) == multiset(results)
  {
    if results != [] {
      var init, last := results[..|results| - 1], results[|results| - 1];
      SortSorts(init);
      InsertSorts(SortByLine(init), last);
      InsertAdds(SortByLine(init), last);
      assert results == init + [last];
    }
  }

  /** The results of one line, in order. */
  function OfLine(results: seq<RowResult>, line: int): seq<RowResult> {
    if results == [] then []
    else OfLine(results[..|results| - 1], line) +
         if results[|results| - 1].line == line then [results[|results| - 1]] else []
  }

  lemma OfLineIs(results: seq<RowResult>, r: RowResult, line: int)
    ensures OfLine([], line) == []
    ensures OfLine(results + [r], line) == OfLine(results, line) + if r.line == line then [r] else []
  {
    assert (results + [r])[..|results|] == results;
  }

  lemma {:induction false} InsertIsStable(results: seq<RowResult>, r: RowResult, line: int)
    ensures OfLine(Insert(results, r), line) == OfLine(results, line) + if r.line == line then [r] else []
  {
    if results != [] && results[|results| - 1].line > r.line {
      var init, last := results[..|results| - 1], results[|results| - 1];
      InsertIsStable(init, r, line);
      assert (Insert(init, r) + [last])[..|Insert(init, r)|] == Insert(init, r);
    } else {
      assert (results + [r])[..|results|] == results;
    }
  }

  lemma {:induction false} SortIsStable(results: seq<RowResult>, line: int)
    ensures OfLine(SortByLine(results), line) == OfLine(results, line)
  {
    if results != [] {
      SortIsStable(results[..|results| - 1], line);
      InsertIsStable(SortByLine(results[..|results| - 1]), results[|results| - 1], line);
    }
  }

  lemma {:induction false} InsertCounts(results: seq<RowResult>, r: RowResult)
    ensures Accepted(Insert(results, r)) == Accepted(results) + if r.outcome.Placed? then 1 else 0
  {
    if results != [] && results[|results| - 1].line > r.line {
      var init, last := results[..|results| - 1], results[|results| - 1];
      InsertCounts(init, r);
      assert (Insert(init, r) + [last])[..|Insert(init, r)|] == Insert(init, r);
    } else {
      assert (results + [r])[..|results|] == results;
    }
  }

  lemma {:induction false} SortCounts(results: seq<RowResult>)
    ensures Accepted(SortByLine(results)) == Accepted(results)
  {
    if results != [] {
      SortCounts(results[..|results| - 1]);
      InsertCounts(SortByLine(results[..|results| - 1]), results[|results| - 1]);
    }
  }

  lemma {:induction false} AcceptedJoin(a: seq<RowResult>, b: seq<RowResult>)
    ensures Accepted(a + b) == Accepted(a) + Accepted(b)
  {
    if b == [] {
      assert a + b == a;
    } else {
      assert (a + b)[..|a + b| - 1] == a + b[..|b| - 1];
      AcceptedJoin(a, b[..|b| - 1]);
    }
  }

  /** How many of the first `n` rows submitted became orders. */
  function OrdersPlaced(world: nat -> Outcome, n: nat): nat {
    if n == 0 then 0 else OrdersPlaced(world, n - 1) + if world(n - 1).Placed? then 1 else 0
  }

  lemma {:induction false} RowsAccepted(rows: seq<Row>, world: nat -> Outcome)
    ensures Accepted(RowResults(rows, world)) == OrdersPlaced(world, |rows|)
  {
    if rows != [] {
      var init := RowResults(rows[..|rows| - 1], world);
      RowsAccepted(rows[..|rows| - 1], world);
      assert RowResults(rows, world)[..|init|] == init;
    }
  }

  lemma {:induction false} ErrorsAreNotAccepted(errors: seq<ParseError>)
    ensures Accepted(ErrorResults(errors)) == 0
  {
    if errors != [] {
      var init := ErrorResults(errors[..|errors| - 1]);
      ErrorsAreNotAccepted(errors[..|errors| - 1]);
      assert ErrorResults(errors)[..|init|] == init;
    }
  }

  /** What an upload that runs to its end has to report, in the order it learns it. */
  function Parts(rows: seq<Row>, errors: seq<ParseError>, default: Deadline, world: nat -> Outcome): seq<RowResult> {
    ErrorResults(errors) + RowResults(Submitted(Plan(rows, default)), world)
  }

  lemma EveryRowIsSent(rows: seq<Row>, default: Deadline)
    ensures |Submitted(Plan(rows, default))| == |rows|
  {
    PlanIsExact(rows, default);
    var sent := Submitted(Plan(rows, default));
    assert |multiset(sent)| == |sent| && |multiset(rows)| == |rows|;
  }

  lemma {:induction false} ErrorResultAt(errors: seq<ParseError>, k: nat)
    ensures |ErrorResults(errors)| == |errors|
    ensures k < |errors| ==> ErrorResults(errors)[k] == RowResult(errors[k].line, None, Refused(errors[k].message))
  {
    if errors != [] {
      ErrorResultAt(errors[..|errors| - 1], k);
    }
  }

  /** What is to be reported is every parse error, and for the k-th row submitted its own line and
      address with the outcome ingestion gave it. */
  lemma PartsAreComplete(rows: seq<Row>, errors: seq<ParseError>, default: Deadline, world: nat -> Outcome, k: nat)
    ensures |Submitted(Plan(rows, default))| == |rows| && |Parts(rows, errors, default, world)| == |errors| + |rows|
    ensures k < |errors| ==>
      Parts(rows, errors, default, world)[k] == RowResult(errors[k].line, None, Refused(errors[k].message))
    ensures k < |rows| ==>
      var row := Submitted(Plan(rows, default))[k];
      Parts(rows, errors, default, world)[|errors| + k] == RowResult(row.line, Some(row.address), world(k))
  {
    EveryRowIsSent(rows, default);
    ErrorResultAt(errors, k);
  }

  lemma PartsAccepted(rows: seq<Row>, errors: seq<ParseError>, default: Deadline, world: nat -> Outcome)
    ensures Accepted(Parts(rows, errors, default, world)) == OrdersPlaced(world, |rows|)
  {
    EveryRowIsSent(rows, default);
    ErrorsAreNotAccepted(errors);
    AcceptedJoin(ErrorResults(errors), RowResults(Submitted(Plan(rows, default)), world));
    RowsAccepted(Submitted(Plan(rows, default)), world);
  }

  /** The report: those parts, all of them and no other, in line order with ties as they came, and
      counts that add up. */
  lemma ReportIsComplete(rows: seq<Row>, errors: seq<ParseError>, default: Deadline, world: nat -> Outcome)
    ensures var parts := Parts(rows, errors, default, world);
      var report := ReportOf(parts);
      && SortedByLine(report.results)
      && multiset(report.results) == multiset(parts)
      && (forall line :: OfLine(report.results, line) == OfLine(parts, line))
      && |report.results| == |errors| + |rows|
      && report.accepted == OrdersPlaced(world, |rows|)
      && report.accepted + report.failed == |report.results|
  {
    var parts := Parts(rows, errors, default, world);
    PartsAreComplete(rows, errors, default, world, 0);
    PartsAccepted(rows, errors, default, world);
    SortSorts(parts);
    SortCounts(parts);
    forall line ensures OfLine(SortByLine(parts), line) == OfLine(parts, line) {
      SortIsStable(parts, line);
    }
  }
}
