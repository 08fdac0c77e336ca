/** demo/reset.py: clearing the demo hub by walking a foreign-key graph read at run time.

    `Session` is the open transaction. Its methods delete from `rows` in place, one statement at a
    time, and every statement evaluates its nested `SELECT id` text against the rows left at that
    moment. The specification never mentions statements: what a run removes is the LEAST set of rows
    that holds the seeds and is closed under "a row that points at a removed row is removed". */
module CascadeDelete {
  import opened ForeignKeys
  import opened Wrappers

  type Value = string

  /** A missing cell is NULL, which no `IN (...)` matches. */
  datatype Row = Row(table: Table, id: Value, cells: map<Column, Value>)

  /** The SQL text a call carries, nested one level deeper at each level of the recursion. */
  datatype Query =
    | IdsWhere(table: Table, column: Column, value: Value)
    | IdsIn(table: Table, column: Column, ids: Query)

  function Cell(r: Row, c: Column): Option<Value> {
    if c == "id" then Some(r.id) else if c in r.cells then Some(r.cells[c]) else None
  }

  /** The rows of `table` whose `column` is in `ids`. */
  function Matching(db: set<Row>, table: Table, column: Column, ids: set<Value>): set<Row> {
    set r | r in db && r.table == table && Cell(r, column).Some? && Cell(r, column).value in ids
  }

  function Ids(rs: set<Row>): set<Value> {
    set r | r in rs :: r.id
  }

  /** A query's answer against the rows that exist when it is run. */
  function Eval(db: set<Row>, q: Query): set<Value> {
    match q
    case IdsWhere(t, c, v) => Ids(Matching(db, t, c, {v}))
    case IdsIn(t, c, inner) => Ids(Matching(db, t, c, Eval(db, inner)))
  }

  function Tables(q: Query): set<Table> {
    match q
    case IdsWhere(t, _, _) => {t}
    case IdsIn(t, _, inner) => {t} + Tables(inner)
  }

  // ---------------------------------------------------------------- what a run must remove

  /** Row `a` holds a foreign key to row `b`. */
  ghost predicate Refers(s: Schema, a: Row, b: Row) {
    exists e :: e in Children(s, b.table) && e.child == a.table && Cell(a, e.column) == Some(b.id)
  }

  /** No row of `kept` points at a row of `gone`. */
  ghost predicate Detached(s: Schema, kept: set<Row>, gone: set<Row>) {
    forall a, b :: a in kept && b in gone ==> !Refers(s, a, b)
  }

  /** Every row of another table that points into `d` is in `d`. */
  ghost predicate Closed(s: Schema, db: set<Row>, d: set<Row>) {
    forall a, b :: a in db && b in d && a.table != b.table && Refers(s, a, b) ==> a in d
  }

  ghost predicate LeastClosed(s: Schema, db: set<Row>, seeds: set<Row>, d: set<Row>) {
    && seeds <= d <= db
    && Closed(s, db, d)
    && forall d' :: seeds <= d' <= db && Closed(s, db, d') ==> d <= d'
  }

  /** What a committed run promises: `d` is the least set that holds the seeds and every row that
      points into it, through any foreign key at all. */
  ghost predicate Exact(s: Schema, db: set<Row>, seeds: set<Row>, d: set<Row>) {
    && seeds <= d <= db
    && Detached(s, db - d, d)
    && forall d' :: seeds <= d' <= db && Detached(s, db - d', d') ==> d <= d'
  }

  /** The same set, spelt out: `n` references lead from `r` to a seed. */
  ghost predicate LeadsTo(s: Schema, db: set<Row>, seeds: set<Row>, r: Row, n: nat)
    decreases n
  {
    r in db && if n == 0 then r in seeds else exists b :: Refers(s, r, b) && LeadsTo(s, db, seeds, b, n - 1)
  }

  ghost predicate LeadsToSeed(s: Schema, db: set<Row>, seeds: set<Row>, r: Row) {
    exists n: nat :: LeadsTo(s, db, seeds, r, n)
  }

  /** A row points at another of its own table from which references lead to a seed. */
  ghost predicate Entangled(s: Schema, db: set<Row>, seeds: set<Row>) {
    exists a, b :: a in db && b in db && a != b && a.table == b.table && Refers(s, a, b) && LeadsToSeed(s, db, seeds, b)
  }

  /** What the cascades through other tables come to leaves no pointer into it behind. */
  ghost predicate Separable(s: Schema, db: set<Row>, seeds: set<Row>) {
    forall d :: LeastClosed(s, db, seeds, d) ==> Detached(s, db - d, d)
  }

  /** A DELETE's nested query, row by row: its table's rows whose column holds what it looks for, or holds the id of a
      row its inner query selects; a missing cell is held by none, and the column "id" is the row's own. */
  lemma SelectedIff(db: set<Row>, q: Query, r: Row)
    ensures match q
      case IdsWhere(t, c, v) =>
        r in Matching(db, t, c, {v}) <==> r in db && r.table == t && Holds(r, c, v)
      case IdsIn(t, c, inner) =>
        r in Matching(db, t, c, Eval(db, inner)) <==>
        r in db && r.table == t && exists v :: v in Eval(db, inner) && Holds(r, c, v)
    ensures match q
      case IdsWhere(t, c, v) =>
        forall id :: id in Eval(db, q) <==> exists x :: x in Matching(db, t, c, {v}) && x.id == id
      case IdsIn(t, c, inner) =>
        forall id :: id in Eval(db, q) <==> exists x :: x in Matching(db, t, c, Eval(db, inner)) && x.id == id
  {
  }

  predicate Holds(r: Row, c: Column, v: Value) {
    if c == "id" then r.id == v else c in r.cells && r.cells[c] == v
  }

  /** The rows a reset sets out to delete: the driver's routes, the stops on them, and the hub's orders. */
  lemma DemoRowsAre(db: set<Row>, driver: Value, hub: Value, r: Row)
    ensures r in DemoRows(db, driver, hub) <==>
      || (r in db && r.table == "routes" && Holds(r, "driver_id", driver))
      || (r in db && r.table == "orders" && Holds(r, "hub_id", hub))
      || (r in db && r.table == "stops" && exists route :: route in db && OnRoute(r, route, driver))
  {
    if r in StopRows(db, driver) {
      var route :| route in RouteRows(db, driver) && route.id == Cell(r, "route_id").value;
      assert OnRoute(r, route, driver);
    }
    if route :| route in db && OnRoute(r, route, driver) {
      assert route in RouteRows(db, driver) && route.id in Ids(RouteRows(db, driver));
    }
  }

  /** The stop is on that route, which is the driver's. */
  predicate OnRoute(stop: Row, route: Row, driver: Value) {
    route.table == "routes" && Holds(route, "driver_id", driver) && Holds(stop, "route_id", route.id)
  }

  /** `id` is the primary key of every table. */
  ghost predicate KeysUnique(db: set<Row>) {
    forall a, b :: a in db && b in db && a.table == b.table && a.id == b.id ==> a == b
  }

  /** Every foreign key of every row finds its target. */
  ghost predicate Intact(s: Schema, db: set<Row>) {
    forall r, p, e :: r in db && e in Children(s, p) && e.child == r.table && Cell(r, e.column).Some? ==>
      exists b :: b in db && b.table == p && Cell(r, e.column) == Some(b.id)
  }

  ghost function RouteRows(db: set<Row>, driver: Value): set<Row> {
    Matching(db, "routes", "driver_id", {driver})
  }

  ghost function StopRows(db: set<Row>, driver: Value): set<Row> {
    Matching(db, "stops", "route_id", Ids(RouteRows(db, driver)))
  }

  ghost function OrderRows(db: set<Row>, hub: Value): set<Row> {
    Matching(db, "orders", "hub_id", {hub})
  }

  /** The rows `demo.reset` sets out to delete: the driver's routes, their stops, the hub's orders. */
  ghost function DemoRows(db: set<Row>, driver: Value, hub: Value): set<Row> {
    StopRows(db, driver) + RouteRows(db, driver) + OrderRows(db, hub)
  }

  /** No walk from a table that a cascade starts at comes back on itself. */
  ghost predicate Startable(s: Schema) {
    && (!exists p :: Lasso(s, "stops", p))
    && (!exists p :: Lasso(s, "routes", p))
    && (!exists p :: Lasso(s, "orders", p))
  }

  // ---------------------------------------------------------------- lemmas

  /** Removing rows of tables a query does not read leaves its answer alone: the reason the lazily
      evaluated nested queries still select the right rows. */
  lemma {:induction false} EvalIgnoresOtherTables(db: set<Row>, db': set<Row>, q: Query)
    requires forall r: Row :: r.table in Tables(q) ==> (r in db <==> r in db')
    ensures Eval(db, q) == Eval(db', q)
  {
    match q
    case IdsWhere(t, c, v) =>
      assert Matching(db, t, c, {v}) == Matching(db', t, c, {v});
    case IdsIn(t, c, inner) =>
      EvalIgnoresOtherTables(db, db', inner);
      assert Matching(db, t, c, Eval(db, inner)) == Matching(db', t, c, Eval(db', inner));
  }

  /** A query that reads only tables of some rank and above, run after deletions below that rank. */
  lemma UntouchedQuery(db: set<Row>, left: set<Row>, q: Query, rank: map<Table, nat>, least: nat)
    requires left <= db
    requires forall r :: r in db - left ==> RankOf(rank, r.table) < least
    requires forall t :: t in Tables(q) ==> RankOf(rank, t) >= least
    ensures Eval(left, q) == Eval(db, q)
  {
    forall r: Row | r.table in Tables(q) ensures r in left <==> r in db {
      assert r in db && r !in left ==> r in db - left;
    }
    EvalIgnoresOtherTables(left, db, q);
  }

  lemma LeastClosedIsUnique(s: Schema, db: set<Row>, seeds: set<Row>, d: set<Row>, d': set<Row>)
    requires LeastClosed(s, db, seeds, d) && LeastClosed(s, db, seeds, d')
    ensures d == d'
  {
    assert d <= d' && d' <= d;
  }

  /** The rows of other tables that point at a doomed row of `table` through one of `edges`. */
  ghost function PointersThrough(db: set<Row>, table: Table, doomed: set<Row>, edges: seq<Edge>): set<Row> {
    set r, e | r in db && e in edges && r.table == e.child && e.child != table &&
               Cell(r, e.column).Some? && Cell(r, e.column).value in Ids(doomed) :: r
  }

  lemma PointersGrow(db: set<Row>, table: Table, doomed: set<Row>, edges: seq<Edge>, i: nat)
    requires i < |edges|
    ensures PointersThrough(db, table, doomed, edges[..i + 1]) ==
            PointersThrough(db, table, doomed, edges[..i]) +
            if edges[i].child == table then {} else Matching(db, edges[i].child, edges[i].column, Ids(doomed))
  {
    assert edges[..i + 1] == edges[..i] + [edges[i]];
  }

  ghost predicate PointsInto(s: Schema, c: Row, doomed: set<Row>) {
    exists d :: d in doomed && Refers(s, c, d)
  }

  /** Every one of `seeds` does. */
  ghost predicate PointInto(s: Schema, seeds: set<Row>, doomed: set<Row>) {
    forall c :: c in seeds ==> PointsInto(s, c, doomed)
  }

  /** The rows a child's cascade starts from point into the rows it is run for. */
  lemma ChildSeedsPoint(s: Schema, before: set<Row>, table: Table, doomed: set<Row>, child: Table, column: Column)
    requires Edge(child, column) in Children(s, table)
    requires forall r :: r in doomed ==> r.table == table
    ensures PointInto(s, Matching(before, child, column, Ids(doomed)), doomed)
  {
    forall c | c in Matching(before, child, column, Ids(doomed)) ensures PointsInto(s, c, doomed) {
      var d :| d in doomed && Cell(c, column) == Some(d.id);
      var e := Edge(child, column);
      assert e in Children(s, d.table) && Refers(s, c, d);
    }
  }

  lemma CommittedCascadeIsExact(s: Schema, db: set<Row>, seeds: set<Row>, d: set<Row>)
    requires LeastClosed(s, db, seeds, d) && Detached(s, db - d, d)
    ensures Exact(s, db, seeds, d)
  {
    forall d' | seeds <= d' <= db && Detached(s, db - d', d') ensures d <= d' {
      forall a, b | a in db && b in d' && Refers(s, a, b) ensures a in d' {
        assert a in d' || a in db - d';
      }
      assert Closed(s, db, d');
    }
  }

  /** A run removes a row exactly when some chain of references leads from it to a seed. */
  lemma ExactMeansLeadsToASeed(s: Schema, db: set<Row>, seeds: set<Row>, d: set<Row>)
    requires Exact(s, db, seeds, d)
    ensures forall r :: r in d <==> LeadsToSeed(s, db, seeds, r)
  {
    var chained := set r | r in d && LeadsToSeed(s, db, seeds, r);
    forall r | r in seeds ensures r in chained {
      assert LeadsTo(s, db, seeds, r, 0);
    }
    forall a, b | a in db - chained && b in chained ensures !Refers(s, a, b) {
      if a in d && Refers(s, a, b) {
        var n: nat :| LeadsTo(s, db, seeds, b, n);
        assert LeadsTo(s, db, seeds, a, n + 1);
      }
    }
    assert d <= chained;
    forall r | LeadsToSeed(s, db, seeds, r) ensures r in d {
      var n: nat :| LeadsTo(s, db, seeds, r, n);
      ChainsStayInside(s, db, seeds, d, r, n);
    }
  }

  lemma {:induction false} ChainsStayInside(s: Schema, db: set<Row>, seeds: set<Row>, d: set<Row>, r: Row, n: nat)
    requires seeds <= d <= db && Detached(s, db - d, d)
    requires LeadsTo(s, db, seeds, r, n)
    ensures r in d
    decreases n
  {
    if n > 0 {
      var b :| Refers(s, r, b) && LeadsTo(s, db, seeds, b, n - 1);
      ChainsStayInside(s, db, seeds, d, b, n - 1);
      assert r in d || r in db - d;
    }
  }

  /** A cascade the database accepts leaves no foreign key dangling. */
  lemma ExactKeepsIntact(s: Schema, db: set<Row>, seeds: set<Row>, d: set<Row>)
    requires Exact(s, db, seeds, d) && Intact(s, db)
    ensures Intact(s, db - d)
  {
    forall r, p, e | r in db - d && e in Children(s, p) && e.child == r.table && Cell(r, e.column).Some?
      ensures exists b :: b in db - d && b.table == p && Cell(r, e.column) == Some(b.id)
    {
      var b :| b in db && b.table == p && Cell(r, e.column) == Some(b.id);
      assert Refers(s, r, b);
      assert b in db - d;
    }
  }

  /** `WHERE id IN (SELECT id ...)` on the same table is the inner condition, ids being unique. */
  lemma SelectedById(db: set<Row>, table: Table, column: Column, values: set<Value>)
    requires KeysUnique(db)
    ensures Matching(db, table, "id", Ids(Matching(db, table, column, values))) == Matching(db, table, column, values)
  {
  }

  // ---------------------------------------------------------------- the order of the statements

  /** The rows each DELETE statement of a cascade selects, statement by statement, all read from the rows the
      cascade began with: for each child in the order the keys are listed its own cascade, then the rows
      themselves. */
  ghost function Plan(s: Schema, db: set<Row>, table: Table, doomed: set<Row>): seq<set<Row>>
    requires EventuallyReturns(s, table)
    decreases RankOf(DepthRank(s), table), |Children(s, table)| + 1
  {
    PlanUpTo(s, db, table, doomed, |Children(s, table)|) + [doomed]
  }

  /** The cascades of the first `n` children. */
  ghost function PlanUpTo(s: Schema, db: set<Row>, table: Table, doomed: set<Row>, n: nat): seq<set<Row>>
    requires EventuallyReturns(s, table) && n <= |Children(s, table)|
    decreases RankOf(DepthRank(s), table), n
  {
    if n == 0 then []
    else PlanUpTo(s, db, table, doomed, n - 1) + ChildPlan(s, db, table, doomed, n - 1)
  }

  ghost function ChildPlan(s: Schema, db: set<Row>, table: Table, doomed: set<Row>, i: nat): seq<set<Row>>
    requires EventuallyReturns(s, table) && i < |Children(s, table)|
    decreases RankOf(DepthRank(s), table), i
  {
    var e := Children(s, table)[i];
    if e.child == table then []
    else
      ReturningIsRanked(s);
      Plan(s, db, e.child, Matching(db, e.child, e.column, Ids(doomed)))
  }

  /** What `_delete_tree` loops over: the tables, the text that selects each one's rows, and what they are. */
  const TREE: seq<Table> := ["stops", "routes", "orders"]

  function TreeQueries(driver: Value, hub: Value): seq<Query> {
    var routes := IdsWhere("routes", "driver_id", driver);
    [IdsIn("stops", "route_id", routes), routes, IdsWhere("orders", "hub_id", hub)]
  }

  ghost function TreeRows(db: set<Row>, driver: Value, hub: Value): seq<set<Row>> {
    [StopRows(db, driver), RouteRows(db, driver), OrderRows(db, hub)]
  }

  /** The statements of the first `k` of a reset's three cascades. */
  ghost function TreePlan(s: Schema, db: set<Row>, driver: Value, hub: Value, k: nat): seq<set<Row>>
    requires Startable(s) && k <= 3
  {
    if k == 0 then []
    else
      StartsReturn(s);
      TreePlan(s, db, driver, hub, k - 1) + Plan(s, db, TREE[k - 1], TreeRows(db, driver, hub)[k - 1])
  }

  /** The number of the first statement that selects a row; the number of statements if none does. */
  ghost function Turn(plan: seq<set<Row>>, r: Row): (n: nat)
    ensures n <= |plan|
  {
    if plan == [] || r in plan[0] then 0 else 1 + Turn(plan[1..], r)
  }

  /** The rows some statement selects. */
  ghost function Planned(db: set<Row>, plan: seq<set<Row>>): set<Row> {
    set r | r in db && Turn(plan, r) < |plan|
  }

  /** No row goes before a row of its own table that points at it. */
  ghost predicate InOrder(s: Schema, db: set<Row>, plan: seq<set<Row>>) {
    forall a, b :: a in db && b in db && a.table == b.table && Refers(s, a, b) ==> Turn(plan, a) <= Turn(plan, b)
  }

  /** No row goes before a row of another table that points at it. */
  ghost predicate OthersFirst(s: Schema, db: set<Row>, plan: seq<set<Row>>) {
    forall a, b :: a in db && b in db && a.table != b.table && Refers(s, a, b) ==> Turn(plan, a) <= Turn(plan, b)
  }

  /** Statement after statement, the database accepts them all. */
  ghost predicate Accepted(s: Schema, db: set<Row>, plan: seq<set<Row>>) {
    plan == [] || (Detached(s, db - plan[0], db * plan[0]) && Accepted(s, db - plan[0], plan[1..]))
  }

  ghost function After(db: set<Row>, plan: seq<set<Row>>): set<Row> {
    if plan == [] then db else After(db - plan[0], plan[1..])
  }

  lemma {:induction false} TurnJoin(p: seq<set<Row>>, q: seq<set<Row>>, r: Row)
    ensures Turn(p + q, r) == if Turn(p, r) < |p| then Turn(p, r) else |p| + Turn(q, r)
  {
    if p == [] {
      assert p + q == q;
    } else {
      assert (p + q)[1..] == p[1..] + q;
      TurnJoin(p[1..], q, r);
    }
  }

  lemma {:induction false} AcceptedJoin(s: Schema, db: set<Row>, p: seq<set<Row>>, q: seq<set<Row>>)
    ensures Accepted(s, db, p + q) <==> Accepted(s, db, p) && Accepted(s, After(db, p), q)
    ensures After(db, p + q) == After(After(db, p), q)
    decreases |p|
  {
    if p == [] {
      assert p + q == q;
    } else {
      assert (p + q)[1..] == p[1..] + q;
      AcceptedJoin(s, db - p[0], p[1..], q);
    }
  }

  /** The statements are all accepted exactly when no row goes before one that points at it. */
  lemma {:induction false} AcceptedIff(s: Schema, db: set<Row>, plan: seq<set<Row>>)
    ensures Accepted(s, db, plan) <==> InOrder(s, db, plan) && OthersFirst(s, db, plan)
    decreases |plan|
  {
    if plan != [] {
      var left := db - plan[0];
      AcceptedIff(s, left, plan[1..]);
      if Accepted(s, db, plan) {
        forall a, b | a in db && b in db && Refers(s, a, b) ensures Turn(plan, a) <= Turn(plan, b) {
          assert b in plan[0] ==> b in db * plan[0];
          assert a !in plan[0] ==> a in left;
        }
      }
      if InOrder(s, db, plan) && OthersFirst(s, db, plan) {
        forall a, b | a in left && b in db * plan[0] ensures !Refers(s, a, b) {
          assert Turn(plan, b) == 0 && Turn(plan, a) > 0;
        }
        forall a, b | a in left && b in left && Refers(s, a, b) ensures Turn(plan[1..], a) <= Turn(plan[1..], b) {
          assert Turn(plan, a) <= Turn(plan, b);
        }
      }
    }
  }

  lemma {:induction false} AfterIsUnplanned(db: set<Row>, plan: seq<set<Row>>)
    ensures After(db, plan) == db - Planned(db, plan)
    decreases |plan|
  {
    if plan != [] {
      AfterIsUnplanned(db - plan[0], plan[1..]);
    }
  }

  // ---------------------------------------------------------------- what a plan holds

  lemma OthersFirstJoin(s: Schema, db: set<Row>, p: seq<set<Row>>, q: seq<set<Row>>)
    requires OthersFirst(s, db, p) && OthersFirst(s, db, q)
    ensures OthersFirst(s, db, p + q)
  {
    forall a, b | a in db && b in db && a.table != b.table && Refers(s, a, b) ensures Turn(p + q, a) <= Turn(p + q, b) {
      TurnJoin(p, q, a);
      TurnJoin(p, q, b);
    }
  }

  lemma {:induction false} ChildPutsOthersFirst(s: Schema, db: set<Row>, table: Table, doomed: set<Row>, i: nat)
    requires EventuallyReturns(s, table) && i < |Children(s, table)|
    ensures OthersFirst(s, db, ChildPlan(s, db, table, doomed, i))
    decreases RankOf(DepthRank(s), table), i
  {
    var e := Children(s, table)[i];
    if e.child != table {
      ReturningIsRanked(s);
      PlanPutsOthersFirst(s, db, e.child, Matching(db, e.child, e.column, Ids(doomed)));
    }
  }

  lemma OwnRowsPlanned(s: Schema, db: set<Row>, table: Table, doomed: set<Row>, a: Row)
    requires EventuallyReturns(s, table) && a in doomed
    ensures Turn(Plan(s, db, table, doomed), a) < |Plan(s, db, table, doomed)|
  {
    TurnJoin(PlanUpTo(s, db, table, doomed, |Children(s, table)|), [doomed], a);
  }

  lemma ChildRowsPlanned(s: Schema, db: set<Row>, table: Table, doomed: set<Row>, i: nat, a: Row)
    requires EventuallyReturns(s, table) && i < |Children(s, table)| && Children(s, table)[i].child != table
    requires a in Matching(db, Children(s, table)[i].child, Children(s, table)[i].column, Ids(doomed))
    ensures Turn(ChildPlan(s, db, table, doomed, i), a) < |ChildPlan(s, db, table, doomed, i)|
  {
    var e := Children(s, table)[i];
    ReturningIsRanked(s);
    OwnRowsPlanned(s, db, e.child, Matching(db, e.child, e.column, Ids(doomed)), a);
  }

  lemma LastPointers(db: set<Row>, table: Table, doomed: set<Row>, edges: seq<Edge>, n: nat, a: Row)
    requires 0 < n <= |edges| && a in PointersThrough(db, table, doomed, edges[..n])
    requires a !in PointersThrough(db, table, doomed, edges[..n - 1])
    ensures edges[n - 1].child != table && a in Matching(db, edges[n - 1].child, edges[n - 1].column, Ids(doomed))
  {
    PointersGrow(db, table, doomed, edges, n - 1);
  }

  /** What points at a doomed row from another table is planned for. */
  lemma {:induction false} PointersPlanned(s: Schema, db: set<Row>, table: Table, doomed: set<Row>, n: nat, a: Row)
    requires EventuallyReturns(s, table) && n <= |Children(s, table)|
    requires a in PointersThrough(db, table, doomed, Children(s, table)[..n])
    ensures Turn(PlanUpTo(s, db, table, doomed, n), a) < |PlanUpTo(s, db, table, doomed, n)|
  {
    if n > 0 {
      TurnJoin(PlanUpTo(s, db, table, doomed, n - 1), ChildPlan(s, db, table, doomed, n - 1), a);
      if a in PointersThrough(db, table, doomed, Children(s, table)[..n - 1]) {
        PointersPlanned(s, db, table, doomed, n - 1, a);
      } else {
        LastPointers(db, table, doomed, Children(s, table), n, a);
        ChildRowsPlanned(s, db, table, doomed, n - 1, a);
      }
    }
  }

  /** In a cascade's plan no row goes before a row of another table that points at it. */
  lemma {:induction false} PlanPutsOthersFirst(s: Schema, db: set<Row>, table: Table, doomed: set<Row>)
    requires EventuallyReturns(s, table) && forall r :: r in doomed ==> r.table == table
    ensures OthersFirst(s, db, Plan(s, db, table, doomed))
    decreases RankOf(DepthRank(s), table), |Children(s, table)| + 1
  {
    var children := PlanUpTo(s, db, table, doomed, |Children(s, table)|);
    UpToPutsOthersFirst(s, db, table, doomed, |Children(s, table)|);
    forall a, b | a in db && b in db && a.table != b.table && Refers(s, a, b)
      ensures Turn(children + [doomed], a) <= Turn(children + [doomed], b)
    {
      TurnJoin(children, [doomed], a);
      TurnJoin(children, [doomed], b);
      if b in doomed {
        var e :| e in Children(s, b.table) && e.child == a.table && Cell(a, e.column) == Some(b.id);
        assert Children(s, table)[..|Children(s, table)|] == Children(s, table);
        assert b.id in Ids(doomed);
        PointersPlanned(s, db, table, doomed, |Children(s, table)|, a);
      }
    }
  }

  lemma {:induction false} UpToPutsOthersFirst(s: Schema, db: set<Row>, table: Table, doomed: set<Row>, n: nat)
    requires EventuallyReturns(s, table) && n <= |Children(s, table)|
    ensures OthersFirst(s, db, PlanUpTo(s, db, table, doomed, n))
    decreases RankOf(DepthRank(s), table), n
  {
    if n > 0 {
      UpToPutsOthersFirst(s, db, table, doomed, n - 1);
      ChildPutsOthersFirst(s, db, table, doomed, n - 1);
      OthersFirstJoin(s, db, PlanUpTo(s, db, table, doomed, n - 1), ChildPlan(s, db, table, doomed, n - 1));
    }
  }

  /** Planned or not, what a cascade's plan selects is the closure of its rows. */
  lemma PlanIsTheClosure(s: Schema, db: set<Row>, table: Table, doomed: set<Row>)
    requires EventuallyReturns(s, table) && doomed <= db && forall r :: r in doomed ==> r.table == table
    ensures LeastClosed(s, db, doomed, Planned(db, Plan(s, db, table, doomed)))
  {
    var plan := Plan(s, db, table, doomed);
    PlanPutsOthersFirst(s, db, table, doomed);
    forall r | r in doomed ensures r in Planned(db, plan) {
      OwnRowsPlanned(s, db, table, doomed, r);
    }
    forall d' | doomed <= d' <= db && Closed(s, db, d') ensures Planned(db, plan) <= d' {
      PlanStaysInside(s, db, table, doomed, d');
      forall r | r in Planned(db, plan) ensures r in d' {
        TurnSelects(plan, r);
      }
    }
  }

  lemma {:induction false} TurnSelects(plan: seq<set<Row>>, r: Row)
    requires Turn(plan, r) < |plan|
    ensures r in plan[Turn(plan, r)]
  {
    if r !in plan[0] {
      TurnSelects(plan[1..], r);
    }
  }

  ghost predicate AllWithin(plan: seq<set<Row>>, d: set<Row>) {
    forall k :: 0 <= k < |plan| ==> plan[k] <= d
  }

  /** A closed set that holds the rows holds all that a cascade's plan selects. */
  lemma {:induction false} PlanStaysInside(s: Schema, db: set<Row>, table: Table, doomed: set<Row>, d: set<Row>)
    requires EventuallyReturns(s, table) && doomed <= d <= db && Closed(s, db, d)
    requires forall r :: r in doomed ==> r.table == table
    ensures AllWithin(Plan(s, db, table, doomed), d)
    decreases RankOf(DepthRank(s), table), |Children(s, table)| + 1
  {
    UpToStaysInside(s, db, table, doomed, d, |Children(s, table)|);
  }

  lemma {:induction false} UpToStaysInside(s: Schema, db: set<Row>, table: Table, doomed: set<Row>, d: set<Row>, n: nat)
    requires EventuallyReturns(s, table) && n <= |Children(s, table)| && doomed <= d <= db && Closed(s, db, d)
    requires forall r :: r in doomed ==> r.table == table
    ensures AllWithin(PlanUpTo(s, db, table, doomed, n), d)
    decreases RankOf(DepthRank(s), table), n
  {
    if n > 0 {
      UpToStaysInside(s, db, table, doomed, d, n - 1);
      var e := Children(s, table)[n - 1];
      if e.child != table {
        ReturningIsRanked(s);
        var seeds := Matching(db, e.child, e.column, Ids(doomed));
        ChildSeedsPoint(s, db, table, doomed, e.child, e.column);
        forall c | c in seeds ensures c in d {
          assert PointsInto(s, c, doomed);
        }
        PlanStaysInside(s, db, e.child, seeds, d);
      }
    }
  }

  lemma PlannedJoin(db: set<Row>, p: seq<set<Row>>, q: seq<set<Row>>)
    ensures Planned(db, p + q) == Planned(db, p) + Planned(db, q)
  {
    forall r ensures r in Planned(db, p + q) <==> r in Planned(db, p) + Planned(db, q) {
      TurnJoin(p, q, r);
    }
  }

  /** The closure of two sets of rows is what closes each. */
  lemma ClosuresJoin(s: Schema, db: set<Row>, s1: set<Row>, d1: set<Row>, s2: set<Row>, d2: set<Row>)
    requires LeastClosed(s, db, s1, d1) && LeastClosed(s, db, s2, d2)
    ensures LeastClosed(s, db, s1 + s2, d1 + d2)
  {
    forall d' | s1 + s2 <= d' <= db && Closed(s, db, d') ensures d1 + d2 <= d' {
      assert s1 <= d' && s2 <= d';
    }
  }

  /** Of a plan for a closure that puts other tables first: whether the database accepts it turns on the rows that
      point at their own table; accepted, it removes the closure and no more; refused, some such row is why. */
  lemma PlanMeans(s: Schema, db: set<Row>, seeds: set<Row>, plan: seq<set<Row>>)
    requires OthersFirst(s, db, plan) && LeastClosed(s, db, seeds, Planned(db, plan))
    ensures Accepted(s, db, plan) <==> InOrder(s, db, plan)
    ensures After(db, plan) == db - Planned(db, plan)
    ensures InOrder(s, db, plan) ==>
      && Detached(s, After(db, plan), Planned(db, plan))
      && Exact(s, db, seeds, Planned(db, plan)) && Separable(s, db, seeds)
    ensures !InOrder(s, db, plan) ==> Entangled(s, db, seeds)
  {
    AcceptedIff(s, db, plan);
    AfterIsUnplanned(db, plan);
    if InOrder(s, db, plan) {
      PlanDetaches(s, db, plan);
      CommittedCascadeIsExact(s, db, seeds, Planned(db, plan));
      forall d | LeastClosed(s, db, seeds, d) ensures Detached(s, db - d, d) {
        LeastClosedIsUnique(s, db, seeds, d, Planned(db, plan));
      }
    } else {
      var a, b :| a in db && b in db && a.table == b.table && Refers(s, a, b) && Turn(plan, a) > Turn(plan, b);
      ClosureLeadsToSeed(s, db, seeds, Planned(db, plan), b);
    }
  }

  lemma PlanDetaches(s: Schema, db: set<Row>, plan: seq<set<Row>>)
    requires InOrder(s, db, plan) && OthersFirst(s, db, plan)
    ensures Detached(s, db - Planned(db, plan), Planned(db, plan))
  {
    forall a, b | a in db - Planned(db, plan) && b in Planned(db, plan) ensures !Refers(s, a, b) {
      assert Turn(plan, b) < Turn(plan, a);
    }
  }

  lemma ClosureLeadsToSeed(s: Schema, db: set<Row>, seeds: set<Row>, d: set<Row>, r: Row)
    requires LeastClosed(s, db, seeds, d) && r in d
    ensures LeadsToSeed(s, db, seeds, r)
  {
    var chained := set b | b in db && LeadsToSeed(s, db, seeds, b);
    forall b | b in seeds ensures b in chained {
      assert LeadsTo(s, db, seeds, b, 0);
    }
    forall a, b | a in db && b in chained && Refers(s, a, b) ensures a in chained {
      var n: nat :| LeadsTo(s, db, seeds, b, n);
      assert LeadsTo(s, db, seeds, a, n + 1);
    }
    assert d <= chained;
  }

  /** One cascade: its closure, and whether the database accepts it. */
  lemma CascadeMeans(s: Schema, db: set<Row>, table: Table, doomed: set<Row>)
    requires EventuallyReturns(s, table) && doomed <= db && forall r :: r in doomed ==> r.table == table
    ensures var plan := Plan(s, db, table, doomed);
      && (Accepted(s, db, plan) <==> InOrder(s, db, plan))
      && After(db, plan) == db - Planned(db, plan)
      && LeastClosed(s, db, doomed, Planned(db, plan))
      && (InOrder(s, db, plan) ==> Detached(s, After(db, plan), Planned(db, plan)))
      && (!InOrder(s, db, plan) ==> Entangled(s, db, doomed))
  {
    PlanPutsOthersFirst(s, db, table, doomed);
    PlanIsTheClosure(s, db, table, doomed);
    PlanMeans(s, db, doomed, Plan(s, db, table, doomed));
  }

  ghost function TreeRowsUpTo(db: set<Row>, driver: Value, hub: Value, k: nat): set<Row>
    requires k <= 3
  {
    if k == 0 then {} else TreeRowsUpTo(db, driver, hub, k - 1) + TreeRows(db, driver, hub)[k - 1]
  }

  /** The cascades together: the closure of every row they set out to delete. */
  lemma {:induction false} TreePlanIsTheClosure(s: Schema, db: set<Row>, driver: Value, hub: Value, k: nat)
    requires Startable(s) && k <= 3
    ensures LeastClosed(s, db, TreeRowsUpTo(db, driver, hub, k), Planned(db, TreePlan(s, db, driver, hub, k)))
    ensures OthersFirst(s, db, TreePlan(s, db, driver, hub, k))
  {
    if k > 0 {
      StartsReturn(s);
      TreePlanIsTheClosure(s, db, driver, hub, k - 1);
      var before, rows := TreePlan(s, db, driver, hub, k - 1), TreeRows(db, driver, hub)[k - 1];
      var next := Plan(s, db, TREE[k - 1], rows);
      PlanIsTheClosure(s, db, TREE[k - 1], rows);
      PlanPutsOthersFirst(s, db, TREE[k - 1], rows);
      ClosuresJoin(s, db, TreeRowsUpTo(db, driver, hub, k - 1), Planned(db, before), rows, Planned(db, next));
      PlannedJoin(db, before, next);
      OthersFirstJoin(s, db, before, next);
    }
  }

  /** Of a reset: whether the database accepts it, and what it comes to. */
  lemma TreePlanMeans(s: Schema, db: set<Row>, driver: Value, hub: Value)
    requires Startable(s)
    ensures var plan, seeds := TreePlan(s, db, driver, hub, 3), DemoRows(db, driver, hub);
      && (Accepted(s, db, plan) <==> InOrder(s, db, plan))
      && (InOrder(s, db, plan) ==> Exact(s, db, seeds, db - After(db, plan)) && Separable(s, db, seeds))
      && (InOrder(s, db, plan) && Intact(s, db) ==> Intact(s, After(db, plan)))
      && (!InOrder(s, db, plan) ==> Entangled(s, db, seeds))
  {
    var plan, seeds := TreePlan(s, db, driver, hub, 3), DemoRows(db, driver, hub);
    TreePlanIsTheClosure(s, db, driver, hub, 3);
    AllTreeRows(db, driver, hub);
    PlanMeans(s, db, seeds, plan);
    assert db - (db - Planned(db, plan)) == Planned(db, plan);
    if InOrder(s, db, plan) && Intact(s, db) {
      ExactKeepsIntact(s, db, seeds, Planned(db, plan));
    }
  }

  lemma AllTreeRows(db: set<Row>, driver: Value, hub: Value)
    ensures TreeRowsUpTo(db, driver, hub, 3) == DemoRows(db, driver, hub)
  {
    assert TreeRowsUpTo(db, driver, hub, 1) == StopRows(db, driver);
    assert TreeRowsUpTo(db, driver, hub, 2) == StopRows(db, driver) + RouteRows(db, driver);
  }

  /** Two plans that come to the same on the rows there are. */
  ghost predicate Agree(db: set<Row>, p: seq<set<Row>>, q: seq<set<Row>>) {
    |p| == |q| && forall k :: 0 <= k < |p| ==> p[k] * db == q[k] * db
  }

  lemma {:induction false} AgreedAlike(s: Schema, db: set<Row>, p: seq<set<Row>>, q: seq<set<Row>>)
    requires Agree(db, p, q)
    ensures Accepted(s, db, p) <==> Accepted(s, db, q)
    ensures After(db, p) == After(db, q)
    decreases |p|
  {
    if p != [] {
      assert db - p[0] == db - p[0] * db == db - q[0] * db == db - q[0];
      assert db * p[0] == p[0] * db == q[0] * db == db * q[0];
      forall k | 0 <= k < |p| - 1 ensures p[1..][k] * (db - p[0]) == q[1..][k] * (db - p[0]) {
        assert p[k + 1] * db == q[k + 1] * db;
        assert p[k + 1] * (db - p[0]) == p[k + 1] * db - p[0];
        assert q[k + 1] * (db - p[0]) == q[k + 1] * db - p[0];
      }
      AgreedAlike(s, db - p[0], p[1..], q[1..]);
    }
  }

  lemma AgreeJoin(db: set<Row>, p: seq<set<Row>>, q: seq<set<Row>>, p': seq<set<Row>>, q': seq<set<Row>>)
    requires Agree(db, p, q) && Agree(db, p', q')
    ensures Agree(db, p + p', q + q')
  {
  }

  /** A cascade planned on the rows that are left, and the same cascade planned on the rows there were. */
  lemma {:induction false} PlanOnTheRest(s: Schema, db: set<Row>, left: set<Row>, table: Table, doomed: set<Row>)
    requires EventuallyReturns(s, table) && left <= db && Detached(s, left, db - left)
    requires doomed <= db && forall r :: r in doomed ==> r.table == table
    ensures Agree(left, Plan(s, left, table, doomed * left), Plan(s, db, table, doomed))
    decreases RankOf(DepthRank(s), table), |Children(s, table)| + 1
  {
    UpToOnTheRest(s, db, left, table, doomed, |Children(s, table)|);
  }

  lemma {:induction false} UpToOnTheRest(s: Schema, db: set<Row>, left: set<Row>, table: Table, doomed: set<Row>,
                                         n: nat)
    requires EventuallyReturns(s, table) && n <= |Children(s, table)| && left <= db && Detached(s, left, db - left)
    requires doomed <= db && forall r :: r in doomed ==> r.table == table
    ensures Agree(left, PlanUpTo(s, left, table, doomed * left, n), PlanUpTo(s, db, table, doomed, n))
    decreases RankOf(DepthRank(s), table), n
  {
    if n > 0 {
      UpToOnTheRest(s, db, left, table, doomed, n - 1);
      ChildOnTheRest(s, db, left, table, doomed, n - 1);
      AgreeJoin(left, PlanUpTo(s, left, table, doomed * left, n - 1), PlanUpTo(s, db, table, doomed, n - 1),
                ChildPlan(s, left, table, doomed * left, n - 1), ChildPlan(s, db, table, doomed, n - 1));
    }
  }

  lemma {:induction false} ChildOnTheRest(s: Schema, db: set<Row>, left: set<Row>, table: Table, doomed: set<Row>,
                                          i: nat)
    requires EventuallyReturns(s, table) && i < |Children(s, table)| && left <= db && Detached(s, left, db - left)
    requires doomed <= db && forall r :: r in doomed ==> r.table == table
    ensures Agree(left, ChildPlan(s, left, table, doomed * left, i), ChildPlan(s, db, table, doomed, i))
    decreases RankOf(DepthRank(s), table), i
  {
    var e := Children(s, table)[i];
    if e.child != table {
      ReturningIsRanked(s);
      MatchingOnTheRest(s, db, left, table, doomed, e);
      PlanOnTheRest(s, db, left, e.child, Matching(db, e.child, e.column, Ids(doomed)));
    }
  }

  /** Who points at the doomed rows that are left is who is left of those that point at a doomed row. */
  lemma MatchingOnTheRest(s: Schema, db: set<Row>, left: set<Row>, table: Table, doomed: set<Row>, e: Edge)
    requires e in Children(s, table) && left <= db && Detached(s, left, db - left)
    requires doomed <= db && forall r :: r in doomed ==> r.table == table
    ensures Matching(left, e.child, e.column, Ids(doomed * left)) == Matching(db, e.child, e.column, Ids(doomed)) * left
  {
    forall r | r in Matching(db, e.child, e.column, Ids(doomed)) * left
      ensures r in Matching(left, e.child, e.column, Ids(doomed * left))
    {
      var d :| d in doomed && Cell(r, e.column) == Some(d.id);
      assert e in Children(s, d.table) && Refers(s, r, d);
      assert d in left;
      assert d in doomed * left;
    }
  }

  /** Once one statement is refused no more of the plan is accepted. */
  lemma {:induction false} RefusedStays(s: Schema, db: set<Row>, table: Table, doomed: set<Row>, i: nat, n: nat)
    requires EventuallyReturns(s, table) && i <= n <= |Children(s, table)|
    requires !Accepted(s, db, PlanUpTo(s, db, table, doomed, i))
    ensures !Accepted(s, db, PlanUpTo(s, db, table, doomed, n))
    decreases n
  {
    if i < n {
      RefusedStays(s, db, table, doomed, i, n - 1);
      AcceptedJoin(s, db, PlanUpTo(s, db, table, doomed, n - 1), ChildPlan(s, db, table, doomed, n - 1));
    }
  }

  /** A cascade run on what the statements before it left is its part of a plan drawn up before any of them. */
  lemma CascadeAsPlanned(s: Schema, db: set<Row>, done: seq<set<Row>>, table: Table, doomed: set<Row>)
    requires EventuallyReturns(s, table) && doomed <= db && forall r :: r in doomed ==> r.table == table
    requires Accepted(s, db, done)
    ensures var left, next := After(db, done), Plan(s, db, table, doomed);
      var run := Plan(s, left, table, doomed * left);
      && (Accepted(s, db, done + next) <==> InOrder(s, left, run))
      && After(db, done + next) == left - Planned(left, run)
  {
    var left, next := After(db, done), Plan(s, db, table, doomed);
    AfterIsUnplanned(db, done);
    AcceptedIff(s, db, done);
    PlanDetaches(s, db, done);
    assert db - left == Planned(db, done);
    PlanOnTheRest(s, db, left, table, doomed);
    AgreedAlike(s, left, Plan(s, left, table, doomed * left), next);
    AcceptedJoin(s, db, done, next);
    CascadeMeans(s, left, table, doomed * left);
  }

  /** A query reads tables no deeper in the recursion than `table`. */
  ghost predicate ReadsAbove(s: Schema, q: Query, table: Table) {
    forall t :: t in Tables(q) ==> RankOf(DepthRank(s), t) >= RankOf(DepthRank(s), table)
  }

  /** How a cascade ends: well, exactly when its statements are in order, and then what they select is gone.
      What that comes to is `CascadeMeans`. */
  ghost predicate CascadeEnds(s: Schema, db: set<Row>, table: Table, doomed: set<Row>, ok: bool, left: set<Row>)
    requires EventuallyReturns(s, table)
  {
    && (ok <==> InOrder(s, db, Plan(s, db, table, doomed)))
    && (ok ==> left == db - Planned(db, Plan(s, db, table, doomed)))
  }

  /** Every row of a plan is of a table of at most that rank. */
  ghost predicate Below(s: Schema, plan: seq<set<Row>>, least: int) {
    forall k, r :: 0 <= k < |plan| && r in plan[k] ==> RankOf(DepthRank(s), r.table) <= least
  }

  lemma {:induction false} PlanIsBelow(s: Schema, db: set<Row>, table: Table, doomed: set<Row>)
    requires EventuallyReturns(s, table) && forall r :: r in doomed ==> r.table == table
    ensures Below(s, Plan(s, db, table, doomed), RankOf(DepthRank(s), table))
    decreases RankOf(DepthRank(s), table), |Children(s, table)| + 1
  {
    UpToIsBelow(s, db, table, doomed, |Children(s, table)|);
  }

  /** The children's cascades touch no table of the parent's rank or above. */
  lemma {:induction false} UpToIsBelow(s: Schema, db: set<Row>, table: Table, doomed: set<Row>, n: nat)
    requires EventuallyReturns(s, table) && n <= |Children(s, table)|
    ensures Below(s, PlanUpTo(s, db, table, doomed, n), RankOf(DepthRank(s), table) - 1)
    decreases RankOf(DepthRank(s), table), n
  {
    if n > 0 {
      UpToIsBelow(s, db, table, doomed, n - 1);
      var e := Children(s, table)[n - 1];
      if e.child != table {
        ReturningIsRanked(s);
        PlanIsBelow(s, db, e.child, Matching(db, e.child, e.column, Ids(doomed)));
      }
    }
  }

  /** So a query of the parent's, run between them, answers as it would have at the start. */
  lemma QueryBeforeChild(s: Schema, db: set<Row>, table: Table, doomed: set<Row>, n: nat, q: Query)
    requires EventuallyReturns(s, table) && n <= |Children(s, table)| && ReadsAbove(s, q, table)
    ensures var left := After(db, PlanUpTo(s, db, table, doomed, n)); left <= db && Eval(left, q) == Eval(db, q)
  {
    var plan := PlanUpTo(s, db, table, doomed, n);
    UpToIsBelow(s, db, table, doomed, n);
    AfterIsUnplanned(db, plan);
    forall r | r in db - After(db, plan) ensures RankOf(DepthRank(s), r.table) < RankOf(DepthRank(s), table) {
      TurnSelects(plan, r);
    }
    UntouchedQuery(db, After(db, plan), q, DepthRank(s), RankOf(DepthRank(s), table));
  }

  /** How the first `n` children's cascades end, run on `db`. */
  ghost predicate ChildrenEnd(s: Schema, db: set<Row>, table: Table, doomed: set<Row>, n: nat, ok: bool, left: set<Row>)
    requires EventuallyReturns(s, table) && n <= |Children(s, table)|
  {
    && (ok <==> Accepted(s, db, PlanUpTo(s, db, table, doomed, n)))
    && (ok ==> left == After(db, PlanUpTo(s, db, table, doomed, n)))
  }

  /** The guard: a table's edge to itself is no statement of the plan. */
  lemma SelfSkipped(s: Schema, db: set<Row>, table: Table, doomed: set<Row>, i: nat, left: set<Row>)
    requires EventuallyReturns(s, table) && i < |Children(s, table)| && Children(s, table)[i].child == table
    requires ChildrenEnd(s, db, table, doomed, i, true, left)
    ensures ChildrenEnd(s, db, table, doomed, i + 1, true, left)
  {
    assert PlanUpTo(s, db, table, doomed, i + 1) == PlanUpTo(s, db, table, doomed, i);
  }

  lemma RefusedEarly(s: Schema, db: set<Row>, table: Table, doomed: set<Row>, i: nat, n: nat, left: set<Row>)
    requires EventuallyReturns(s, table) && i <= n <= |Children(s, table)|
    requires ChildrenEnd(s, db, table, doomed, i, false, left)
    ensures ChildrenEnd(s, db, table, doomed, n, false, left)
  {
    RefusedStays(s, db, table, doomed, i, n);
  }

  /** One more child's cascade, run on what those before it left. */
  lemma ChildEnds(s: Schema, db: set<Row>, before: set<Row>, table: Table, doomed: set<Row>, i: nat, ok: bool,
                  left: set<Row>)
    requires EventuallyReturns(s, table) && i < |Children(s, table)| &&
      ChildrenEnd(s, db, table, doomed, i, true, before)
    requires Children(s, table)[i].child != table && EventuallyReturns(s, Children(s, table)[i].child)
    requires var e := Children(s, table)[i];
      CascadeEnds(s, before, e.child, Matching(before, e.child, e.column, Ids(doomed)), ok, left)
    ensures ChildrenEnd(s, db, table, doomed, i + 1, ok, left)
  {
    var e := Children(s, table)[i];
    var pointers := Matching(db, e.child, e.column, Ids(doomed));
    AfterIsUnplanned(db, PlanUpTo(s, db, table, doomed, i));
    assert Matching(before, e.child, e.column, Ids(doomed)) == pointers * before;
    CascadeAsPlanned(s, db, PlanUpTo(s, db, table, doomed, i), e.child, pointers);
  }

  /** The children's cascades done, the rows' own statement ends the cascade; if one was refused, it has ended. */
  lemma LastStatement(s: Schema, db: set<Row>, left: set<Row>, table: Table, doomed: set<Row>, ok: bool, rest: set<Row>)
    requires EventuallyReturns(s, table) && doomed <= db && forall r :: r in doomed ==> r.table == table
    requires var done := Accepted(s, db, PlanUpTo(s, db, table, doomed, |Children(s, table)|));
      && (done ==> left == After(db, PlanUpTo(s, db, table, doomed, |Children(s, table)|)))
      && (ok <==> done && Detached(s, left - doomed, doomed * left))
      && (ok ==> rest == left - doomed)
    ensures CascadeEnds(s, db, table, doomed, ok, rest)
  {
    AcceptedJoin(s, db, PlanUpTo(s, db, table, doomed, |Children(s, table)|), [doomed]);
    assert left * doomed == doomed * left;
    assert [doomed][1..] == [];
    assert Accepted(s, left, [doomed]) == Detached(s, left - doomed, doomed * left);
    assert After(left, [doomed]) == left - doomed;
    CascadeMeans(s, db, table, doomed);
  }

  /** What each of the three calls selects when its turn comes, in terms of the rows the run began with. */
  lemma TreeSeeds(s: Schema, db: set<Row>, left: set<Row>, driver: Value, hub: Value, k: nat)
    requires Startable(s) && Edge("stops", "route_id") in Children(s, "routes") && KeysUnique(db) && k < 3
    requires left == After(db, TreePlan(s, db, driver, hub, k))
    ensures Matching(left, TREE[k], "id", Eval(left, TreeQueries(driver, hub)[k])) ==
            TreeRows(db, driver, hub)[k] * left
  {
    AfterIsUnplanned(db, TreePlan(s, db, driver, hub, k));
    if k == 0 {
      SelectedById(db, "stops", "route_id", Ids(RouteRows(db, driver)));
    } else if k == 1 {
      RoutesAreLeft(s, db, left, driver, hub);
      SelectedById(left, "routes", "driver_id", {driver});
    } else {
      SelectedById(left, "orders", "hub_id", {hub});
    }
  }

  /** The stops' cascade comes before the routes it reads, and leaves them. */
  lemma RoutesAreLeft(s: Schema, db: set<Row>, left: set<Row>, driver: Value, hub: Value)
    requires Startable(s) && Edge("stops", "route_id") in Children(s, "routes")
    requires left == After(db, TreePlan(s, db, driver, hub, 1))
    ensures RouteRows(left, driver) == RouteRows(db, driver)
  {
    StartsReturn(s);
    var plan := Plan(s, db, "stops", StopRows(db, driver));
    assert TreePlan(s, db, driver, hub, 1) == [] + plan == plan;
    AfterIsUnplanned(db, plan);
    PlanIsBelow(s, db, "stops", StopRows(db, driver));
    forall r | r in RouteRows(db, driver) ensures r in left {
      if r !in left {
        TurnSelects(plan, r);
      }
    }
  }

  /** How the first `k` cascades of a reset end. */
  ghost predicate TreeEnds(s: Schema, db: set<Row>, driver: Value, hub: Value, k: nat, ok: bool, left: set<Row>)
    requires Startable(s) && k <= 3
  {
    && (ok <==> Accepted(s, db, TreePlan(s, db, driver, hub, k)))
    && (ok ==> left == After(db, TreePlan(s, db, driver, hub, k)))
  }

  /** One more of a reset's cascades, run on what those before it left. */
  lemma NextCascade(s: Schema, db: set<Row>, before: set<Row>, driver: Value, hub: Value, k: nat, ok: bool,
                    left: set<Row>)
    requires Startable(s) && Edge("stops", "route_id") in Children(s, "routes") && KeysUnique(db) && k < 3
    requires TreeEnds(s, db, driver, hub, k, true, before) && EventuallyReturns(s, TREE[k])
    requires CascadeEnds(s, before, TREE[k], Matching(before, TREE[k], "id", Eval(before, TreeQueries(driver, hub)[k])),
                         ok, left)
    ensures TreeEnds(s, db, driver, hub, k + 1, ok, left)
  {
    TreeSeeds(s, db, before, driver, hub, k);
    CascadeAsPlanned(s, db, TreePlan(s, db, driver, hub, k), TREE[k], TreeRows(db, driver, hub)[k]);
  }

  lemma {:induction false} TreeRefusedStays(s: Schema, db: set<Row>, driver: Value, hub: Value, i: nat, k: nat)
    requires Startable(s) && i <= k <= 3 && !Accepted(s, db, TreePlan(s, db, driver, hub, i))
    ensures !Accepted(s, db, TreePlan(s, db, driver, hub, k))
    decreases k
  {
    if i < k {
      StartsReturn(s);
      TreeRefusedStays(s, db, driver, hub, i, k - 1);
      AcceptedJoin(s, db, TreePlan(s, db, driver, hub, k - 1),
                   Plan(s, db, TREE[k - 1], TreeRows(db, driver, hub)[k - 1]));
    }
  }

  // ---------------------------------------------------------------- the order of the keys can decide

  /** A table with no children but itself is one statement. */
  lemma {:induction false} LeafUpTo(s: Schema, db: set<Row>, table: Table, doomed: set<Row>, n: nat)
    requires EventuallyReturns(s, table) && n <= |Children(s, table)|
    requires forall e :: e in Children(s, table) ==> e.child == table
    ensures PlanUpTo(s, db, table, doomed, n) == []
  {
    if n > 0 {
      LeafUpTo(s, db, table, doomed, n - 1);
    }
  }

  /** A table that two columns of another point at, listed in some order, and that other at itself. */
  function TwoKeys(parent: Table, child: Table, first: Column, second: Column, own: Column): Schema {
    map[parent := [Edge(child, first), Edge(child, second)], child := [Edge(child, own)]]
  }

  lemma TwoKeysPlan(db: set<Row>, parent: Table, child: Table, first: Column, second: Column, own: Column,
                    doomed: set<Row>)
    requires parent != child
    ensures var s := TwoKeys(parent, child, first, second, own);
      && EventuallyReturns(s, parent)
      && Plan(s, db, parent, doomed) ==
           [Matching(db, child, first, Ids(doomed)), Matching(db, child, second, Ids(doomed)), doomed]
  {
    var s := TwoKeys(parent, child, first, second, own);
    assert Returns(s, child, 1);
    assert Returns(s, parent, 2);
    var a, b := Matching(db, child, first, Ids(doomed)), Matching(db, child, second, Ids(doomed));
    LeafUpTo(s, db, child, a, 1);
    LeafUpTo(s, db, child, b, 1);
    assert Children(s, parent)[0] == Edge(child, first) && Children(s, parent)[1] == Edge(child, second);
    assert Plan(s, db, child, a) == [a] && Plan(s, db, child, b) == [b];
    assert PlanUpTo(s, db, parent, doomed, 1) == [a];
    assert PlanUpTo(s, db, parent, doomed, 2) == [a, b];
  }

  /** A row, and two of another table that point at it by different columns; the first points at the second too. */
  function ThreeRows(parent: Table, child: Table, x: Column, y: Column, own: Column): (Row, Row, Row) {
    (Row(parent, "1", map[]), Row(child, "1", map[y := "1", own := "2"]), Row(child, "2", map[x := "1"]))
  }

  /** The closure of the one row is all three, however the two keys are listed. Listed one way, the database
      refuses the cascade; listed the other way, it does not. The query that lists them asks for no order. */
  lemma OrderOfKeysDecides(parent: Table, child: Table, x: Column, y: Column, own: Column)
    requires parent != child && x != y && x != own && y != own && "id" !in {x, y, own}
    ensures var (p, a, b) := ThreeRows(parent, child, x, y, own);
      var db, s, s' := {p, a, b}, TwoKeys(parent, child, x, y, own), TwoKeys(parent, child, y, x, own);
      && EventuallyReturns(s, parent) && EventuallyReturns(s', parent)
      && LeastClosed(s, db, {p}, db) && LeastClosed(s', db, {p}, db)
      && !InOrder(s, db, Plan(s, db, parent, {p})) && InOrder(s', db, Plan(s', db, parent, {p}))
  {
    var (p, a, b) := ThreeRows(parent, child, x, y, own);
    var db, s, s' := {p, a, b}, TwoKeys(parent, child, x, y, own), TwoKeys(parent, child, y, x, own);
    TwoKeysPlan(db, parent, child, x, y, own, {p});
    TwoKeysPlan(db, parent, child, y, x, own, {p});
    Pointers(parent, child, x, y, own);
    ThreeTurns(db, p, b, a);
    ThreeTurns(db, p, a, b);
    PlanIsTheClosure(s, db, parent, {p});
    PlanIsTheClosure(s', db, parent, {p});
    OnlyOwnPointer(parent, child, x, y, own);
  }

  lemma Pointers(parent: Table, child: Table, x: Column, y: Column, own: Column)
    requires parent != child && x != y && x != own && y != own && "id" !in {x, y, own}
    ensures var (p, a, b) := ThreeRows(parent, child, x, y, own);
      Matching({p, a, b}, child, x, Ids({p})) == {b} && Matching({p, a, b}, child, y, Ids({p})) == {a}
  {
    var (p, a, b) := ThreeRows(parent, child, x, y, own);
    assert Ids({p}) == {"1"};
  }

  lemma OnlyOwnPointer(parent: Table, child: Table, x: Column, y: Column, own: Column)
    requires parent != child && x != y && x != own && y != own && "id" !in {x, y, own}
    ensures var (p, a, b) := ThreeRows(parent, child, x, y, own);
      && Refers(TwoKeys(parent, child, x, y, own), a, b)
      && forall c, d :: c in {p, a, b} && d in {p, a, b} && c.table == d.table ==>
           Refers(TwoKeys(parent, child, y, x, own), c, d) ==> c == a && d == b
  {
    var (p, a, b) := ThreeRows(parent, child, x, y, own);
    var s, s' := TwoKeys(parent, child, x, y, own), TwoKeys(parent, child, y, x, own);
    assert Edge(child, own) in Children(s, child);
    forall c, d | c in {p, a, b} && d in {p, a, b} && c.table == d.table && Refers(s', c, d) ensures c == a && d == b {
      var e :| e in Children(s', d.table) && e.child == c.table && Cell(c, e.column) == Some(d.id);
      assert d.table == child && e == Edge(child, own);
    }
  }

  /** Three statements of a row each. */
  lemma ThreeTurns(db: set<Row>, p: Row, first: Row, second: Row)
    requires db == {p, first, second} && p != first && p != second && first != second
    ensures var plan := [{first}, {second}, {p}];
      Turn(plan, first) == 0 && Turn(plan, second) == 1 && Turn(plan, p) == 2 && Planned(db, plan) == db
  {
    var plan := [{first}, {second}, {p}];
    assert plan[1..] == [{second}, {p}] && plan[1..][1..] == [{p}];
    assert Turn([{p}], p) == 0 && Turn(plan[1..], p) == 1 && Turn(plan[1..], second) == 0;
  }

  // ---------------------------------------------------------------- the transaction

  class Session {
    const schema: Schema
    var rows: set<Row>

    constructor (schema: Schema, rows: set<Row>)
      ensures this.schema == schema && this.rows == rows
    {
      this.schema := schema;
      this.rows := rows;
    }

    /** One DELETE statement. The database refuses it, and changes nothing, when a row that would
        survive points at one that would go. */
    method Delete(table: Table, column: Column, q: Query) returns (ok: bool)
      modifies this
      ensures var doomed := Matching(old(rows), table, column, Eval(old(rows), q));
        && ok == Detached(schema, old(rows) - doomed, doomed)
        && rows == if ok then old(rows) - doomed else old(rows)
    {
      var doomed := Matching(rows, table, column, Eval(rows, q));
      var survivors := rows - doomed;
      ok := forall a, b | a in survivors && b in doomed ::
        forall e | e in Children(schema, b.table) :: !(e.child == a.table && Cell(a, e.column) == Some(b.id));
      if ok {
        rows := survivors;
      }
    }

    /** One child's cascade, as `_delete_rows` calls for it after the first `i` children's. */
    method DeleteChild(table: Table, column: Column, q: Query, ghost db: set<Row>, ghost doomed: set<Row>, i: nat)
      returns (ok: bool)
      requires EventuallyReturns(schema, table) && i < |Children(schema, table)| && ReadsAbove(schema, q, table)
      requires Children(schema, table)[i].child != table
      requires doomed == Matching(db, table, column, Eval(db, q)) &&
        ChildrenEnd(schema, db, table, doomed, i, true, rows)
      modifies this
      decreases RankOf(DepthRank(schema), table), 0
      ensures ChildrenEnd(schema, db, table, doomed, i + 1, ok, rows)
    {
      var e := Children(schema, table)[i];
      ReturningIsRanked(schema);
      ghost var before := rows;
      QueryBeforeChild(schema, db, table, doomed, i, IdsIn(table, column, q));
      ok := DeleteRows(e.child, e.column, IdsIn(table, column, q));
      ChildEnds(schema, db, before, table, doomed, i, ok, rows);
    }

    /** The children of `_delete_rows`, each in turn. Stops at the first statement the database refuses. */
    method DeleteChildren(table: Table, column: Column, q: Query) returns (ok: bool)
      requires EventuallyReturns(schema, table) && ReadsAbove(schema, q, table)
      modifies this
      decreases RankOf(DepthRank(schema), table), 1
      ensures ChildrenEnd(schema, old(rows), table, Matching(old(rows), table, column, Eval(old(rows), q)),
                          |Children(schema, table)|, ok, rows)
    {
      ghost var db, doomed := rows, Matching(rows, table, column, Eval(rows, q));
      var children := Children(schema, table);
      ok := true;
      for i := 0 to |children|
        invariant ChildrenEnd(schema, db, table, doomed, i, true, rows)
      {
        if children[i].child == table {
          SelfSkipped(schema, db, table, doomed, i, rows);
        } else {
          ok := DeleteChild(table, column, q, db, doomed, i);
          if !ok {
            RefusedEarly(schema, db, table, doomed, i + 1, |children|, rows);
            return;
          }
        }
      }
    }

    /** `_delete_rows`: children first, one level at a time, then the rows themselves. */
    method DeleteRows(table: Table, column: Column, q: Query) returns (ok: bool)
      requires EventuallyReturns(schema, table) && ReadsAbove(schema, q, table)
      modifies this
      decreases RankOf(DepthRank(schema), table), 2
      ensures CascadeEnds(schema, old(rows), table, Matching(old(rows), table, column, Eval(old(rows), q)), ok, rows)
    {
      ghost var db, doomed := rows, Matching(rows, table, column, Eval(rows, q));
      ok := DeleteChildren(table, column, q);
      ghost var left := rows;
      if ok {
        QueryBeforeChild(schema, db, table, doomed, |Children(schema, table)|, q);
        assert Matching(left, table, column, Eval(left, q)) == doomed * left && left - doomed * left == left - doomed;
        ok := Delete(table, column, q);
      }
      LastStatement(schema, db, left, table, doomed, ok, rows);
    }

    /** `_delete_tree` and the commit that ends it. A statement the database refuses raises, so the
        session closes uncommitted and every deletion before it is undone. */
    method DeleteTree(driver: Value, hub: Value) returns (committed: bool)
      requires Startable(schema)
      requires Edge("stops", "route_id") in Children(schema, "routes")
      requires KeysUnique(rows)
      modifies this
      ensures committed <==> InOrder(schema, old(rows), TreePlan(schema, old(rows), driver, hub, 3))
      ensures committed ==> Exact(schema, old(rows), DemoRows(old(rows), driver, hub), old(rows) - rows)
      ensures committed && Intact(schema, old(rows)) ==> Intact(schema, rows)
      ensures committed ==> Separable(schema, old(rows), DemoRows(old(rows), driver, hub))
      ensures !committed ==> rows == old(rows) && Entangled(schema, old(rows), DemoRows(old(rows), driver, hub))
    {
      var db := rows;
      StartsReturn(schema);
      for k := 0 to 3
        invariant TreeEnds(schema, db, driver, hub, k, true, rows)
      {
        ghost var before := rows;
        committed := DeleteRows(TREE[k], "id", TreeQueries(driver, hub)[k]);
        NextCascade(schema, db, before, driver, hub, k, committed, rows);
        if !committed {
          TreeRefusedStays(schema, db, driver, hub, k + 1, 3);
          TreePlanMeans(schema, db, driver, hub);
          rows := db;
          return;
        }
      }
      TreePlanMeans(schema, db, driver, hub);
      committed := true;
    }
  }

  /** The recursion returns from each table it starts at, and the text it starts with reads no deeper one. */
  lemma StartsReturn(s: Schema)
    requires Startable(s)
    ensures forall k :: 0 <= k < 3 ==> EventuallyReturns(s, TREE[k])
    ensures Edge("stops", "route_id") in Children(s, "routes") ==>
      RankOf(DepthRank(s), "stops") < RankOf(DepthRank(s), "routes")
  {
    ReturnsIff(s, "stops");
    ReturnsIff(s, "routes");
    ReturnsIff(s, "orders");
    ReturningIsRanked(s);
    assert Edge("stops", "route_id").child != "routes";
  }
}
