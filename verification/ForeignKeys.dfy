/** demo/reset.py: the graph of foreign keys the reset reads at run time, and where the recursion over it
    ends. */
module ForeignKeys {
  type Table = string
  type Column = string

  /** One row of the child-edge query: `column` of `child` is a foreign key to the parent's id. */
  datatype Edge = Edge(child: Table, column: Column)

  /** What the child-edge query answers for each parent, in whatever order and as often as it likes. */
  type Schema = map<Table, seq<Edge>>

  function Children(s: Schema, parent: Table): seq<Edge> {
    if parent in s then s[parent] else []
  }

  /** A rank for tables; a table the map does not mention has rank 0. */
  ghost function RankOf(rank: map<Table, nat>, t: Table): nat {
    if t in rank then rank[t] else 0
  }

  /** Every child edge but a table's edge to itself leads to a smaller rank. */
  ghost predicate Ranked(s: Schema, rank: map<Table, nat>) {
    forall p, e :: e in Children(s, p) && e.child != p ==> RankOf(rank, e.child) < RankOf(rank, p)
  }

  /** The same of the tables of `good`, whose children are all among them. */
  ghost predicate RankedOn(s: Schema, rank: map<Table, nat>, good: iset<Table>) {
    forall p, e :: p in good && e in Children(s, p) && e.child != p ==>
      e.child in good && RankOf(rank, e.child) < RankOf(rank, p)
  }

  // ---------------------------------------------------------------- when the recursion ends

  /** The recursion from `t` returns within `depth` levels: a child equal to its parent is skipped. */
  ghost predicate Returns(s: Schema, t: Table, depth: nat)
    decreases depth
  {
    depth > 0 && forall e :: e in Children(s, t) && e.child != t ==> Returns(s, e.child, depth - 1)
  }

  ghost predicate EventuallyReturns(s: Schema, t: Table) {
    exists depth: nat :: Returns(s, t, depth)
  }

  ghost predicate OtherChild(s: Schema, parent: Table, child: Table) {
    child != parent && exists e :: e in Children(s, parent) && e.child == child
  }

  /** Each table of `p` is a child of the one before it, and another table. */
  ghost predicate ChildPath(s: Schema, p: seq<Table>) {
    forall i, j :: 0 <= i < j < |p| && j == i + 1 ==> OtherChild(s, p[i], p[j])
  }

  ghost predicate Cycle(s: Schema, p: seq<Table>) {
    |p| >= 2 && p[0] == p[|p| - 1] && ChildPath(s, p)
  }

  /** A walk from `t` down the child edges, from table to other table, that comes back to where it was. */
  ghost predicate Lasso(s: Schema, t: Table, p: seq<Table>) {
    && |p| >= 2 && p[0] == t && ChildPath(s, p)
    && exists i :: 0 <= i < |p| - 1 && p[i] == p[|p| - 1]
  }

  /** The tables the recursion returns from. */
  ghost function Returning(s: Schema): iset<Table> {
    iset t | EventuallyReturns(s, t)
  }

  ghost function DepthRank(s: Schema): map<Table, nat> {
    map t | t in s.Keys && EventuallyReturns(s, t) :: LeastDepth(s, t)
  }

  /** On those tables the depth of the recursion is a rank: what the deletions are measured by. */
  lemma ReturningIsRanked(s: Schema)
    ensures RankedOn(s, DepthRank(s), Returning(s))
  {
    forall p, e | p in Returning(s) && e in Children(s, p) && e.child != p
      ensures e.child in Returning(s) && RankOf(DepthRank(s), e.child) < RankOf(DepthRank(s), p)
    {
      assert p in s && Returns(s, p, LeastDepth(s, p));
      assert Returns(s, e.child, LeastDepth(s, p) - 1);
    }
  }

  /** The recursion from a table returns exactly when no walk from it comes back to where it was. The guard in
      the source skips a table's edge to itself and no longer circle. */
  lemma ReturnsIff(s: Schema, t: Table)
    ensures EventuallyReturns(s, t) <==> !exists p :: Lasso(s, t, p)
  {
    if EventuallyReturns(s, t) {
      ReturningIsRanked(s);
      forall p ensures !Lasso(s, t, p) {
        if Lasso(s, t, p) {
          var i :| 0 <= i < |p| - 1 && p[i] == p[|p| - 1];
          RankFallsTo(s, DepthRank(s), Returning(s), p, i, |p| - 1);
        }
      }
    }
    if !Returns(s, t, |s.Keys| + 2) {
      var p := LongPath(s, t, |s.Keys| + 2);
      var q := LongPathRepeats(s, p);
      assert Lasso(s, t, q);
    }
  }

  lemma {:induction false} RankFallsTo(s: Schema, rank: map<Table, nat>, good: iset<Table>, p: seq<Table>, i: nat,
                                       j: nat)
    requires RankedOn(s, rank, good) && ChildPath(s, p) && |p| > 0 && p[0] in good && i <= j < |p|
    ensures p[j] in good && (i < j ==> RankOf(rank, p[j]) < RankOf(rank, p[i]))
    decreases j
  {
    if j > 0 {
      RankFallsTo(s, rank, good, p, if i < j then i else i - 1, j - 1);
      assert OtherChild(s, p[j - 1], p[j]);
    }
  }

  /** Over all tables: the recursion returns from every one exactly when they can be ranked, exactly when no
      foreign keys run in a circle through two tables or more. */
  lemma ReturnsUnlessCycle(s: Schema)
    ensures (exists rank :: Ranked(s, rank)) <==> (forall t :: EventuallyReturns(s, t))
    ensures (exists rank :: Ranked(s, rank)) <==> !exists p :: Cycle(s, p)
  {
    if rank :| Ranked(s, rank) {
      forall t ensures EventuallyReturns(s, t) {
        RankBoundsDepth(s, rank, t);
      }
      ReturningIsRanked(s);
      forall p ensures !Cycle(s, p) {
        if Cycle(s, p) {
          RankFallsTo(s, DepthRank(s), Returning(s), p, 0, |p| - 1);
        }
      }
    }
    if !exists p :: Cycle(s, p) {
      forall t ensures EventuallyReturns(s, t) {
        NoCycleNoLasso(s, t);
        ReturnsIff(s, t);
      }
    }
    if forall t :: EventuallyReturns(s, t) {
      ReturningIsRanked(s);
      assert Ranked(s, DepthRank(s)) by {
        assert forall t :: t in Returning(s);
      }
    }
  }

  lemma NoCycleNoLasso(s: Schema, t: Table)
    requires !exists p :: Cycle(s, p)
    ensures !exists p :: Lasso(s, t, p)
  {
    forall p ensures !Lasso(s, t, p) {
      if Lasso(s, t, p) {
        var i :| 0 <= i < |p| - 1 && p[i] == p[|p| - 1];
        assert Cycle(s, p[i..]);
      }
    }
  }

  /** Two tables that point at each other: neither points at itself, the guard skips nothing, and the recursion
      does not return. */
  lemma TwoTablesForEver(a: Table, b: Table, x: Column, y: Column)
    requires a != b
    ensures var s: Schema := map[a := [Edge(b, x)], b := [Edge(a, y)]];
      && (forall p, e :: e in Children(s, p) ==> e.child != p)
      && !EventuallyReturns(s, a) && !EventuallyReturns(s, b)
  {
    var s: Schema := map[a := [Edge(b, x)], b := [Edge(a, y)]];
    assert Edge(b, x) in Children(s, a) && Edge(a, y) in Children(s, b);
    assert OtherChild(s, a, b) && OtherChild(s, b, a);
    var p, q := [a, b, a], [b, a, b];
    assert p[0] == p[2] && q[0] == q[2];
    assert Lasso(s, a, p) && Lasso(s, b, q);
    ReturnsIff(s, a);
    ReturnsIff(s, b);
  }

  lemma {:induction false} RankBoundsDepth(s: Schema, rank: map<Table, nat>, t: Table)
    requires Ranked(s, rank)
    ensures Returns(s, t, RankOf(rank, t) + 1)
    decreases RankOf(rank, t)
  {
    forall e | e in Children(s, t) && e.child != t ensures Returns(s, e.child, RankOf(rank, t)) {
      RankBoundsDepth(s, rank, e.child);
      DeeperReturns(s, e.child, RankOf(rank, e.child) + 1, RankOf(rank, t));
    }
  }

  lemma {:induction false} DeeperReturns(s: Schema, t: Table, d: nat, d': nat)
    requires d <= d' && Returns(s, t, d)
    ensures Returns(s, t, d')
    decreases d
  {
    forall e | e in Children(s, t) && e.child != t ensures Returns(s, e.child, d' - 1) {
      DeeperReturns(s, e.child, d - 1, d' - 1);
    }
  }

  ghost function LeastDepth(s: Schema, t: Table): (d: nat)
    requires EventuallyReturns(s, t)
    ensures Returns(s, t, d)
    ensures forall d': nat :: Returns(s, t, d') ==> d <= d'
  {
    var depth: nat :| Returns(s, t, depth);
    LeastUpTo(s, t, depth)
  }

  ghost function LeastUpTo(s: Schema, t: Table, depth: nat): (d: nat)
    requires Returns(s, t, depth)
    ensures Returns(s, t, d)
    ensures forall d': nat :: Returns(s, t, d') ==> d <= d'
    decreases depth
  {
    if depth > 0 && Returns(s, t, depth - 1) then LeastUpTo(s, t, depth - 1)
    else
      assert forall d': nat :: Returns(s, t, d') ==> depth <= d' by {
        forall d': nat | Returns(s, t, d') ensures depth <= d' {
          if d' < depth {
            DeeperReturns(s, t, d', depth - 1);
          }
        }
      }
      depth
  }

  lemma {:induction false} LongPath(s: Schema, t: Table, depth: nat) returns (p: seq<Table>)
    requires !Returns(s, t, depth)
    ensures |p| == depth + 1 && p[0] == t && ChildPath(s, p)
    decreases depth
  {
    if depth == 0 {
      p := [t];
    } else {
      var e :| e in Children(s, t) && e.child != t && !Returns(s, e.child, depth - 1);
      var rest := LongPath(s, e.child, depth - 1);
      p := [t] + rest;
    }
  }

  /** A path longer than the number of tables with children visits one of them twice: the part of it up to the
      second visit. */
  lemma LongPathRepeats(s: Schema, p: seq<Table>) returns (q: seq<Table>)
    requires ChildPath(s, p) && |p| > |s.Keys| + 2
    ensures Lasso(s, p[0], q)
  {
    var head := p[..|p| - 1];
    forall i | 0 <= i < |head| ensures head[i] in s.Keys {
      assert OtherChild(s, p[i], p[i + 1]);
    }
    var i, j := Pigeonhole(head, s.Keys);
    q := p[..j + 1];
    assert q[i] == q[|q| - 1];
  }

  lemma {:induction false} Pigeonhole(q: seq<Table>, keys: set<Table>) returns (i: nat, j: nat)
    requires forall k :: 0 <= k < |q| ==> q[k] in keys
    requires |q| > |keys|
    ensures i < j < |q| && q[i] == q[j]
  {
    var last := q[|q| - 1];
    var init := q[..|q| - 1];
    if k :| 0 <= k < |init| && init[k] == last {
      i, j := k, |q| - 1;
    } else {
      i, j := Pigeonhole(init, keys - {last});
    }
  }
}
