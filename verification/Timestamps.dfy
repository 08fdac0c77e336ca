/** Python's `datetime`, as far as the baseline compares and subtracts it: a wall-clock time, with an offset
    from UTC or without one. A time with an offset and one without do not compare: Python raises TypeError. */
module Timestamps {
  import opened Wrappers

  const DAY: int := 86400

  /** In seconds. */
  datatype Time = Time(wall: int, offset: Option<int>) {
    predicate Zoned() {
      offset.Some?
    }

    /** What is compared: the instant, or the wall clock where no offset is known. */
    function At(): int {
      if offset.Some? then wall - offset.value else wall
    }

    /** The calendar day it says, whatever its offset. */
    function Date(): int {
      wall / DAY
    }

    function Plus(seconds: int): Time {
      Time(wall + seconds, offset)
    }
  }

  datatype TypeError = MixedZones

  predicate Comparable(a: Time, b: Time) {
    a.Zoned() == b.Zoned()
  }

  /** `a < b`. */
  function Less(a: Time, b: Time): Result<bool, TypeError> {
    if Comparable(a, b) then Ok(a.At() < b.At()) else Err(MixedZones)
  }

  /** `(a - b).total_seconds()`. */
  function Minus(a: Time, b: Time): Result<int, TypeError> {
    if Comparable(a, b) then Ok(a.At() - b.At()) else Err(MixedZones)
  }

  /** Two times with offsets compare by the instant, and two without by the clock; a mixed pair raises. */
  lemma LessIs(a: Time, b: Time)
    ensures match (a.offset, b.offset)
      case (Some(x), Some(y)) =>
        Less(a, b) == Ok(a.wall - x < b.wall - y) && Minus(a, b) == Ok((a.wall - x) - (b.wall - y))
      case (None, None) => Less(a, b) == Ok(a.wall < b.wall) && Minus(a, b) == Ok(a.wall - b.wall)
      case _ => Less(a, b) == Err(MixedZones) && Minus(a, b) == Err(MixedZones)
  {
  }

  /** A time's date is the day its own clock is in: from one midnight there up to the next. */
  lemma DateIs(t: Time, day: int)
    ensures t.Date() == day <==> day * 86400 <= t.wall < (day + 1) * 86400
  {
  }

  /** The later of the best so far and the next, as `max` compares them. */
  function LaterOf(best: Result<Time, TypeError>, t: Time): Result<Time, TypeError> {
    match best
    case Err(e) => Err(e)
    case Ok(m) =>
      match Less(m, t)
      case Err(e) => Err(e)
      case Ok(later) => Ok(if later then t else m)
  }

  function EarlierOf(best: Result<Time, TypeError>, t: Time): Result<Time, TypeError> {
    match best
    case Err(e) => Err(e)
    case Ok(m) =>
      match Less(t, m)
      case Err(e) => Err(e)
      case Ok(earlier) => Ok(if earlier then t else m)
  }

  /** `max` of the first `n`. */
  function Max(s: seq<Time>, n: nat): Result<Time, TypeError>
    requires 0 < n <= |s|
  {
    if n == 1 then Ok(s[0]) else LaterOf(Max(s, n - 1), s[n - 1])
  }

  function Min(s: seq<Time>, n: nat): Result<Time, TypeError>
    requires 0 < n <= |s|
  {
    if n == 1 then Ok(s[0]) else EarlierOf(Min(s, n - 1), s[n - 1])
  }

  /** `max(ends) - min(starts)`. */
  function Between(ends: seq<Time>, starts: seq<Time>): Result<int, TypeError>
    requires ends != [] && starts != []
  {
    match (Max(ends, |ends|), Min(starts, |starts|))
    case (Ok(last), Ok(first)) => Minus(last, first)
    case _ => Err(MixedZones)
  }

  /** Two of the times do not compare. */
  ghost predicate Mixed(s: seq<Time>) {
    exists t, u :: t in s && u in s && !Comparable(t, u)
  }

  /** Every time of `s` compares with `t`. */
  ghost predicate AllLike(s: seq<Time>, n: nat, t: Time)
    requires n <= |s|
  {
    forall i :: 0 <= i < n ==> Comparable(s[i], t)
  }

  /** `max` raises exactly when some time does not compare with the first, and otherwise returns one that none
      is later than. */
  lemma {:induction false} MaxIs(s: seq<Time>, n: nat)
    requires 0 < n <= |s|
    ensures Max(s, n).Ok? <==> AllLike(s, n, s[0])
    ensures Max(s, n).Ok? ==>
      Max(s, n).value in s && Comparable(Max(s, n).value, s[0]) &&
      forall i :: 0 <= i < n ==> s[i].At() <= Max(s, n).value.At()
  {
    if n > 1 {
      MaxIs(s, n - 1);
    }
  }

  lemma {:induction false} MinIs(s: seq<Time>, n: nat)
    requires 0 < n <= |s|
    ensures Min(s, n).Ok? <==> AllLike(s, n, s[0])
    ensures Min(s, n).Ok? ==>
      Min(s, n).value in s && Comparable(Min(s, n).value, s[0]) &&
      forall i :: 0 <= i < n ==> Min(s, n).value.At() <= s[i].At()
  {
    if n > 1 {
      MinIs(s, n - 1);
    }
  }

  /** The longest any end is after any start. */
  ghost predicate IsSpan(v: int, ends: seq<Time>, starts: seq<Time>) {
    && (exists e, s :: e in ends && s in starts && v == e.At() - s.At())
    && (forall e, s :: e in ends && s in starts ==> e.At() - s.At() <= v)
  }

  /** The span raises exactly when two of all its times do not compare, and otherwise is the longest any end is
      after any start. */
  lemma BetweenIs(ends: seq<Time>, starts: seq<Time>)
    requires ends != [] && starts != []
    ensures Between(ends, starts).Err? <==> Mixed(ends + starts)
    ensures Between(ends, starts).Ok? ==> IsSpan(Between(ends, starts).value, ends, starts)
  {
    MaxIs(ends, |ends|);
    MinIs(starts, |starts|);
    var all := ends + starts;
    assert ends[0] in ends && starts[0] in starts && ends[0] in all && starts[0] in all;
    if Between(ends, starts).Err? {
      MixedWitness(ends, starts);
    } else {
      forall t | t in all ensures Comparable(t, ends[0]) {
        assert t in ends || t in starts;
      }
      forall e, s | e in ends && s in starts ensures e.At() - s.At() <= Between(ends, starts).value {
      }
    }
  }

  lemma MixedWitness(ends: seq<Time>, starts: seq<Time>)
    requires ends != [] && starts != []
    requires !AllLike(ends, |ends|, ends[0]) || !AllLike(starts, |starts|, starts[0]) || !Comparable(ends[0], starts[0])
    ensures Mixed(ends + starts)
  {
    var all := ends + starts;
    assert all[0] == ends[0] && all[|ends|] == starts[0];
    assert ends[0] in all && starts[0] in all;
    if !AllLike(ends, |ends|, ends[0]) {
      var i :| 0 <= i < |ends| && !Comparable(ends[i], ends[0]);
      assert all[i] == ends[i] && ends[i] in all;
    } else if !AllLike(starts, |starts|, starts[0]) {
      var i :| 0 <= i < |starts| && !Comparable(starts[i], starts[0]);
      assert all[|ends| + i] == starts[i] && starts[i] in all;
    }
  }

  lemma SpanIsUnique(v: int, w: int, ends: seq<Time>, starts: seq<Time>)
    requires IsSpan(v, ends, starts) && IsSpan(w, ends, starts)
    ensures v == w
  {
  }

  /** Only which times there are matters, not their order or number. */
  lemma BetweenByElements(ends: seq<Time>, starts: seq<Time>, ends': seq<Time>, starts': seq<Time>)
    requires ends != [] && starts != [] && ends' != [] && starts' != []
    requires forall t :: t in ends <==> t in ends'
    requires forall t :: t in starts <==> t in starts'
    ensures Between(ends, starts) == Between(ends', starts')
  {
    BetweenIs(ends, starts);
    BetweenIs(ends', starts');
    assert forall t :: t in ends + starts <==> t in ends' + starts';
    if Between(ends, starts).Ok? {
      SpanIsUnique(Between(ends, starts).value, Between(ends', starts').value, ends, starts);
    }
  }
}
