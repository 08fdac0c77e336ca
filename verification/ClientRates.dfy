/** app/api/admin_routes.py: a client's rate card, one append-only history per tier.

    A PUT at an instant writes the version that begins then. What a tier's rate was, is or will be at
    any instant is the latest version not after it, and nothing else about the table matters. */
module ClientRates {
  import opened Wrappers

  type Client = string
  type Tier = string

  const VALID_SLA_TIERS: set<Tier> := {"HOT_SHOT", "T1", "T2", "T3"}

  /** What a version charges. */
  datatype Charges = Charges(perDrop: int, perMile: int, perPiece: int, perWeightUnit: int, minimum: int)

  datatype Rate = Rate(client: Client, tier: Tier, effectiveFrom: int, charges: Charges)

  predicate SameVersion(a: Rate, b: Rate) {
    a.client == b.client && a.tier == b.tier && a.effectiveFrom == b.effectiveFrom
  }

  /** `uq_client_rates_client_tier_effective`. */
  ghost predicate Unique(rows: seq<Rate>) {
    forall i, j :: 0 <= i < j < |rows| ==> !SameVersion(rows[i], rows[j])
  }

  predicate Matches(r: Rate, client: Client, tier: Tier, at: int) {
    r.client == client && r.tier == tier && r.effectiveFrom <= at
  }

  /** The version in force: the latest not in the future. */
  function InForce(rows: seq<Rate>, client: Client, tier: Tier, at: int): Option<Rate> {
    if rows == [] then None
    else
      var best, last := InForce(rows[..|rows| - 1], client, tier, at), rows[|rows| - 1];
      if Matches(last, client, tier, at) &&
        (best.None? || best.value.effectiveFrom < last.effectiveFrom) then Some(last)
      else best
  }

  /** The rows after a PUT: its charges laid over the version that begins at that very instant, if there
      is one, and a new version otherwise. */
  function Put(rows: seq<Rate>, r: Rate): seq<Rate> {
    if rows == [] then [r]
    else if SameVersion(rows[0], r) then [r] + rows[1..]
    else [rows[0]] + Put(rows[1..], r)
  }

  // ---------------------------------------------------------------- the endpoints

  class RateCard {
    var rows: seq<Rate>

    constructor (rows: seq<Rate>)
      ensures this.rows == rows
    {
      this.rows := rows;
    }

    /** `upsert_client_rate` at `now`. */
    method Upsert(now: int, client: Client, tier: Tier, charges: Charges) returns (accepted: bool)
      modifies this
      ensures accepted <==> tier in VALID_SLA_TIERS
      ensures rows == if accepted then Put(old(rows), Rate(client, tier, now, charges)) else old(rows)
    {
      if tier !in VALID_SLA_TIERS {
        return false;
      }
      var r := Rate(client, tier, now, charges);
      var i := 0;
      while i < |rows| && !SameVersion(rows[i], r)
        invariant 0 <= i <= |rows| && rows == old(rows)
        invariant Put(rows, r) == rows[..i] + Put(rows[i..], r)
      {
        PutPasses(rows, r, i);
        i := i + 1;
      }
      PutStops(rows, r, i);
      rows := if i < |rows| then rows[i := r] else rows + [r];
      return true;
    }
  }

  /** The tiers a PUT is accepted for. */
  lemma TiersAre(tier: Tier)
    ensures tier in VALID_SLA_TIERS <==> tier in ["HOT_SHOT", "T1", "T2", "T3"]
  {
  }

  /** A PUT passes over another version, and the versions before it stay. */
  lemma PutPasses(rows: seq<Rate>, r: Rate, i: nat)
    requires i < |rows| && !SameVersion(rows[i], r)
    ensures rows[..i] + Put(rows[i..], r) == rows[..i + 1] + Put(rows[i + 1..], r)
  {
    assert rows[i..][0] == rows[i] && rows[i..][1..] == rows[i + 1..];
    assert rows[..i + 1] == rows[..i] + [rows[i]];
  }

  /** Where it stops, it corrects that version, or adds one at the end. */
  lemma PutStops(rows: seq<Rate>, r: Rate, i: nat)
    requires i <= |rows| && (i < |rows| ==> SameVersion(rows[i], r))
    ensures rows[..i] + Put(rows[i..], r) == if i < |rows| then rows[i := r] else rows + [r]
  {
    if i < |rows| {
      assert rows[i..][0] == rows[i] && rows[i..][1..] == rows[i + 1..];
      assert rows[i := r] == rows[..i] + [r] + rows[i + 1..];
    } else {
      assert rows[i..] == [] && rows[..i] == rows;
    }
  }

  /** What the list's query returns: the client's versions not in the future, each tier's latest first. */
  ghost predicate Answers(result: seq<Rate>, rows: seq<Rate>, client: Client, now: int) {
    && (forall r :: r in result <==> r in rows && r.client == client && r.effectiveFrom <= now)
    && (forall i, j :: 0 <= i < j < |result| && result[i].tier == result[j].tier ==>
          result[i].effectiveFrom >= result[j].effectiveFrom)
  }

  /** The loop of `list_client_rates`: the first of each tier stays. */
  method ListRates(result: seq<Rate>, ghost rows: seq<Rate>, ghost client: Client, ghost now: int)
    returns (current: map<Tier, Rate>)
    requires Answers(result, rows, client, now) && Unique(rows)
    ensures forall t :: (if t in current then Some(current[t]) else None) == InForce(rows, client, t, now)
  {
    current := map[];
    for i := 0 to |result|
      invariant forall t :: t in current ==> current[t] in result && current[t].tier == t
      invariant forall j :: 0 <= j < i ==> result[j].tier in current
      invariant forall t, j :: t in current && 0 <= j < |result| && result[j].tier == t ==>
        result[j].effectiveFrom <= current[t].effectiveFrom
    {
      if result[i].tier !in current {
        current := current[result[i].tier := result[i]];
      }
    }
    forall t ensures (if t in current then Some(current[t]) else None) == InForce(rows, client, t, now) {
      InForceIsLatest(rows, client, t, now);
      var best := InForce(rows, client, t, now);
      if best.Some? {
        assert best.value in result;
        var j :| 0 <= j < |result| && result[j] == best.value;
        assert t in current && result[j].effectiveFrom <= current[t].effectiveFrom;
        assert current[t] in rows;
        SameRow(rows, best.value, current[t]);
      }
    }
  }

  lemma SameRow(rows: seq<Rate>, a: Rate, b: Rate)
    requires Unique(rows) && a in rows && b in rows && SameVersion(a, b)
    ensures a == b
  {
    var i :| 0 <= i < |rows| && rows[i] == a;
    var j :| 0 <= j < |rows| && rows[j] == b;
    assert SameVersion(rows[i], rows[j]) && SameVersion(rows[j], rows[i]);
  }

  lemma {:induction false} InForceIsLatest(rows: seq<Rate>, client: Client, tier: Tier, at: int)
    ensures match InForce(rows, client, tier, at)
      case None => forall r :: r in rows ==> !Matches(r, client, tier, at)
      case Some(best) =>
        best in rows && Matches(best, client, tier, at) &&
        forall r :: r in rows && Matches(r, client, tier, at) ==> r.effectiveFrom <= best.effectiveFrom
  {
    if rows != [] {
      InForceIsLatest(rows[..|rows| - 1], client, tier, at);
      assert rows == rows[..|rows| - 1] + [rows[|rows| - 1]];
    }
  }

  /** The distinct tiers `list_hub_clients` counts are as many as the rates the list returns. */
  lemma TierCountIsTheList(rows: seq<Rate>, client: Client, now: int, current: map<Tier, Rate>)
    requires forall t :: (if t in current then Some(current[t]) else None) == InForce(rows, client, t, now)
    ensures |set r | r in rows && r.client == client && r.effectiveFrom <= now :: r.tier| == |current|
  {
    var tiers := set r | r in rows && r.client == client && r.effectiveFrom <= now :: r.tier;
    forall t ensures t in tiers <==> t in current {
      InForceIsLatest(rows, client, t, now);
      assert InForce(rows, client, t, now).Some? <==> t in current;
    }
    assert tiers == current.Keys;
  }

  // ---------------------------------------------------------------- history

  lemma {:induction false} PutRows(rows: seq<Rate>, r: Rate)
    requires Unique(rows)
    ensures Unique(Put(rows, r))
    ensures forall q :: q in Put(rows, r) <==> q == r || (q in rows && !SameVersion(q, r))
  {
    if rows != [] {
      assert forall q :: q in rows <==> q == rows[0] || q in rows[1..];
      assert Unique(rows[1..]);
      if SameVersion(rows[0], r) {
        forall q | q in rows[1..] ensures !SameVersion(q, r) {
          var j :| 0 <= j < |rows[1..]| && rows[1..][j] == q;
          assert !SameVersion(rows[0], rows[j + 1]);
        }
      } else {
        PutRows(rows[1..], r);
        forall q | q in Put(rows[1..], r) ensures !SameVersion(rows[0], q) {
          if q in rows[1..] {
            var j :| 0 <= j < |rows[1..]| && rows[1..][j] == q;
            assert !SameVersion(rows[0], rows[j + 1]);
          }
        }
      }
    }
  }

  /** No version of the tier begins after `n` and by `at`. */
  ghost predicate NoneSince(rows: seq<Rate>, client: Client, tier: Tier, n: int, at: int) {
    forall q :: q in rows && q.client == client && q.tier == tier ==> !(n < q.effectiveFrom <= at)
  }

  /** A PUT changes exactly the answers for its own client and tier from its instant until the next
      version, if one is scheduled: the past, every other tier and every other client keep theirs. */
  lemma PutChangesOnlyFromNow(rows: seq<Rate>, r: Rate, client: Client, tier: Tier, at: int)
    requires Unique(rows)
    ensures InForce(Put(rows, r), client, tier, at) ==
      if client == r.client && tier == r.tier && r.effectiveFrom <= at &&
        NoneSince(rows, client, tier, r.effectiveFrom, at)
      then Some(r) else InForce(rows, client, tier, at)
  {
    PutRows(rows, r);
    InForceIsLatest(rows, client, tier, at);
    InForceIsLatest(Put(rows, r), client, tier, at);
    var was, now := InForce(rows, client, tier, at), InForce(Put(rows, r), client, tier, at);
    if client == r.client && tier == r.tier && r.effectiveFrom <= at {
      assert r in Put(rows, r) && Matches(r, client, tier, at);
      if NoneSince(rows, client, tier, r.effectiveFrom, at) {
        SameRow(Put(rows, r), now.value, r);
      } else {
        var q :| q in rows && q.client == client && q.tier == tier && r.effectiveFrom < q.effectiveFrom <= at;
        assert Matches(q, client, tier, at) && q in Put(rows, r);
        SameRow(Put(rows, r), now.value, was.value);
      }
    } else if was.Some? {
      assert was.value in Put(rows, r);
      SameRow(Put(rows, r), now.value, was.value);
    }
  }

  /** PUTs in the order they came, each by a clock that has not gone back. */
  function PutAll(puts: seq<Rate>): seq<Rate> {
    if puts == [] then [] else Put(PutAll(puts[..|puts| - 1]), puts[|puts| - 1])
  }

  function LastPut(puts: seq<Rate>, client: Client, tier: Tier, at: int): Option<Rate> {
    if puts == [] then None
    else if Matches(puts[|puts| - 1], client, tier, at) then Some(puts[|puts| - 1])
    else LastPut(puts[..|puts| - 1], client, tier, at)
  }

  ghost predicate InOrder(puts: seq<Rate>) {
    forall i, j :: 0 <= i < j < |puts| ==> puts[i].effectiveFrom <= puts[j].effectiveFrom
  }

  /** The whole history survives: after any number of PUTs, the rate in force at any instant, past or
      present, is the last one that had been PUT by then. */
  lemma {:induction false} HistoryIsKept(puts: seq<Rate>, client: Client, tier: Tier, at: int)
    requires InOrder(puts)
    ensures Unique(PutAll(puts)) && (forall q :: q in PutAll(puts) ==> q in puts)
    ensures InForce(PutAll(puts), client, tier, at) == LastPut(puts, client, tier, at)
  {
    if puts != [] {
      var init, r := puts[..|puts| - 1], puts[|puts| - 1];
      HistoryIsKept(init, client, tier, at);
      PutRows(PutAll(init), r);
      PutChangesOnlyFromNow(PutAll(init), r, client, tier, at);
      forall q | q in PutAll(init) ensures q.effectiveFrom <= r.effectiveFrom {
        var i :| 0 <= i < |init| && init[i] == q;
      }
    }
  }
}
