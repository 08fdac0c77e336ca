/** app/rate_limit.py: the general per-caller request limit, a counter in Redis that expires.

    `Limiter` is the middleware over the store it writes. A trace is any sequence of requests whose
    clock does not run backwards; the bounds are proved about every trace. Times are in the store's
    own ticks, of which there may be many to a second. */
module RateLimit {
  import opened Wrappers
  import ClientIp
  import opened Counting

  type Caller = string

  const EXEMPT_PATHS: set<string> := {"/health", "/docs", "/redoc", "/openapi.json", "/internal/health/dispatch"}

  datatype Config = Config(max: nat, window: nat)

  /** A counter; gone from `expiresAt` on. */
  datatype Key = Key(count: nat, expiresAt: int)

  type Keys = map<Caller, Key>

  datatype Request = Request(at: int, path: string, caller: Caller)

  datatype Response = Passed | TooMany(retryAfter: nat)

  // ---------------------------------------------------------------- one request

  predicate Live(keys: Keys, caller: Caller, now: int) {
    caller in keys && now < keys[caller].expiresAt
  }

  /** The caller's counter after INCR, then EXPIRE with NX: only a key INCR just made has no expiry. */
  function Counted(c: Config, keys: Keys, r: Request): Key {
    if Live(keys, r.caller, r.at) then Key(keys[r.caller].count + 1, keys[r.caller].expiresAt)
    else Key(1, r.at + c.window)
  }

  function Next(c: Config, keys: Keys, r: Request): Keys {
    if r.path in EXEMPT_PATHS then keys else keys[r.caller := Counted(c, keys, r)]
  }

  function Verdict(c: Config, keys: Keys, r: Request): Response {
    if r.path in EXEMPT_PATHS || Counted(c, keys, r).count <= c.max then Passed else TooMany(c.window)
  }

  /** The health checks and the API's description are let through and not counted; any other request is, and one
      turned away is told to wait out the window. */
  lemma ExemptPass(c: Config, keys: Keys, r: Request)
    ensures r.path in ["/health", "/docs", "/redoc", "/openapi.json", "/internal/health/dispatch"] ==>
      Next(c, keys, r) == keys && Verdict(c, keys, r) == Passed
    ensures r.path !in ["/health", "/docs", "/redoc", "/openapi.json", "/internal/health/dispatch"] ==>
      && r.caller in Next(c, keys, r) && Next(c, keys, r)[r.caller].count >= 1
      && (Verdict(c, keys, r).TooMany? <==> Next(c, keys, r)[r.caller].count > c.max)
      && (Verdict(c, keys, r).TooMany? ==> Verdict(c, keys, r).retryAfter == c.window)
  {
  }

  // ---------------------------------------------------------------- the middleware

  /** A Redis key: a count and, if one was set, the tick it expires at. */
  datatype Cell = Cell(count: nat, expiresAt: Option<int>)

  class Limiter {
    const config: Config
    var cells: map<Caller, Cell>

    /** Every counter has an expiry: a request cannot leave one without. */
    ghost predicate Valid()
      reads this
    {
      forall k :: k in cells ==> cells[k].expiresAt.Some?
    }

    ghost function Abs(): Keys
      reads this
      requires Valid()
    {
      map k | k in cells :: Key(cells[k].count, cells[k].expiresAt.value)
    }

    constructor (config: Config)
      ensures Valid() && Abs() == map[] && this.config == config
    {
      this.config := config;
      cells := map[];
    }

    /** INCR: a missing or expired key counts from nothing, with no expiry. */
    method Incr(key: Caller, now: int) returns (count: nat)
      modifies this
      ensures var was := old(cells);
        cells == was[key :=
          if key in was && (was[key].expiresAt.None? || now < was[key].expiresAt.value)
          then Cell(was[key].count + 1, was[key].expiresAt) else Cell(1, None)]
      ensures count == cells[key].count
    {
      var cell := Cell(0, None);
      if key in cells && (cells[key].expiresAt.None? || now < cells[key].expiresAt.value) {
        cell := cells[key];
      }
      cells := cells[key := Cell(cell.count + 1, cell.expiresAt)];
      count := cell.count + 1;
    }

    /** EXPIRE with NX: sets an expiry only where there is none. */
    method ExpireIfNone(key: Caller, now: int, seconds: nat)
      requires key in cells
      modifies this
      ensures var cell := old(cells)[key];
        cells == old(cells)[key := if cell.expiresAt.None? then Cell(cell.count, Some(now + seconds)) else cell]
    {
      if cells[key].expiresAt.None? {
        cells := cells[key := Cell(cells[key].count, Some(now + seconds))];
      }
    }

    method Dispatch(r: Request) returns (response: Response)
      requires Valid()
      modifies this
      ensures Valid()
      ensures Abs() == Next(config, old(Abs()), r)
      ensures response == Verdict(config, old(Abs()), r)
    {
      if r.path in EXEMPT_PATHS {
        return Passed;
      }
      var count := Incr(r.caller, r.at);
      ExpireIfNone(r.caller, r.at, config.window);
      if count > config.max {
        return TooMany(config.window);
      }
      return Passed;
    }
  }

  // ---------------------------------------------------------------- traces

  type Trace = seq<Request>

  predicate Ordered(trace: Trace) {
    forall i, j :: 0 <= i < j < |trace| ==> trace[i].at <= trace[j].at
  }

  function Init(trace: Trace): Trace
    requires trace != []
  {
    trace[..|trace| - 1]
  }

  function Last(trace: Trace): Request
    requires trace != []
  {
    trace[|trace| - 1]
  }

  function After(c: Config, trace: Trace): Keys {
    if trace == [] then map[] else Next(c, After(c, Init(trace)), Last(trace))
  }

  /** What the last request of the trace is answered. */
  function LastVerdict(c: Config, trace: Trace): Response
    requires trace != []
  {
    Verdict(c, After(c, Init(trace)), Last(trace))
  }

  predicate Counts(r: Request, caller: Caller) {
    r.caller == caller && r.path !in EXEMPT_PATHS
  }

  /** How many of the caller's counted requests from tick `lo` up to `hi` were let through. */
  function Admitted(c: Config, trace: Trace, caller: Caller, lo: int, hi: int): nat {
    if trace == [] then 0
    else
      Admitted(c, Init(trace), caller, lo, hi) +
      if Counts(Last(trace), caller) && lo <= Last(trace).at < hi && LastVerdict(c, trace).Passed? then 1 else 0
  }

  /** The `i`-th request is the caller's, counted, of that time, and was let through when it came. */
  predicate LetThrough(c: Config, trace: Trace, caller: Caller, lo: int, hi: int, i: nat) {
    && i < |trace| && trace[i].caller == caller && trace[i].path !in EXEMPT_PATHS && lo <= trace[i].at < hi
    && LastVerdict(c, trace[..i + 1]).Passed?
  }

  /** Who is counted as let through. */
  lemma {:induction false} AdmittedAre(c: Config, trace: Trace, caller: Caller, lo: int, hi: int, n: nat)
    requires n <= |trace|
    ensures Admitted(c, trace[..n], caller, lo, hi) == |Those((i: nat) => LetThrough(c, trace, caller, lo, hi, i), n)|
  {
    CountGoesUp((i: nat) => LetThrough(c, trace, caller, lo, hi, i), if n > 0 then n - 1 else 0);
    if n > 0 {
      AdmittedAre(c, trace, caller, lo, hi, n - 1);
      OneMoreAdmitted(c, trace, caller, lo, hi, n - 1);
    }
  }

  lemma OneMoreAdmitted(c: Config, trace: Trace, caller: Caller, lo: int, hi: int, n: nat)
    requires n < |trace|
    ensures Admitted(c, trace[..n + 1], caller, lo, hi) ==
            Admitted(c, trace[..n], caller, lo, hi) + if LetThrough(c, trace, caller, lo, hi, n) then 1 else 0
  {
    assert Init(trace[..n + 1]) == trace[..n] && Last(trace[..n + 1]) == trace[n];
  }

  // ---------------------------------------------------------------- the bound

  function Min(a: nat, b: nat): nat {
    if a < b then a else b
  }

  function Less1(n: nat): nat {
    if n == 0 then 0 else n - 1
  }

  /** The most that can pass in one window's length of time. */
  function Bound(c: Config): nat {
    if c.max == 0 then 0 else 2 * c.max - 1
  }

  lemma {:induction false} AdmittedSplits(c: Config, trace: Trace, caller: Caller, lo: int, mid: int, hi: int)
    requires lo <= mid <= hi
    ensures Admitted(c, trace, caller, lo, hi) ==
            Admitted(c, trace, caller, lo, mid) + Admitted(c, trace, caller, mid, hi)
  {
    if trace != [] {
      AdmittedSplits(c, Init(trace), caller, lo, mid, hi);
    }
  }

  lemma {:induction false} NoneAdmittedIn(c: Config, trace: Trace, caller: Caller, lo: int, hi: int)
    requires hi <= lo || (Ordered(trace) && (trace == [] || Last(trace).at < lo))
    ensures Admitted(c, trace, caller, lo, hi) == 0
  {
    if trace != [] {
      NoneAdmittedIn(c, Init(trace), caller, lo, hi);
    }
  }

  /** Where the caller's counter stands, and what that says of who was let through. `start` is when the
      counter was made. */
  ghost predicate Tallied(c: Config, trace: Trace, caller: Caller) {
    var keys := After(c, trace);
    if caller !in keys then forall lo, hi :: Admitted(c, trace, caller, lo, hi) == 0
    else
      var key := keys[caller];
      var start := key.expiresAt - c.window;
      && trace != [] && key.count >= 1 && start <= Last(trace).at
      // since the counter was made, as many as it let through; the first of them at `start`
      && (forall hi :: Admitted(c, trace, caller, start, hi) <= Min(key.count, c.max))
      && (forall hi :: hi > Last(trace).at ==> Admitted(c, trace, caller, start, hi) == Min(key.count, c.max))
      && (forall lo, hi :: lo > start ==> Admitted(c, trace, caller, lo, hi) <= Less1(Min(key.count, c.max)))
      // none after it lapsed, and little in the window's length before it was made
      && (forall lo, hi :: lo >= key.expiresAt ==> Admitted(c, trace, caller, lo, hi) == 0)
      && (forall lo :: start - c.window < lo <= start ==> Admitted(c, trace, caller, lo, start) <= Less1(c.max))
      && (forall lo, hi :: hi <= lo + c.window ==> Admitted(c, trace, caller, lo, hi) <= Bound(c))
  }

  lemma {:induction false} EveryTraceTallies(c: Config, trace: Trace, caller: Caller)
    requires c.window > 0 && Ordered(trace)
    ensures Tallied(c, trace, caller)
  {
    if trace != [] {
      EveryTraceTallies(c, Init(trace), caller);
      if !Counts(Last(trace), caller) {
        UncountedTallies(c, trace, caller);
      } else if Live(After(c, Init(trace)), caller, Last(trace).at) {
        LiveTallies(c, trace, caller);
      } else {
        FreshTallies(c, trace, caller);
      }
    }
  }

  lemma UncountedTallies(c: Config, trace: Trace, caller: Caller)
    requires c.window > 0 && Ordered(trace) && trace != [] && Tallied(c, Init(trace), caller)
    requires !Counts(Last(trace), caller)
    ensures Tallied(c, trace, caller)
  {
    assert forall lo, hi :: Admitted(c, trace, caller, lo, hi) == Admitted(c, Init(trace), caller, lo, hi);
  }

  /** Within the counter's life. */
  lemma LiveTallies(c: Config, trace: Trace, caller: Caller)
    requires c.window > 0 && Ordered(trace) && trace != [] && Tallied(c, Init(trace), caller)
    requires Counts(Last(trace), caller) && Live(After(c, Init(trace)), caller, Last(trace).at)
    ensures Tallied(c, trace, caller)
  {
    var was, now := After(c, Init(trace))[caller], After(c, trace)[caller];
    var start := now.expiresAt - c.window;
    forall lo, hi | lo > start ensures Admitted(c, trace, caller, lo, hi) <= Less1(Min(now.count, c.max)) {
      assert Admitted(c, Init(trace), caller, lo, hi) <= Less1(Min(was.count, c.max));
    }
    forall hi ensures Admitted(c, trace, caller, start, hi) <= Min(now.count, c.max) {
      assert Admitted(c, Init(trace), caller, start, hi) <= Min(was.count, c.max);
    }
    forall lo, hi | hi <= lo + c.window ensures Admitted(c, trace, caller, lo, hi) <= Bound(c) {
      if lo <= start < hi {
        AdmittedSplits(c, trace, caller, lo, start, hi);
        assert Admitted(c, trace, caller, lo, start) == Admitted(c, Init(trace), caller, lo, start) <= Less1(c.max);
      } else if lo > start {
      } else {
        assert Admitted(c, Init(trace), caller, lo, hi) <= Bound(c);
      }
    }
  }

  /** A counter made anew: the old one, if there was one, lapsed at or before this tick. */
  lemma FreshTallies(c: Config, trace: Trace, caller: Caller)
    requires c.window > 0 && Ordered(trace) && trace != [] && Tallied(c, Init(trace), caller)
    requires Counts(Last(trace), caller) && !Live(After(c, Init(trace)), caller, Last(trace).at)
    ensures Tallied(c, trace, caller)
  {
    var start := Last(trace).at;
    var key := After(c, trace)[caller];
    assert key == Key(1, start + c.window) && key.expiresAt - c.window == start;
    forall lo, hi | lo >= start ensures Admitted(c, Init(trace), caller, lo, hi) == 0 {
    }
    forall lo, hi | start - c.window < lo ensures Admitted(c, Init(trace), caller, lo, hi) <= Less1(c.max) {
    }
    forall lo, hi | lo > start ensures Admitted(c, trace, caller, lo, hi) <= Less1(Min(key.count, c.max)) {
      assert Admitted(c, Init(trace), caller, lo, hi) == 0;
    }
    forall lo, hi | lo >= key.expiresAt ensures Admitted(c, trace, caller, lo, hi) == 0 {
      assert Admitted(c, Init(trace), caller, lo, hi) == 0;
    }
    forall lo, hi | hi <= lo + c.window ensures Admitted(c, trace, caller, lo, hi) <= Bound(c) {
      assert Admitted(c, Init(trace), caller, lo, hi) <= Bound(c);
    }
  }

  /** In any stretch of time as long as the window, a caller gets through at most 2M - 1 times. */
  lemma AdmittedIsBounded(c: Config, trace: Trace, caller: Caller, lo: int)
    requires c.window > 0 && Ordered(trace)
    ensures Admitted(c, trace, caller, lo, lo + c.window) <= Bound(c)
  {
    EveryTraceTallies(c, trace, caller);
  }

  /** In one life of the counter, at most M. */
  lemma AdmittedPerLife(c: Config, trace: Trace, caller: Caller)
    requires c.window > 0 && Ordered(trace) && caller in After(c, trace)
    ensures var expiry := After(c, trace)[caller].expiresAt;
      Admitted(c, trace, caller, expiry - c.window, expiry) <= c.max
  {
    EveryTraceTallies(c, trace, caller);
  }

  /** A caller is turned away only when M of its requests were let through in the window's length of time
      up to now: rejected requests do not prolong the wait. */
  lemma RejectedOnlyAfterM(c: Config, trace: Trace)
    requires c.window > 0 && Ordered(trace) && trace != [] && LastVerdict(c, trace).TooMany?
    ensures var now := Last(trace).at;
      Admitted(c, trace, Last(trace).caller, now - c.window + 1, now + 1) >= c.max
  {
    var caller, now := Last(trace).caller, Last(trace).at;
    EveryTraceTallies(c, trace, caller);
    var key := After(c, trace)[caller];
    var start := key.expiresAt - c.window;
    assert key == Counted(c, After(c, Init(trace)), Last(trace)) && key.count > c.max;
    assert now < key.expiresAt;
    AdmittedSplits(c, trace, caller, now - c.window + 1, start, now + 1);
  }

  // ---------------------------------------------------------------- the bound is exact

  /** `n` more requests just like `r`. */
  function Then(trace: Trace, r: Request, n: nat): Trace {
    if n == 0 then trace else Then(trace, r, n - 1) + [r]
  }

  /** One request when the counter is made, M - 1 in its last tick, M in the next one's first. */
  function Worst(c: Config, caller: Caller, path: string): Trace {
    Then(Then([Request(0, path, caller)], Request(c.window - 1, path, caller), Less1(c.max)),
         Request(c.window, path, caller), c.max)
  }

  /** What a request adds, once its counter is known. */
  lemma OneMore(c: Config, trace: Trace, r: Request, lo: int, hi: int)
    requires lo <= r.at < hi && r.path !in EXEMPT_PATHS
    ensures After(c, trace + [r]) == After(c, trace)[r.caller := Counted(c, After(c, trace), r)]
    ensures Counted(c, After(c, trace), r).count <= c.max ==>
      Admitted(c, trace + [r], r.caller, lo, hi) == Admitted(c, trace, r.caller, lo, hi) + 1
  {
    assert Init(trace + [r]) == trace && Last(trace + [r]) == r;
  }

  /** The counter and the tally, as a burst changes them. */
  ghost predicate Stands(c: Config, trace: Trace, caller: Caller, key: Key, lo: int, hi: int, passed: nat) {
    caller in After(c, trace) && After(c, trace)[caller] == key && Admitted(c, trace, caller, lo, hi) == passed
  }

  /** A burst while the counter lives, small enough to pass. */
  lemma {:induction false} LiveBurst(c: Config, trace: Trace, r: Request, n: nat, lo: int, hi: int, key: Key,
                                     passed: nat)
    requires lo <= r.at < hi && r.at < key.expiresAt && key.count + n <= c.max && r.path !in EXEMPT_PATHS
    requires Stands(c, trace, r.caller, key, lo, hi, passed)
    ensures Stands(c, Then(trace, r, n), r.caller, Key(key.count + n, key.expiresAt), lo, hi, passed + n)
  {
    if n > 0 {
      LiveBurst(c, trace, r, n - 1, lo, hi, key, passed);
      OneMore(c, Then(trace, r, n - 1), r, lo, hi);
    }
  }

  /** A burst that makes the counter anew. */
  lemma FreshBurst(c: Config, trace: Trace, r: Request, n: nat, lo: int, hi: int, key: Key, passed: nat)
    requires lo <= r.at < hi && r.at >= key.expiresAt && 0 < n <= c.max && c.window > 0 && r.path !in EXEMPT_PATHS
    requires Stands(c, trace, r.caller, key, lo, hi, passed)
    ensures Stands(c, Then(trace, r, n), r.caller, Key(n, r.at + c.window), lo, hi, passed + n)
  {
    OneMore(c, trace, r, lo, hi);
    LiveBurst(c, trace + [r], r, n - 1, lo, hi, Key(1, r.at + c.window), passed + 1);
    ThenFromFront(trace, r, n);
  }

  lemma {:induction false} ThenFromFront(trace: Trace, r: Request, n: nat)
    requires n > 0
    ensures Then(trace, r, n) == Then(trace + [r], r, n - 1)
  {
    if n > 1 {
      ThenFromFront(trace, r, n - 1);
    }
  }

  lemma {:induction false} ThenIsOrdered(trace: Trace, r: Request, n: nat)
    requires Ordered(trace) && trace != [] && Last(trace).at <= r.at
    ensures Ordered(Then(trace, r, n)) && Then(trace, r, n) != [] && Last(Then(trace, r, n)).at <= r.at
  {
    if n > 0 {
      ThenIsOrdered(trace, r, n - 1);
      OrderedSnoc(Then(trace, r, n - 1), r);
    }
  }

  lemma OrderedSnoc(trace: Trace, r: Request)
    requires Ordered(trace) && trace != [] && Last(trace).at <= r.at
    ensures Ordered(trace + [r])
  {
    forall i | 0 <= i < |trace| ensures trace[i].at <= r.at {
      assert i < |trace| - 1 ==> trace[i].at <= trace[|trace| - 1].at;
    }
  }

  lemma FirstRequest(c: Config, r: Request, lo: int, hi: int)
    requires r.path !in EXEMPT_PATHS && r.at < lo
    ensures Stands(c, [r], r.caller, Key(1, r.at + c.window), lo, hi, 0) && Ordered([r])
  {
    assert Init([r]) == [] && Last([r]) == r;
    assert After(c, []) == map[] && Admitted(c, [], r.caller, lo, hi) == 0;
  }

  lemma WorstIsOrdered(c: Config, caller: Caller, path: string)
    requires c.window > 1
    ensures Ordered(Worst(c, caller, path))
  {
    var first, late := Request(0, path, caller), Request(c.window - 1, path, caller);
    var next := Request(c.window, path, caller);
    ThenIsOrdered([first], late, Less1(c.max));
    ThenIsOrdered(Then([first], late, Less1(c.max)), next, c.max);
  }

  /** The two later bursts, after whatever stands of the first request. */
  lemma TwoBursts(c: Config, trace: Trace, late: Request, next: Request, lo: int, hi: int)
    requires c.window > 1 && c.max > 0 && late.path !in EXEMPT_PATHS && next.path !in EXEMPT_PATHS
    requires late.caller == next.caller && late.at == c.window - 1 && next.at == c.window
    requires lo <= late.at && next.at < hi
    requires Stands(c, trace, late.caller, Key(1, c.window), lo, hi, 0)
    ensures Admitted(c, Then(Then(trace, late, c.max - 1), next, c.max), late.caller, lo, hi) == Bound(c)
  {
    LiveBurst(c, trace, late, c.max - 1, lo, hi, Key(1, c.window), 0);
    FreshBurst(c, Then(trace, late, c.max - 1), next, c.max, lo, hi, Key(c.max, c.window), c.max - 1);
  }

  /** 2M - 1 can be had: no smaller bound holds of every trace. */
  lemma BoundIsAttained(c: Config, caller: Caller, path: string)
    requires c.window > 1 && c.max > 0 && path !in EXEMPT_PATHS
    ensures Ordered(Worst(c, caller, path))
    ensures Admitted(c, Worst(c, caller, path), caller, c.window - 1, 2 * c.window - 1) == Bound(c)
  {
    WorstIsOrdered(c, caller, path);
    FirstRequest(c, Request(0, path, caller), c.window - 1, 2 * c.window - 1);
    TwoBursts(c, [Request(0, path, caller)], Request(c.window - 1, path, caller), Request(c.window, path, caller),
              c.window - 1, 2 * c.window - 1);
  }

  // ---------------------------------------------------------------- waiting, and other callers

  /** A rejected caller who then stays quiet for the advertised time is let through. */
  lemma RetryAfterIsEnough(c: Config, before: Trace, rejected: Request, quiet: Trace, again: Request)
    requires c.window > 0 && c.max > 0
    requires Ordered(before + [rejected] + quiet + [again])
    requires LastVerdict(c, before + [rejected]).TooMany?
    requires Counts(again, rejected.caller)
    requires forall i :: 0 <= i < |quiet| ==> !Counts(quiet[i], rejected.caller)
    requires again.at >= rejected.at + LastVerdict(c, before + [rejected]).retryAfter
    ensures LastVerdict(c, before + [rejected] + quiet + [again]) == Passed
  {
    var caller, t := rejected.caller, before + [rejected];
    assert forall i :: 0 <= i < |t| ==> t[i] == (t + quiet + [again])[i];
    EveryTraceTallies(c, t, caller);
    assert Init(t) == before && Last(t) == rejected;
    QuietKeepsKey(c, t, quiet, caller);
    assert Init(t + quiet + [again]) == t + quiet;
  }

  lemma {:induction false} QuietKeepsKey(c: Config, trace: Trace, quiet: Trace, caller: Caller)
    requires caller in After(c, trace)
    requires forall i :: 0 <= i < |quiet| ==> !Counts(quiet[i], caller)
    ensures caller in After(c, trace + quiet) && After(c, trace + quiet)[caller] == After(c, trace)[caller]
  {
    if quiet == [] {
      assert trace + quiet == trace;
    } else {
      QuietKeepsKey(c, trace, Init(quiet), caller);
      assert Init(trace + quiet) == trace + Init(quiet) && Last(trace + quiet) == Last(quiet);
    }
  }

  /** The caller's own counted requests. */
  function Own(trace: Trace, caller: Caller): Trace {
    if trace == [] then [] else Own(Init(trace), caller) + if Counts(Last(trace), caller) then [Last(trace)] else []
  }

  lemma {:induction false} OwnDecides(c: Config, trace: Trace, caller: Caller)
    ensures caller in After(c, trace) <==> caller in After(c, Own(trace, caller))
    ensures caller in After(c, trace) ==> After(c, trace)[caller] == After(c, Own(trace, caller))[caller]
  {
    if trace != [] {
      OwnDecides(c, Init(trace), caller);
      var own := Own(Init(trace), caller);
      if Counts(Last(trace), caller) {
        assert Init(own + [Last(trace)]) == own;
      } else {
        assert own + [] == own;
      }
    }
  }

  /** Callers do not affect each other: two histories alike in one caller's requests answer its next
      one alike. */
  lemma CallersAreIndependent(c: Config, trace: Trace, trace': Trace, r: Request)
    requires Own(trace, r.caller) == Own(trace', r.caller)
    ensures LastVerdict(c, trace + [r]) == LastVerdict(c, trace' + [r])
  {
    OwnDecides(c, trace, r.caller);
    OwnDecides(c, trace', r.caller);
    assert Init(trace + [r]) == trace && Init(trace' + [r]) == trace';
  }

  // ---------------------------------------------------------------- with the caller read from the header

  /** A request as it was sent: with any header, through proxies that appended their peers, the first
      of which is the address the sender really has. */
  datatype Sent = Sent(at: int, path: string, forwarded: Option<string>, peers: seq<string>, tcpPeer: Option<string>)

  function Received(s: Sent, isIp: string -> bool): Request {
    Request(s.at, s.path, ClientIp.Seen(|s.peers|, s.tcpPeer, s.forwarded, s.peers, isIp))
  }

  /** The trace the limiter sees. */
  ghost predicate ReceivedAs(sent: seq<Sent>, trace: Trace, isIp: string -> bool) {
    |trace| == |sent| && forall i :: 0 <= i < |sent| ==> trace[i] == Received(sent[i], isIp)
  }

  predicate From(s: Sent, sender: string) {
    s.peers != [] && s.peers[0] == sender
  }

  /** How many of the counted requests really sent from `sender` were let through. */
  function AdmittedFrom(c: Config, sent: seq<Sent>, trace: Trace, sender: string, lo: int, hi: int): nat
    requires |sent| == |trace|
  {
    if sent == [] then 0
    else
      var last := sent[|sent| - 1];
      AdmittedFrom(c, sent[..|sent| - 1], Init(trace), sender, lo, hi) +
      if From(last, sender) && last.path !in EXEMPT_PATHS && lo <= last.at < hi &&
        LastVerdict(c, trace).Passed? then 1 else 0
  }

  /** The `i`-th request was really sent from `sender`, whatever its header says, counted, and let through. */
  predicate SentThrough(c: Config, sent: seq<Sent>, trace: Trace, sender: string, lo: int, hi: int, i: nat)
    requires |sent| == |trace|
  {
    && i < |sent| && From(sent[i], sender) && sent[i].path !in EXEMPT_PATHS && lo <= sent[i].at < hi
    && LastVerdict(c, trace[..i + 1]).Passed?
  }

  /** Who is counted as sent from `sender` and let through. */
  lemma {:induction false} AdmittedFromAre(c: Config, sent: seq<Sent>, trace: Trace, sender: string,
                                           lo: int, hi: int, n: nat)
    requires |sent| == |trace| && n <= |sent|
    ensures AdmittedFrom(c, sent[..n], trace[..n], sender, lo, hi) ==
            |Those((i: nat) => SentThrough(c, sent, trace, sender, lo, hi, i), n)|
  {
    CountGoesUp((i: nat) => SentThrough(c, sent, trace, sender, lo, hi, i), if n > 0 then n - 1 else 0);
    if n > 0 {
      AdmittedFromAre(c, sent, trace, sender, lo, hi, n - 1);
      OneMoreSent(c, sent, trace, sender, lo, hi, n - 1);
    }
  }

  lemma OneMoreSent(c: Config, sent: seq<Sent>, trace: Trace, sender: string, lo: int, hi: int, n: nat)
    requires |sent| == |trace| && n < |sent|
    ensures AdmittedFrom(c, sent[..n + 1], trace[..n + 1], sender, lo, hi) ==
            AdmittedFrom(c, sent[..n], trace[..n], sender, lo, hi) +
            if SentThrough(c, sent, trace, sender, lo, hi, n) then 1 else 0
  {
    assert sent[..n + 1][..n] == sent[..n] && Init(trace[..n + 1]) == trace[..n];
  }

  /** No choice of header buys a sender more than the bound, with the proxy count set right. */
  lemma HeadersBuyNothing(c: Config, sent: seq<Sent>, trace: Trace, sender: string, lo: int, isIp: string -> bool)
    requires c.window > 0 && isIp(sender)
    requires forall i :: 0 <= i < |sent| ==> sent[i].peers != [] && ClientIp.AllPlain(sent[i].peers)
    requires ReceivedAs(sent, trace, isIp) && Ordered(trace)
    ensures AdmittedFrom(c, sent, trace, sender, lo, lo + c.window) <= Bound(c)
  {
    forall i | 0 <= i < |sent| ensures TakenFor(sent[i], trace[i], sender) {
      SenderIsTheCaller(sent[i], sender, isIp);
    }
    FewerFrom(c, sent, trace, sender, lo, lo + c.window);
    AdmittedIsBounded(c, trace, sender, lo);
  }

  /** A request of the sender's is counted as the sender's. */
  predicate TakenFor(s: Sent, r: Request, sender: string) {
    r.at == s.at && r.path == s.path && (From(s, sender) ==> r.caller == sender)
  }

  lemma SenderIsTheCaller(s: Sent, sender: string, isIp: string -> bool)
    requires s.peers != [] && ClientIp.AllPlain(s.peers) && isIp(sender)
    ensures TakenFor(s, Received(s, isIp), sender)
  {
    if s.peers[0] == sender {
      ClientIp.FirstProxySawTheCaller(s.tcpPeer, s.forwarded, s.peers, isIp);
    }
  }

  lemma {:induction false} FewerFrom(c: Config, sent: seq<Sent>, trace: Trace, sender: string, lo: int, hi: int)
    requires |sent| == |trace| && forall i :: 0 <= i < |sent| ==> TakenFor(sent[i], trace[i], sender)
    ensures AdmittedFrom(c, sent, trace, sender, lo, hi) <= Admitted(c, trace, sender, lo, hi)
  {
    if sent != [] {
      FewerFrom(c, sent[..|sent| - 1], Init(trace), sender, lo, hi);
      assert TakenFor(sent[|sent| - 1], Last(trace), sender);
    }
  }
}
