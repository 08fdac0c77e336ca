/** scripts/import_experiment_0.py: a workbook of sites and deliveries written as records.

    Each loop of the import is a method, and each dictionary it fills is told by what it holds. What an
    address resolves to is a parameter: a location, or none. Record ids are numbers given out in order. */
module WorkbookImport {
  import opened Counting
  import opened Wrappers

  type Location = string

  datatype Site = Site(
    id: string,
    account: Option<string>,
    business: Option<string>,
    address: Option<string>,
    isPickup: bool,
    sharesWith: seq<string>,
    deliveriesInData: int)

  /** A delivery row; its times as far as they parse. */
  datatype Delivery = Delivery(
    date: string,
    driver: string,
    manifest: Option<string>,
    account: string,
    arrived: Option<int>,
    delivered: Option<int>)

  datatype Kind = Pickup | Dropoff

  datatype Source = RouteExport | SiteCounts

  /** `driver` is the number a row's driver is known by; a counted delivery has none. */
  datatype Stop = Stop(route: nat, kind: Kind, sequence: nat, point: Option<nat>, source: Source, driver: Option<nat>)

  type Tag = (Source, Kind)

  /** `stops` counts the stops written, by source and kind. */
  datatype Report = Report(
    locations: nat,
    addressShares: nat,
    deliveryRows: nat,
    unparsedTimes: nat,
    countedDeliveries: nat,
    stops: map<Tag, nat>)

  // ---------------------------------------------------------------- numbering by first appearance

  /** `d.setdefault(x, len(d))` over the first `n` of `xs`. */
  function Numbered(xs: seq<string>, n: nat): map<string, nat>
    requires n <= |xs|
  {
    if n == 0 then map[]
    else
      var before := Numbered(xs, n - 1);
      if xs[n - 1] in before then before else before[xs[n - 1] := |before|]
  }

  function Enumerate(xs: seq<string>): map<string, nat> {
    Numbered(xs, |xs|)
  }

  /** Each element has a number of its own, less than how many there are. */
  lemma NumbersAreOwn(xs: seq<string>, n: nat)
    requires n <= |xs|
    ensures var m := Numbered(xs, n);
      && (forall i :: 0 <= i < n ==> xs[i] in m)
      && (forall x :: x in m ==> x in xs && m[x] < |m|)
      && (forall x, y :: x in m && y in m && m[x] == m[y] ==> x == y)
  {
    AllAreNumbered(xs, n);
    NumbersDiffer(xs, n);
  }

  lemma {:induction false} AllAreNumbered(xs: seq<string>, n: nat)
    requires n <= |xs|
    ensures var m := Numbered(xs, n);
      (forall i :: 0 <= i < n ==> xs[i] in m) && forall x :: x in m ==> x in xs && m[x] < |m|
  {
    if n > 0 {
      AllAreNumbered(xs, n - 1);
    }
  }

  lemma {:induction false} NumbersDiffer(xs: seq<string>, n: nat)
    requires n <= |xs|
    ensures forall x, y :: x in Numbered(xs, n) && y in Numbered(xs, n) && Numbered(xs, n)[x] == Numbered(xs, n)[y] ==>
      x == y
  {
    if n > 0 {
      AllAreNumbered(xs, n - 1);
      NumbersDiffer(xs, n - 1);
    }
  }

  ghost predicate Given(m: map<string, nat>, n: nat) {
    exists x :: x in m && m[x] == n
  }

  /** Every number up to how many there are is given. */
  lemma {:induction false} NoNumberIsSkipped(xs: seq<string>, n: nat, k: nat)
    requires n <= |xs| && k < |Numbered(xs, n)|
    ensures Given(Numbered(xs, n), k)
  {
    if n > 0 {
      var before, m := Numbered(xs, n - 1), Numbered(xs, n);
      if k < |before| {
        NoNumberIsSkipped(xs, n - 1, k);
        var y :| y in before && before[y] == k;
        NumbersStay(xs, n - 1, n);
        assert y in m && m[y] == k;
      } else {
        assert xs[n - 1] in m && m[xs[n - 1]] == k;
      }
    }
  }

  /** A number once given stays, and the elements first seen later get later numbers. */
  lemma {:induction false} NumbersStay(xs: seq<string>, i: nat, n: nat)
    requires i <= n <= |xs|
    ensures var first, all := Numbered(xs, i), Numbered(xs, n);
      && (forall x :: x in first ==> x in all && all[x] == first[x])
      && (forall x :: x in all && x !in first ==> |first| <= all[x])
      && |first| <= |all|
    decreases n
  {
    if i < n {
      NumbersStay(xs, i, n - 1);
    }
  }

  lemma {:induction false} NumberedByPrefix(xs: seq<string>, ys: seq<string>, n: nat)
    requires n <= |xs| && n <= |ys| && forall i :: 0 <= i < n ==> xs[i] == ys[i]
    ensures Numbered(xs, n) == Numbered(ys, n)
  {
    if n > 0 {
      NumberedByPrefix(xs, ys, n - 1);
    }
  }

  /** One `setdefault`: what the dictionary then holds, and the number it gives, which is for good. */
  method SetDefault(ghost xs: seq<string>, ghost i: nat, x: string, m: map<string, nat>)
    returns (m': map<string, nat>, n: nat)
    requires i < |xs| && x == xs[i] && m == Numbered(xs, i)
    ensures m' == Numbered(xs, i + 1) && Lookup(Enumerate(xs), x) == Some(n)
  {
    NumbersStay(xs, i + 1, |xs|);
    m' := m;
    if x !in m' {
      m' := m'[x := |m'|];
    }
    n := m'[x];
  }

  function Lookup<V>(m: map<string, V>, k: string): Option<V> {
    if k in m then Some(m[k]) else None
  }

  // ---------------------------------------------------------------- sites

  function Located(site: Site, resolve: string -> Option<Location>): Option<Location> {
    if site.address.Some? then resolve(site.address.value) else None
  }

  /** Where a site id is: the last site of that id that is anywhere. */
  function LocationOf(sites: seq<Site>, resolve: string -> Option<Location>, id: string): Option<Location> {
    if sites == [] then None
    else
      var last := sites[|sites| - 1];
      if last.id == id && Located(last, resolve).Some? then Located(last, resolve)
      else LocationOf(sites[..|sites| - 1], resolve, id)
  }

  /** The locations of the sites that have one, in file order. */
  function Places(sites: seq<Site>, resolve: string -> Option<Location>): seq<Location> {
    if sites == [] then []
    else
      Places(sites[..|sites| - 1], resolve) +
      match Located(sites[|sites| - 1], resolve) case Some(l) => [l] case None => []
  }

  /** Every located site has the handoff point of its location. */
  ghost predicate Placed(sites: seq<Site>, resolve: string -> Option<Location>,
                         locations: map<string, Location>, points: map<Location, nat>, pointForSite: map<string, nat>)
  {
    && points == Enumerate(Places(sites, resolve))
    && (forall id :: Lookup(locations, id) == LocationOf(sites, resolve, id))
    && Pointed(locations, points, pointForSite)
  }

  ghost predicate Pointed(locations: map<string, Location>, points: map<Location, nat>,
                          pointForSite: map<string, nat>)
  {
    && pointForSite.Keys == locations.Keys
    && forall id :: id in locations ==> Lookup(points, locations[id]) == Some(pointForSite[id])
  }

  lemma OneMoreLocation(before: seq<Site>, site: Site, resolve: string -> Option<Location>, id: string)
    ensures Places(before + [site], resolve) ==
      if Located(site, resolve).Some? then Places(before, resolve) + [Located(site, resolve).value]
      else Places(before, resolve)
    ensures LocationOf(before + [site], resolve, id) ==
      if site.id == id && Located(site, resolve).Some? then Located(site, resolve) else LocationOf(before, resolve, id)
  {
    assert (before + [site])[..|before|] == before;
    assert Places(before, resolve) + [] == Places(before, resolve);
  }

  /** The handoff point of a location: made when it is the first of it. */
  method PointOf(ghost places: seq<Location>, location: Location, points: map<Location, nat>)
    returns (points': map<Location, nat>, n: nat)
    requires points == Enumerate(places)
    ensures points' == Enumerate(places + [location]) && Lookup(points', location) == Some(n)
    ensures forall l :: l in points ==> Lookup(points', l) == Some(points[l])
  {
    NumberedByPrefix(places, places + [location], |places|);
    NumbersStay(places + [location], |places|, |places| + 1);
    points', n := SetDefault(places + [location], |places|, location, points);
  }

  method PlaceSite(ghost before: seq<Site>, site: Site, resolve: string -> Option<Location>,
                   locations: map<string, Location>, points: map<Location, nat>, pointForSite: map<string, nat>)
    returns (locations': map<string, Location>, points': map<Location, nat>, pointForSite': map<string, nat>)
    requires Placed(before, resolve, locations, points, pointForSite)
    ensures Placed(before + [site], resolve, locations', points', pointForSite')
  {
    locations', points', pointForSite' := locations, points, pointForSite;
    var location := Located(site, resolve);
    OneMoreLocation(before, site, resolve, site.id);
    forall id ensures LocationOf(before + [site], resolve, id) ==
        if site.id == id && location.Some? then location else LocationOf(before, resolve, id)
    {
      OneMoreLocation(before, site, resolve, id);
    }
    if location.Some? {
      var n;
      points', n := PointOf(Places(before, resolve), location.value, points);
      locations' := locations[site.id := location.value];
      pointForSite' := pointForSite[site.id := n];
    }
  }

  method PlaceSites(sites: seq<Site>, resolve: string -> Option<Location>)
    returns (locations: map<string, Location>, points: map<Location, nat>, pointForSite: map<string, nat>)
    ensures Placed(sites, resolve, locations, points, pointForSite)
  {
    locations, points, pointForSite := map[], map[], map[];
    for i := 0 to |sites|
      invariant Placed(sites[..i], resolve, locations, points, pointForSite)
    {
      assert sites[..i + 1] == sites[..i] + [sites[i]];
      locations, points, pointForSite := PlaceSite(sites[..i], sites[i], resolve, locations, points, pointForSite);
    }
    assert sites[..|sites|] == sites;
  }

  /** Two sites have one handoff point exactly when they are at one location. */
  lemma OnePointPerLocation(sites: seq<Site>, resolve: string -> Option<Location>, locations: map<string, Location>,
                            points: map<Location, nat>, pointForSite: map<string, nat>, a: string, b: string)
    requires Placed(sites, resolve, locations, points, pointForSite)
    ensures Lookup(pointForSite, a).Some? <==> LocationOf(sites, resolve, a).Some?
    ensures Lookup(pointForSite, a) == Lookup(pointForSite, b) <==>
      LocationOf(sites, resolve, a) == LocationOf(sites, resolve, b)
  {
    NumbersAreOwn(Places(sites, resolve), |Places(sites, resolve)|);
    assert Lookup(locations, a) == LocationOf(sites, resolve, a) &&
      Lookup(locations, b) == LocationOf(sites, resolve, b);
  }

  /** The last site of that business. */
  function ByBusiness(sites: seq<Site>, name: string): Option<Site> {
    if sites == [] then None
    else if sites[|sites| - 1].business == Some(name) then Some(sites[|sites| - 1])
    else ByBusiness(sites[..|sites| - 1], name)
  }

  /** Some site at `p.0` says it shares its address with a business at `p.1`, a different location. */
  ghost predicate IsPair(sites: seq<Site>, from: seq<Site>, locations: map<string, Location>, p: (Location, Location)) {
    p.0 != p.1 && exists s, name :: s in from && name in s.sharesWith && Shares(sites, locations, s, name, p)
  }

  predicate Shares(sites: seq<Site>, locations: map<string, Location>, s: Site, name: string, p: (Location, Location)) {
    Lookup(locations, s.id) == Some(p.0) &&
    ByBusiness(sites, name).Some? && Lookup(locations, ByBusiness(sites, name).value.id) == Some(p.1)
  }

  method IndexBusinesses(sites: seq<Site>) returns (byBusiness: map<string, Site>)
    ensures forall name :: Lookup(byBusiness, name) == ByBusiness(sites, name)
  {
    byBusiness := map[];
    for i := 0 to |sites|
      invariant forall name :: Lookup(byBusiness, name) == ByBusiness(sites[..i], name)
    {
      assert sites[..i + 1][..i] == sites[..i];
      if sites[i].business.Some? {
        byBusiness := byBusiness[sites[i].business.value := sites[i]];
      }
    }
    assert sites[..|sites|] == sites;
  }

  method PairAddresses(sites: seq<Site>, locations: map<string, Location>) returns (pairs: set<(Location, Location)>)
    ensures forall p :: p in pairs <==> IsPair(sites, sites, locations, p)
  {
    var byBusiness := IndexBusinesses(sites);
    pairs := {};
    for i := 0 to |sites|
      invariant forall p :: p in pairs <==> IsPair(sites, sites[..i], locations, p)
    {
      var s := sites[i];
      ghost var before := pairs;
      for j := 0 to |s.sharesWith|
        invariant forall p :: p in pairs <==>
          p in before || (p.0 != p.1 && exists k :: 0 <= k < j && Shares(sites, locations, s, s.sharesWith[k], p))
      {
        var name := s.sharesWith[j];
        assert Lookup(byBusiness, name) == ByBusiness(sites, name);
        if s.id in locations && name in byBusiness && byBusiness[name].id in locations {
          var p := (locations[s.id], locations[byBusiness[name].id]);
          if p.1 != p.0 {
            pairs := pairs + {p};
          }
        }
      }
      assert sites[..i + 1] == sites[..i] + [s];
      forall p ensures p in pairs <==> IsPair(sites, sites[..i + 1], locations, p) {
        PairsOfOneMore(sites, sites[..i], s, locations, p);
      }
    }
    assert sites[..|sites|] == sites;
  }

  lemma PairsOfOneMore(sites: seq<Site>, from: seq<Site>, s: Site, locations: map<string, Location>,
                       p: (Location, Location))
    ensures IsPair(sites, from + [s], locations, p) <==>
      IsPair(sites, from, locations, p) ||
      (p.0 != p.1 && exists k :: 0 <= k < |s.sharesWith| && Shares(sites, locations, s, s.sharesWith[k], p))
  {
    if k :| 0 <= k < |s.sharesWith| && Shares(sites, locations, s, s.sharesWith[k], p) {
      assert s in from + [s] && s.sharesWith[k] in s.sharesWith;
    }
    if t, name :| t in from && name in t.sharesWith && Shares(sites, locations, t, name, p) {
      assert t in from + [s];
    }
    if t, name :| t in from + [s] && name in t.sharesWith && Shares(sites, locations, t, name, p) {
      assert t in from || t == s;
    }
  }

  // ---------------------------------------------------------------- deliveries with rows

  function Decimal(n: nat): (s: string)
    ensures |s| > 0 && forall i :: 0 <= i < |s| ==> '0' <= s[i] <= '9'
  {
    var digit := ['0' + (n % 10) as char];
    if n < 10 then digit else Decimal(n / 10) + digit
  }

  /** What a route is called: its manifest, or its day and driver. */
  function RouteName(d: Delivery, number: nat): string {
    if d.manifest.Some? then d.manifest.value else RunName(d.date, number)
  }

  function RunName(date: string, number: nat): string {
    date + " / driver " + Decimal(number)
  }

  function Drivers(ds: seq<Delivery>): (r: seq<string>)
    ensures |r| == |ds| && forall i :: 0 <= i < |ds| ==> r[i] == ds[i].driver
  {
    seq(|ds|, i requires 0 <= i < |ds| => ds[i].driver)
  }

  /** The number a driver goes by: from 1, by first appearance. */
  function Number(ds: seq<Delivery>, i: nat): nat
    requires i < |ds|
  {
    NumbersAreOwn(Drivers(ds), |ds|);
    Enumerate(Drivers(ds))[Drivers(ds)[i]] + 1
  }

  /** The name of each row's route. */
  function Names(ds: seq<Delivery>): (r: seq<string>)
    ensures |r| == |ds| && forall i :: 0 <= i < |ds| ==> r[i] == RouteName(ds[i], Number(ds, i))
  {
    seq(|ds|, i requires 0 <= i < |ds| => RouteName(ds[i], Number(ds, i)))
  }

  /** How many of the first `n` rows go by the name `x`. */
  function Rows(names: seq<string>, x: string, n: nat): nat
    requires n <= |names|
  {
    if n == 0 then 0 else Rows(names, x, n - 1) + if names[n - 1] == x then 1 else 0
  }

  /** A row's place on its route: how many rows of the route there are up to it. */
  function Place(names: seq<string>, i: nat): nat
    requires i < |names|
  {
    Rows(names, names[i], i + 1)
  }

  /** A Python `Counter`: what was never counted is 0. */
  function Count<K>(m: map<K, nat>, x: K): nat {
    if x in m then m[x] else 0
  }

  ghost predicate Counts(m: map<string, nat>, names: seq<string>, n: nat)
    requires n <= |names|
  {
    forall x :: Count(m, x) == Rows(names, x, n)
  }

  function ByAccount(sites: seq<Site>, account: string): Option<Site> {
    if sites == [] then None
    else if sites[|sites| - 1].account == Some(account) then Some(sites[|sites| - 1])
    else ByAccount(sites[..|sites| - 1], account)
  }

  function KindAt(site: Option<Site>): Kind {
    if site.Some? && site.value.isPickup then Pickup else Dropoff
  }

  function PointAt(site: Option<Site>, pointForSite: map<string, nat>): Option<nat> {
    if site.Some? then Lookup(pointForSite, site.value.id) else None
  }

  /** How many of the first `n` rows lack a time. */
  function Unparsed(ds: seq<Delivery>, n: nat): nat
    requires n <= |ds|
  {
    if n == 0 then 0
    else Unparsed(ds, n - 1) + if ds[n - 1].arrived.None? || ds[n - 1].delivered.None? then 1 else 0
  }

  /** The stop each row becomes. */
  ghost predicate RowStops(stops: seq<Stop>, ds: seq<Delivery>, sites: seq<Site>, pointForSite: map<string, nat>) {
    |stops| == |ds| && StopsSoFar(stops, ds, sites, pointForSite)
  }

  ghost predicate StopsSoFar(stops: seq<Stop>, ds: seq<Delivery>, sites: seq<Site>, pointForSite: map<string, nat>) {
    |stops| <= |ds| && forall i :: 0 <= i < |stops| ==> StopFor(stops[i], ds, i, sites, pointForSite)
  }

  ghost predicate StopFor(stop: Stop, ds: seq<Delivery>, i: nat, sites: seq<Site>, pointForSite: map<string, nat>)
    requires i < |ds|
  {
    IsRowStop(stop, Names(ds), i, Number(ds, i), ByAccount(sites, ds[i].account), pointForSite)
  }

  ghost predicate IsRowStop(stop: Stop, names: seq<string>, i: nat, number: nat, site: Option<Site>,
                            pointForSite: map<string, nat>)
    requires i < |names|
  {
    && Lookup(Enumerate(names), names[i]) == Some(stop.route) && stop.sequence == Place(names, i)
    && stop.kind == KindAt(site) && stop.point == PointAt(site, pointForSite)
    && stop.source == RouteExport && stop.driver == Some(number)
  }

  function TagOf(stop: Stop): Tag {
    (stop.source, stop.kind)
  }

  /** How many of the first `n` stops bear the tag. */
  function Tagged(stops: seq<Stop>, t: Tag, n: nat): nat
    requires n <= |stops|
  {
    if n == 0 then 0 else Tagged(stops, t, n - 1) + if TagOf(stops[n - 1]) == t then 1 else 0
  }

  ghost predicate Tallies(counts: map<Tag, nat>, stops: seq<Stop>) {
    forall t :: Count(counts, t) == Tagged(stops, t, |stops|)
  }

  lemma {:induction false} TaggedByPrefix(stops: seq<Stop>, more: seq<Stop>, t: Tag, n: nat)
    requires n <= |stops| && stops <= more
    ensures Tagged(stops, t, n) == Tagged(more, t, n)
  {
    if n > 0 {
      TaggedByPrefix(stops, more, t, n - 1);
    }
  }

  /** A stop added to the session, and to the report. */
  method Write(stops: seq<Stop>, counts: map<Tag, nat>, stop: Stop) returns (stops': seq<Stop>, counts': map<Tag, nat>)
    requires Tallies(counts, stops)
    ensures stops' == stops + [stop] && Tallies(counts', stops')
  {
    stops', counts' := stops + [stop], counts[TagOf(stop) := Count(counts, TagOf(stop)) + 1];
    forall t ensures Count(counts', t) == Tagged(stops', t, |stops'|) {
      TaggedByPrefix(stops, stops', t, |stops|);
      assert Count(counts, t) == Tagged(stops, t, |stops|);
    }
  }

  method IndexAccounts(sites: seq<Site>) returns (byAccount: map<string, Site>)
    ensures forall a :: Lookup(byAccount, a) == ByAccount(sites, a)
  {
    byAccount := map[];
    for i := 0 to |sites|
      invariant forall a :: Lookup(byAccount, a) == ByAccount(sites[..i], a)
    {
      assert sites[..i + 1][..i] == sites[..i];
      if sites[i].account.Some? {
        byAccount := byAccount[sites[i].account.value := sites[i]];
      }
    }
    assert sites[..|sites|] == sites;
  }

  /** A row's route, made when it is the first of its name, and its stop on it. */
  method AddStop(ghost names: seq<string>, ghost i: nat, key: string, number: nat, routes: map<string, nat>,
                 sequence: map<string, nat>, site: Option<Site>, pointForSite: map<string, nat>)
    returns (stop: Stop, routes': map<string, nat>, sequence': map<string, nat>)
    requires i < |names| && key == names[i] && routes == Numbered(names, i) && Counts(sequence, names, i)
    ensures IsRowStop(stop, names, i, number, site, pointForSite)
    ensures routes' == Numbered(names, i + 1) && Counts(sequence', names, i + 1)
  {
    var route;
    routes', route := SetDefault(names, i, key, routes);
    sequence' := sequence[key := Count(sequence, key) + 1];
    forall x ensures Count(sequence', x) == Rows(names, x, i + 1) {
      assert Count(sequence, x) == Rows(names, x, i);
    }
    stop := Stop(route, KindAt(site), sequence'[key], PointAt(site, pointForSite), RouteExport, Some(number));
  }

  /** What the three dictionaries hold after `i` rows. */
  ghost predicate KnownAfter(ds: seq<Delivery>, i: nat, numbers: map<string, nat>, routes: map<string, nat>,
                             sequence: map<string, nat>)
    requires i <= |ds|
  {
    numbers == Numbered(Drivers(ds), i) && routes == Numbered(Names(ds), i) && Counts(sequence, Names(ds), i)
  }

  method ImportRow(ghost ds: seq<Delivery>, ghost i: nat, d: Delivery, site: Option<Site>, ghost sites: seq<Site>,
                   pointForSite: map<string, nat>, numbers: map<string, nat>, routes: map<string, nat>,
                   sequence: map<string, nat>)
    returns (stop: Stop, numbers': map<string, nat>, routes': map<string, nat>, sequence': map<string, nat>)
    requires i < |ds| && d == ds[i] && site == ByAccount(sites, d.account) &&
      KnownAfter(ds, i, numbers, routes, sequence)
    ensures StopFor(stop, ds, i, sites, pointForSite) && KnownAfter(ds, i + 1, numbers', routes', sequence')
  {
    var n;
    numbers', n := SetDefault(Drivers(ds), i, d.driver, numbers);
    stop, routes', sequence' := AddStop(Names(ds), i, RouteName(d, n + 1), n + 1, routes, sequence, site, pointForSite);
  }

  lemma OneMoreStop(stops: seq<Stop>, stop: Stop, ds: seq<Delivery>, sites: seq<Site>, pointForSite: map<string, nat>)
    requires |stops| < |ds| && StopsSoFar(stops, ds, sites, pointForSite) &&
      StopFor(stop, ds, |stops|, sites, pointForSite)
    ensures StopsSoFar(stops + [stop], ds, sites, pointForSite)
  {
  }

  /** What is written after `i` rows. */
  ghost predicate WrittenAfter(ds: seq<Delivery>, i: nat, sites: seq<Site>, pointForSite: map<string, nat>,
                               stops: seq<Stop>, counts: map<Tag, nat>, unparsed: nat)
    requires i <= |ds|
  {
    |stops| == i && StopsSoFar(stops, ds, sites, pointForSite) && Tallies(counts, stops) && unparsed == Unparsed(ds, i)
  }

  method WriteRow(ghost ds: seq<Delivery>, ghost i: nat, d: Delivery, stop: Stop, ghost sites: seq<Site>,
                  ghost pointForSite: map<string, nat>, stops: seq<Stop>, counts: map<Tag, nat>, unparsed: nat)
    returns (stops': seq<Stop>, counts': map<Tag, nat>, unparsed': nat)
    requires i < |ds| && d == ds[i] && StopFor(stop, ds, i, sites, pointForSite)
    requires WrittenAfter(ds, i, sites, pointForSite, stops, counts, unparsed)
    ensures WrittenAfter(ds, i + 1, sites, pointForSite, stops', counts', unparsed')
  {
    OneMoreStop(stops, stop, ds, sites, pointForSite);
    stops', counts' := Write(stops, counts, stop);
    unparsed' := if d.arrived.None? || d.delivered.None? then unparsed + 1 else unparsed;
  }

  method ImportDeliveries(ds: seq<Delivery>, sites: seq<Site>, pointForSite: map<string, nat>)
    returns (stops: seq<Stop>, routes: map<string, nat>, counts: map<Tag, nat>, unparsed: nat)
    ensures RowStops(stops, ds, sites, pointForSite) && routes == Enumerate(Names(ds))
    ensures Tallies(counts, stops) && unparsed == Unparsed(ds, |ds|)
  {
    var byAccount := IndexAccounts(sites);
    var numbers: map<string, nat>, sequence: map<string, nat> := map[], map[];
    stops, routes, counts, unparsed := [], map[], map[], 0;
    for i := 0 to |ds|
      invariant KnownAfter(ds, i, numbers, routes, sequence)
      invariant WrittenAfter(ds, i, sites, pointForSite, stops, counts, unparsed)
    {
      var d := ds[i];
      var stop;
      assert Lookup(byAccount, d.account) == ByAccount(sites, d.account);
      stop, numbers, routes, sequence :=
        ImportRow(ds, i, d, Lookup(byAccount, d.account), sites, pointForSite, numbers, routes, sequence);
      stops, counts, unparsed := WriteRow(ds, i, d, stop, sites, pointForSite, stops, counts, unparsed);
    }
  }

  // ---------------------------------------------------------------- deliveries that are only a count

  /** A site's count stands only where its account has no rows. */
  predicate CountStands(s: Site, accounts: set<string>) {
    s.deliveriesInData != 0 && (s.account.None? || s.account.value !in accounts)
  }

  function Counted(sites: seq<Site>, accounts: set<string>): seq<Site> {
    if sites == [] then []
    else (if CountStands(sites[0], accounts) then [sites[0]] else []) + Counted(sites[1..], accounts)
  }

  function Times(s: Site): nat {
    if s.deliveriesInData > 0 then s.deliveriesInData else 0
  }

  /** How many deliveries the first `n` of the sites counted. */
  function Total(counted: seq<Site>, n: nat): nat
    requires n <= |counted|
  {
    if n == 0 then 0 else Total(counted, n - 1) + Times(counted[n - 1])
  }

  function CountedStop(s: Site, route: nat, position: nat, pointForSite: map<string, nat>): Stop {
    Stop(route, KindAt(Some(s)), position, Lookup(pointForSite, s.id), SiteCounts, None)
  }

  /** A site's stops: as many as it counted, one after another from `position`. */
  function SiteStops(s: Site, route: nat, position: nat, pointForSite: map<string, nat>): (r: seq<Stop>)
    ensures |r| == Times(s)
  {
    seq(Times(s), n requires 0 <= n => CountedStop(s, route, position + n + 1, pointForSite))
  }

  /** The stops of the first `n` of the sites. */
  function CountedStops(counted: seq<Site>, n: nat, route: nat, pointForSite: map<string, nat>): seq<Stop>
    requires n <= |counted|
  {
    if n == 0 then []
    else
      CountedStops(counted, n - 1, route, pointForSite) +
      SiteStops(counted[n - 1], route, Total(counted, n - 1), pointForSite)
  }

  /** One site's deliveries, written after the rest. */
  method CountSite(site: Site, route: nat, position: nat, pointForSite: map<string, nat>, stops: seq<Stop>,
                   counts: map<Tag, nat>)
    returns (stops': seq<Stop>, counts': map<Tag, nat>)
    requires Tallies(counts, stops)
    ensures stops' == stops + SiteStops(site, route, position, pointForSite) && Tallies(counts', stops')
  {
    stops', counts' := stops, counts;
    ghost var added := SiteStops(site, route, position, pointForSite);
    for n := 0 to Times(site)
      invariant stops' == stops + added[..n] && Tallies(counts', stops')
    {
      assert stops + added[..n + 1] == stops + added[..n] + [added[n]];
      stops', counts' := Write(stops', counts', CountedStop(site, route, position + n + 1, pointForSite));
    }
    assert added[..Times(site)] == added;
  }

  method ImportCounts(counted: seq<Site>, route: nat, pointForSite: map<string, nat>,
                      rows: seq<Stop>, written: map<Tag, nat>)
    returns (stops: seq<Stop>, counts: map<Tag, nat>, position: nat)
    requires Tallies(written, rows)
    ensures stops == rows + CountedStops(counted, |counted|, route, pointForSite)
    ensures Tallies(counts, stops) && position == Total(counted, |counted|)
  {
    stops, counts, position := rows, written, 0;
    for i := 0 to |counted|
      invariant stops == rows + CountedStops(counted, i, route, pointForSite)
      invariant Tallies(counts, stops) && position == Total(counted, i)
    {
      stops, counts := CountSite(counted[i], route, position, pointForSite, stops, counts);
      position := position + Times(counted[i]);
    }
  }

  function Accounts(ds: seq<Delivery>): set<string> {
    set d | d in ds :: d.account
  }

  function CountedDeliveries(sites: seq<Site>, ds: seq<Delivery>): nat {
    Total(Counted(sites, Accounts(ds)), |Counted(sites, Accounts(ds))|)
  }

  /** `import_workbook`, once it has found no earlier import. */
  method ImportWorkbook(sites: seq<Site>, ds: seq<Delivery>, resolve: string -> Option<Location>)
    returns (report: Report, stops: seq<Stop>, pairs: set<(Location, Location)>,
             ghost rows: seq<Stop>, ghost locations: map<string, Location>, ghost pointAt: map<Location, nat>,
             ghost points: map<string, nat>)
    ensures Placed(sites, resolve, locations, pointAt, points)
    ensures forall p :: p in pairs <==> IsPair(sites, sites, locations, p)
    ensures RowStops(rows, ds, sites, points)
    ensures var counted := Counted(sites, Accounts(ds));
      stops == rows + CountedStops(counted, |counted|, |Enumerate(Names(ds))|, points)
    ensures report ==
      Report(|pointAt|, |pairs|, |ds|, Unparsed(ds, |ds|), CountedDeliveries(sites, ds), report.stops)
    ensures Tallies(report.stops, stops)
  {
    var locationForSite, handoffs, pointForSite := PlaceSites(sites, resolve);
    pairs := PairAddresses(sites, locationForSite);
    var rowStops, routes, written, unparsed := ImportDeliveries(ds, sites, pointForSite);
    var counts, counted;
    stops, counts, counted := ImportCounts(Counted(sites, Accounts(ds)), |routes|, pointForSite, rowStops, written);
    report := Report(|handoffs|, |pairs|, |ds|, unparsed, counted, counts);
    rows, locations, pointAt, points := rowStops, locationForSite, handoffs, pointForSite;
  }

  // ---------------------------------------------------------------- routes

  function Value(s: string): nat
    requires forall i :: 0 <= i < |s| ==> '0' <= s[i] <= '9'
  {
    if s == [] then 0 else Value(s[..|s| - 1]) * 10 + (s[|s| - 1] - '0') as nat
  }

  lemma {:induction false} DecimalReadsBack(n: nat)
    ensures Value(Decimal(n)) == n
  {
    if n < 10 {
      assert Decimal(n)[..0] == [];
    } else {
      DecimalReadsBack(n / 10);
      assert Decimal(n)[..|Decimal(n)| - 1] == Decimal(n / 10);
    }
  }

  /** A run's name tells its day and its driver. */
  lemma RunNameTells(a: string, m: nat, b: string, n: nat)
    requires RunName(a, m) == RunName(b, n)
    ensures a == b && m == n
  {
    NumberIsLast(a, m);
    NumberIsLast(b, n);
    assert Decimal(m) == Decimal(n) by {
      assert |Decimal(m)| == |Decimal(n)|;
    }
    DecimalReadsBack(m);
    DecimalReadsBack(n);
    var s := RunName(a, m);
    assert s[..|a|] == a && s[..|b|] == b;
  }

  /** The number in a made-up name is all that follows its last blank. */
  lemma NumberIsLast(a: string, m: nat)
    ensures var s, k := RunName(a, m), |Decimal(m)|;
      && |s| == |a| + 10 + k && s[|s| - k..] == Decimal(m)
      && s[|s| - k - 1] == ' ' && forall t :: |s| - k <= t < |s| ==> s[t] != ' '
  {
    var s, k := RunName(a, m), |Decimal(m)|;
    assert s[|s| - k..] == Decimal(m);
    forall t | |s| - k <= t < |s| ensures s[t] != ' ' {
      assert s[t] == Decimal(m)[t - (|s| - k)];
    }
  }

  /** Two rows are of one run: the same manifest; the same day and driver where neither has one; or a
      manifest that is, letter for letter, the name made up for a run that has none. */
  predicate SameRun(ds: seq<Delivery>, i: nat, j: nat)
    requires i < |ds| && j < |ds|
  {
    match (ds[i].manifest, ds[j].manifest)
    case (Some(m), Some(n)) => m == n
    case (None, None) => ds[i].date == ds[j].date && ds[i].driver == ds[j].driver
    case (Some(m), None) => m == RunName(ds[j].date, Number(ds, j))
    case (None, Some(n)) => n == RunName(ds[i].date, Number(ds, i))
  }

  lemma SameNumberSameDriver(ds: seq<Delivery>, i: nat, j: nat)
    requires i < |ds| && j < |ds|
    ensures Number(ds, i) == Number(ds, j) <==> ds[i].driver == ds[j].driver
  {
    NumbersAreOwn(Drivers(ds), |ds|);
  }

  lemma SameRouteSameName(stops: seq<Stop>, ds: seq<Delivery>, sites: seq<Site>, points: map<string, nat>, i: nat,
                          j: nat)
    requires i < |ds| && j < |ds| && RowStops(stops, ds, sites, points)
    ensures stops[i].route == stops[j].route <==> Names(ds)[i] == Names(ds)[j]
    ensures stops[i].sequence == Place(Names(ds), i)
  {
    NumbersAreOwn(Names(ds), |ds|);
    assert StopFor(stops[i], ds, i, sites, points) && StopFor(stops[j], ds, j, sites, points);
  }

  /** Two rows become stops of one route exactly when they are of one run. */
  lemma SameRouteIff(stops: seq<Stop>, ds: seq<Delivery>, sites: seq<Site>, points: map<string, nat>, i: nat, j: nat)
    requires i < |ds| && j < |ds| && RowStops(stops, ds, sites, points)
    ensures stops[i].route == stops[j].route <==> SameRun(ds, i, j)
  {
    SameRouteSameName(stops, ds, sites, points, i, j);
    SameNumberSameDriver(ds, i, j);
    if Names(ds)[i] == Names(ds)[j] && ds[i].manifest.None? && ds[j].manifest.None? {
      RunNameTells(ds[i].date, Number(ds, i), ds[j].date, Number(ds, j));
    }
  }

  /** Along each route the sequence numbers go up in file order, none twice. */
  lemma SequencesGoUp(stops: seq<Stop>, ds: seq<Delivery>, sites: seq<Site>, points: map<string, nat>, i: nat, j: nat)
    requires i < j < |ds| && RowStops(stops, ds, sites, points) && stops[i].route == stops[j].route
    ensures 1 <= stops[i].sequence < stops[j].sequence
  {
    SameRouteSameName(stops, ds, sites, points, i, j);
    SameRouteSameName(stops, ds, sites, points, j, i);
    PlacesGoUp(Names(ds), i, j);
  }

  /** And none is left out: below a stop's number, down to 1, each belongs to an earlier stop of the route. */
  lemma SequencesSkipNone(stops: seq<Stop>, ds: seq<Delivery>, sites: seq<Site>, points: map<string, nat>, j: nat,
                          k: nat)
    returns (i: nat)
    requires j < |ds| && RowStops(stops, ds, sites, points) && 1 <= k <= stops[j].sequence
    ensures i <= j && stops[i].route == stops[j].route && stops[i].sequence == k
  {
    SameRouteSameName(stops, ds, sites, points, j, j);
    i := EveryPlaceIsTaken(Names(ds), Names(ds)[j], j + 1, k);
    SameRouteSameName(stops, ds, sites, points, i, j);
  }

  lemma PlacesGoUp(names: seq<string>, i: nat, j: nat)
    requires i < j < |names| && names[i] == names[j]
    ensures 1 <= Place(names, i) < Place(names, j)
  {
    RowsGrow(names, names[i], i + 1, j);
  }

  lemma {:induction false} RowsGrow(names: seq<string>, x: string, i: nat, n: nat)
    requires i <= n <= |names|
    ensures Rows(names, x, i) <= Rows(names, x, n)
    decreases n
  {
    if i < n {
      RowsGrow(names, x, i, n - 1);
    }
  }

  lemma {:induction false} EveryPlaceIsTaken(names: seq<string>, x: string, n: nat, k: nat) returns (i: nat)
    requires n <= |names| && 1 <= k <= Rows(names, x, n)
    ensures i < n && names[i] == x && Place(names, i) == k
  {
    if k <= Rows(names, x, n - 1) {
      i := EveryPlaceIsTaken(names, x, n - 1, k);
    } else {
      i := n - 1;
    }
  }

  // ---------------------------------------------------------------- conservation

  function OfSource(counts: map<Tag, nat>, source: Source): nat {
    Count(counts, (source, Pickup)) + Count(counts, (source, Dropoff))
  }

  function From(stops: seq<Stop>, source: Source, n: nat): nat
    requires n <= |stops|
  {
    if n == 0 then 0 else From(stops, source, n - 1) + if stops[n - 1].source == source then 1 else 0
  }

  lemma {:induction false} TaggedEitherKind(stops: seq<Stop>, source: Source, n: nat)
    requires n <= |stops|
    ensures Tagged(stops, (source, Pickup), n) + Tagged(stops, (source, Dropoff), n) == From(stops, source, n)
  {
    if n > 0 {
      TaggedEitherKind(stops, source, n - 1);
      var kind := stops[n - 1].kind;
      assert kind == Pickup || kind == Dropoff;
    }
  }

  lemma {:induction false} FromOneThenOther(stops: seq<Stop>, rows: nat, n: nat)
    requires rows <= |stops| && n <= |stops|
    requires forall k :: 0 <= k < |stops| ==> stops[k].source == if k < rows then RouteExport else SiteCounts
    ensures From(stops, RouteExport, n) == if n < rows then n else rows
    ensures From(stops, SiteCounts, n) == if n < rows then 0 else n - rows
  {
    if n > 0 {
      FromOneThenOther(stops, rows, n - 1);
    }
  }

  /** The counted stops are numbered 1 and up along the one route. */
  lemma {:induction false} CountedAreCounts(counted: seq<Site>, n: nat, route: nat, points: map<string, nat>)
    requires n <= |counted|
    ensures var stops := CountedStops(counted, n, route, points);
      |stops| == Total(counted, n) &&
      forall k :: 0 <= k < |stops| ==>
        stops[k].source == SiteCounts && stops[k].route == route && stops[k].sequence == k + 1
  {
    if n > 0 {
      CountedAreCounts(counted, n - 1, route, points);
      var before := CountedStops(counted, n - 1, route, points);
      var added := SiteStops(counted[n - 1], route, |before|, points);
      forall k | 0 <= k < |added| ensures added[k] == CountedStop(counted[n - 1], route, |before| + k + 1, points) {
      }
    }
  }

  /** No row bears the site's account. */
  ghost predicate NoRows(s: Site, ds: seq<Delivery>) {
    forall d :: d in ds ==> s.account != Some(d.account)
  }

  /** The sheet's own counts, of the sites no row stands for, added up; a negative one adds nothing. */
  ghost function OwnCounts(sites: seq<Site>, ds: seq<Delivery>): nat {
    if sites == [] then 0
    else
      (if sites[0].deliveriesInData > 0 && NoRows(sites[0], ds) then sites[0].deliveriesInData else 0) +
      OwnCounts(sites[1..], ds)
  }

  /** One more site adds its own count. */
  lemma {:induction false} OneMoreCount(sites: seq<Site>, ds: seq<Delivery>, s: Site)
    ensures OwnCounts(sites + [s], ds) ==
            OwnCounts(sites, ds) + if s.deliveriesInData > 0 && NoRows(s, ds) then s.deliveriesInData else 0
  {
    if sites == [] {
      assert [] + [s] == [s] && [s][1..] == [];
    } else {
      assert (sites + [s])[1..] == sites[1..] + [s] && (sites + [s])[0] == sites[0];
      OneMoreCount(sites[1..], ds, s);
    }
  }

  lemma {:induction false} CountsAdd(sites: seq<Site>, ds: seq<Delivery>)
    ensures CountedDeliveries(sites, ds) == OwnCounts(sites, ds)
  {
    if sites != [] {
      var s, rest := sites[0], Counted(sites[1..], Accounts(ds));
      CountsAdd(sites[1..], ds);
      StandsIff(s, ds);
      if CountStands(s, Accounts(ds)) {
        assert Counted(sites, Accounts(ds)) == [s] + rest;
        TotalFromFirst(s, rest, |rest|);
      } else {
        assert Counted(sites, Accounts(ds)) == rest;
      }
    }
  }

  lemma StandsIff(s: Site, ds: seq<Delivery>)
    ensures CountStands(s, Accounts(ds)) <==> s.deliveriesInData != 0 && NoRows(s, ds)
  {
    assert s.account.Some? ==>
      (s.account.value in Accounts(ds) <==> exists d :: d in ds && d.account == s.account.value);
  }

  lemma {:induction false} TotalFromFirst(s: Site, rest: seq<Site>, n: nat)
    requires n <= |rest|
    ensures Total([s] + rest, n + 1) == (if s.deliveriesInData > 0 then s.deliveriesInData else 0) + Total(rest, n)
  {
    if n > 0 {
      TotalFromFirst(s, rest, n - 1);
    } else {
      assert Total([s] + rest, 1) == Total([s] + rest, 0) + Times(s);
    }
  }

  /** A site adds as many stops as it counted, and none for a negative count; each is of its kind, at its point. */
  lemma SiteAddsItsCount(s: Site, route: nat, position: nat, pointForSite: map<string, nat>)
    ensures s.deliveriesInData >= 0 ==> |SiteStops(s, route, position, pointForSite)| == s.deliveriesInData
    ensures s.deliveriesInData < 0 ==> SiteStops(s, route, position, pointForSite) == []
    ensures forall k :: 0 <= k < |SiteStops(s, route, position, pointForSite)| ==>
      SiteStops(s, route, position, pointForSite)[k] ==
        Stop(route, if s.isPickup then Pickup else Dropoff, position + k + 1,
             if s.id in pointForSite then Some(pointForSite[s.id]) else None, SiteCounts, None)
  {
    var stops := SiteStops(s, route, position, pointForSite);
    forall k | 0 <= k < |stops| ensures stops[k] == CountedStop(s, route, position + k + 1, pointForSite) {
    }
  }

  /** The counted stops are the sites' in turn: one more site adds its own at the end. */
  lemma OneMoreSite(counted: seq<Site>, s: Site, route: nat, pointForSite: map<string, nat>)
    ensures var before := CountedStops(counted, |counted|, route, pointForSite);
      CountedStops(counted + [s], |counted| + 1, route, pointForSite) ==
        before + SiteStops(s, route, |before|, pointForSite)
  {
    var more := counted + [s];
    CountedByPrefix(counted, s, |counted|, route, pointForSite);
    CountedAreCounts(counted, |counted|, route, pointForSite);
    assert more[|more| - 1] == s;
    assert CountedStops(more, |more|, route, pointForSite) ==
           CountedStops(more, |counted|, route, pointForSite) +
           SiteStops(s, route, Total(more, |counted|), pointForSite);
  }

  lemma {:induction false} CountedByPrefix(counted: seq<Site>, s: Site, n: nat, route: nat,
                                           pointForSite: map<string, nat>)
    requires n <= |counted|
    ensures CountedStops(counted + [s], n, route, pointForSite) == CountedStops(counted, n, route, pointForSite)
    ensures Total(counted + [s], n) == Total(counted, n)
  {
    if n > 0 {
      CountedByPrefix(counted, s, n - 1, route, pointForSite);
    }
  }

  /** The sites counted are in the sheet's order. */
  lemma {:induction false} CountedInOrder(sites: seq<Site>, ds: seq<Delivery>, s: Site)
    ensures Counted(sites + [s], Accounts(ds)) ==
            Counted(sites, Accounts(ds)) + if s.deliveriesInData != 0 && NoRows(s, ds) then [s] else []
  {
    StandsIff(s, ds);
    if sites == [] {
      assert [] + [s] == [s] && [s][1..] == [];
    } else {
      assert (sites + [s])[1..] == sites[1..] + [s] && (sites + [s])[0] == sites[0];
      CountedInOrder(sites[1..], ds, s);
    }
  }

  /** Nothing is lost and nothing written twice: a stop for each row and for each delivery the sheet counts at a
      site no row stands for, and the report's counter says so, source by source. */
  lemma ImportConserves(rows: seq<Stop>, ds: seq<Delivery>, sites: seq<Site>, points: map<string, nat>,
                        stops: seq<Stop>, counts: map<Tag, nat>)
    requires RowStops(rows, ds, sites, points) && Tallies(counts, stops)
    requires var counted := Counted(sites, Accounts(ds));
      stops == rows + CountedStops(counted, |counted|, |Enumerate(Names(ds))|, points)
    ensures |stops| == |ds| + OwnCounts(sites, ds) && CountedDeliveries(sites, ds) == OwnCounts(sites, ds)
    ensures OfSource(counts, RouteExport) == |ds| && OfSource(counts, SiteCounts) == OwnCounts(sites, ds)
  {
    var counted := Counted(sites, Accounts(ds));
    RowsAreExported(rows, ds, sites, points);
    CountedAreCounts(counted, |counted|, |Enumerate(Names(ds))|, points);
    SourcesAdd(rows, CountedStops(counted, |counted|, |Enumerate(Names(ds))|, points), counts);
    CountsAdd(sites, ds);
  }

  /** What the report counts under a tag is how many stops there are of that source and kind. */
  lemma {:induction false} TaggedIs(stops: seq<Stop>, source: Source, kind: Kind, n: nat)
    requires n <= |stops|
    ensures Tagged(stops, (source, kind), n) ==
            |Those((k: nat) => k < |stops| && stops[k].source == source && stops[k].kind == kind, n)|
  {
    CountGoesUp((k: nat) => k < |stops| && stops[k].source == source && stops[k].kind == kind,
                if n > 0 then n - 1 else 0);
    if n > 0 {
      TaggedIs(stops, source, kind, n - 1);
    }
  }

  /** The rows reported as without a time are those that lack either. */
  lemma {:induction false} UnparsedIs(ds: seq<Delivery>, n: nat)
    requires n <= |ds|
    ensures Unparsed(ds, n) == |Those((k: nat) => k < |ds| && (ds[k].arrived.None? || ds[k].delivered.None?), n)|
  {
    CountGoesUp((k: nat) => k < |ds| && (ds[k].arrived.None? || ds[k].delivered.None?), if n > 0 then n - 1 else 0);
    if n > 0 {
      UnparsedIs(ds, n - 1);
    }
  }

  // ---------------------------------------------------------------- told of the sheets alone

  ghost predicate NoneBears(sites: seq<Site>, account: string, from: nat) {
    forall k :: from <= k < |sites| ==> sites[k].account != Some(account)
  }

  /** The account is the last site's that bears it. */
  lemma {:induction false} AccountIs(sites: seq<Site>, account: string, j: nat)
    ensures NoneBears(sites, account, 0) ==> ByAccount(sites, account) == None
    ensures (j < |sites| && sites[j].account == Some(account) && NoneBears(sites, account, j + 1)) ==>
      ByAccount(sites, account) == Some(sites[j])
  {
    if sites != [] {
      AccountIs(sites[..|sites| - 1], account, j);
    }
  }

  ghost predicate NoneIsOf(sites: seq<Site>, name: string, from: nat) {
    forall k :: from <= k < |sites| ==> sites[k].business != Some(name)
  }

  /** The business is the last site of that name. */
  lemma {:induction false} BusinessIs(sites: seq<Site>, name: string, j: nat)
    ensures NoneIsOf(sites, name, 0) ==> ByBusiness(sites, name) == None
    ensures (j < |sites| && sites[j].business == Some(name) && NoneIsOf(sites, name, j + 1)) ==>
      ByBusiness(sites, name) == Some(sites[j])
  {
    if sites != [] {
      BusinessIs(sites[..|sites| - 1], name, j);
    }
  }

  /** The site has an address, and it names that place. */
  predicate IsAt(s: Site, resolve: string -> Option<Location>, l: Location) {
    s.address.Some? && resolve(s.address.value) == Some(l)
  }

  /** There is a handoff point for each place some site is at, and for no other. */
  lemma PointsAre(sites: seq<Site>, resolve: string -> Option<Location>, locations: map<string, Location>,
                  points: map<Location, nat>, pointForSite: map<string, nat>, l: Location)
    requires Placed(sites, resolve, locations, points, pointForSite)
    ensures l in points <==> exists s :: s in sites && IsAt(s, resolve, l)
  {
    NumberedKeys(Places(sites, resolve), |Places(sites, resolve)|);
    PlacesAre(sites, resolve, l);
    if l in points {
      var k: nat :| k < |Places(sites, resolve)| && Places(sites, resolve)[k] == l;
    }
  }

  lemma {:induction false} PlacesAre(sites: seq<Site>, resolve: string -> Option<Location>, l: Location)
    ensures l in Places(sites, resolve) <==> exists s :: s in sites && IsAt(s, resolve, l)
  {
    if sites != [] {
      var init, last := sites[..|sites| - 1], sites[|sites| - 1];
      PlacesAre(init, resolve, l);
      assert sites == init + [last];
      assert IsAt(last, resolve, l) <==> Located(last, resolve) == Some(l);
    }
  }

  ghost predicate NoneIsAnywhere(sites: seq<Site>, resolve: string -> Option<Location>, id: string, from: nat) {
    forall k, l :: from <= k < |sites| && sites[k].id == id ==> !IsAt(sites[k], resolve, l)
  }

  /** A site id is where its last site is that is anywhere. */
  lemma {:induction false} LocationIs(sites: seq<Site>, resolve: string -> Option<Location>, id: string, j: nat,
                                      l: Location)
    ensures NoneIsAnywhere(sites, resolve, id, 0) ==> LocationOf(sites, resolve, id) == None
    ensures (j < |sites| && sites[j].id == id && IsAt(sites[j], resolve, l) &&
             NoneIsAnywhere(sites, resolve, id, j + 1)) ==>
      LocationOf(sites, resolve, id) == Some(l)
  {
    if sites != [] {
      var last := sites[|sites| - 1];
      LocationIs(sites[..|sites| - 1], resolve, id, j, l);
      if Located(last, resolve).Some? {
        assert IsAt(last, resolve, Located(last, resolve).value);
      }
    }
  }

  /** A row's stop, told of the row and the sites: the kind and the handoff point are those of the last site of its
      account, and a row of no site's account is a dropoff at no point. */
  lemma RowStopTells(stops: seq<Stop>, ds: seq<Delivery>, sites: seq<Site>, points: map<string, nat>, i: nat, j: nat)
    requires i < |ds| && RowStops(stops, ds, sites, points)
    ensures stops[i].source == RouteExport
    ensures NoneBears(sites, ds[i].account, 0) ==> stops[i].kind == Dropoff && stops[i].point == None
    ensures (j < |sites| && sites[j].account == Some(ds[i].account) && NoneBears(sites, ds[i].account, j + 1)) ==>
      && (stops[i].kind == Pickup <==> sites[j].isPickup)
      && stops[i].point == if sites[j].id in points then Some(points[sites[j].id]) else None
  {
    AccountIs(sites, ds[i].account, j);
    assert StopFor(stops[i], ds, i, sites, points);
  }

  /** The drivers among the first `i` rows. */
  ghost function DriversOf(ds: seq<Delivery>, i: nat): set<string>
    requires i <= |ds|
  {
    set k: nat | k < i :: ds[k].driver
  }

  /** A driver first seen on a row goes by one more than how many drivers came before, and by that on every row. */
  lemma DriverNumberIs(stops: seq<Stop>, ds: seq<Delivery>, sites: seq<Site>, points: map<string, nat>, i: nat, j: nat)
    requires i < |ds| && j < |ds| && RowStops(stops, ds, sites, points)
    requires ds[j].driver == ds[i].driver && ds[i].driver !in DriversOf(ds, i)
    ensures stops[j].driver == Some(|DriversOf(ds, i)| + 1)
  {
    assert StopFor(stops[j], ds, j, sites, points);
    assert Drivers(ds)[j] == Drivers(ds)[i];
    FirstNumber(ds, i);
  }

  lemma FirstNumber(ds: seq<Delivery>, i: nat)
    requires i < |ds| && ds[i].driver !in DriversOf(ds, i)
    ensures Lookup(Enumerate(Drivers(ds)), Drivers(ds)[i]) == Some(|DriversOf(ds, i)|)
  {
    var xs := Drivers(ds);
    NumberedKeys(xs, i);
    assert Numbered(xs, i).Keys == DriversOf(ds, i);
    assert |Numbered(xs, i)| == |Numbered(xs, i).Keys|;
    NewNumberStays(xs, i);
  }

  lemma NewNumberStays(xs: seq<string>, i: nat)
    requires i < |xs| && xs[i] !in Numbered(xs, i)
    ensures Lookup(Enumerate(xs), xs[i]) == Some(|Numbered(xs, i)|)
  {
    NumbersStay(xs, i + 1, |xs|);
    assert Numbered(xs, i + 1) == Numbered(xs, i)[xs[i] := |Numbered(xs, i)|];
  }

  lemma {:induction false} NumberedKeys(xs: seq<string>, n: nat)
    requires n <= |xs|
    ensures Numbered(xs, n).Keys == set k: nat | k < n :: xs[k]
  {
    if n > 0 {
      NumberedKeys(xs, n - 1);
      assert (set k: nat | k < n :: xs[k]) == (set k: nat | k < n - 1 :: xs[k]) + {xs[n - 1]};
    }
  }

  /** The name made up for a run with no manifest: its day, and its driver's number in decimal. */
  lemma RunNameIs(date: string, n: nat)
    ensures RunName(date, n) == date + [' ', '/', ' ', 'd', 'r', 'i', 'v', 'e', 'r', ' '] + Decimal(n)
    ensures Value(Decimal(n)) == n && (n > 0 ==> Decimal(n)[0] != '0') && (n == 0 ==> Decimal(n) == ['0'])
  {
    DecimalReadsBack(n);
    if n > 0 {
      NoLeadingZero(n);
    }
  }

  lemma {:induction false} NoLeadingZero(n: nat)
    requires n > 0
    ensures Decimal(n)[0] != '0'
  {
    if n >= 10 {
      NoLeadingZero(n / 10);
    }
  }

  lemma RowsAreExported(rows: seq<Stop>, ds: seq<Delivery>, sites: seq<Site>, points: map<string, nat>)
    requires RowStops(rows, ds, sites, points)
    ensures |rows| == |ds| && forall k :: 0 <= k < |rows| ==> rows[k].source == RouteExport
  {
    forall k | 0 <= k < |rows| ensures rows[k].source == RouteExport {
      assert StopFor(rows[k], ds, k, sites, points);
    }
  }

  lemma SourcesAdd(rows: seq<Stop>, counted: seq<Stop>, counts: map<Tag, nat>)
    requires forall k :: 0 <= k < |rows| ==> rows[k].source == RouteExport
    requires forall k :: 0 <= k < |counted| ==> counted[k].source == SiteCounts
    requires Tallies(counts, rows + counted)
    ensures OfSource(counts, RouteExport) == |rows| && OfSource(counts, SiteCounts) == |counted|
  {
    var all := rows + counted;
    TaggedEitherKind(all, RouteExport, |all|);
    TaggedEitherKind(all, SiteCounts, |all|);
    FromOneThenOther(all, |rows|, |all|);
  }

  /** A site is counted exactly when it has a count and no row bears its account. */
  lemma {:induction false} CountedIff(sites: seq<Site>, ds: seq<Delivery>, s: Site)
    ensures s in Counted(sites, Accounts(ds)) <==> s in sites && s.deliveriesInData != 0 && NoRows(s, ds)
  {
    if sites != [] {
      CountedIff(sites[1..], ds, s);
      StandsIff(s, ds);
    }
  }

  /** The route the counts go on is no row's route. */
  lemma RideAlongIsApart(rows: seq<Stop>, ds: seq<Delivery>, sites: seq<Site>, points: map<string, nat>)
    requires RowStops(rows, ds, sites, points)
    ensures forall i :: 0 <= i < |rows| ==> rows[i].route < |Enumerate(Names(ds))|
  {
    NumbersAreOwn(Names(ds), |ds|);
    forall i | 0 <= i < |rows| ensures rows[i].route < |Enumerate(Names(ds))| {
      assert StopFor(rows[i], ds, i, sites, points);
    }
  }
}
