/** app/api/public_api_routes.py: orders posted, read and cancelled by a client's own reference.

    Requests run at once. Each handler is cut at its awaits, where another request may come between,
    and `Api` has one method for each piece. The unique constraint is the atomic insert-or-find of
    `InsertOrFind`. Runs are every interleaving of any number of requests, of other writers of the
    orders table, and of requests dying part-way. */
module PublicOrders {
  import opened Wrappers

  const SOURCE_SYSTEM := "client_api"

  datatype Status =
    | Received | Classified | Held | Queued | Assigned | Accepted | EnRoutePickup | PickedUp
    | EnRouteDrop | Delivered | Cancelled | DeliveryFailed | Returned

  predicate Cancellable(s: Status) {
    s.Received? || s.Classified? || s.Held? || s.Queued?
  }

  /** What `uq_orders_source_ref` keeps unique. */
  datatype Key = Key(client: string, source: string, ref: string)

  datatype Order = Order(key: Key, status: Status)

  /** An order's id is its place in the table, which only grows. */
  type OrderId = nat
  type RequestId = nat

  datatype Verb = Post | Get | Delete

  datatype Answer =
    | Result(id: OrderId, duplicate: bool)
    | NotFound
    | Unresolvable     // 422: an address names no place, or the shop is unknown
    | NotCancellable   // 409

  datatype Phase =
    | Started
    | Missed                   // POST: the check found no order
    | Resolving                // POST: nor did ingestion; addresses being resolved
    | Inserted(id: OrderId)    // POST: committed, not yet announced
    | Published(id: OrderId)
    | Withdrawing(id: OrderId) // DELETE: read a status it may cancel from
    | Answered(answer: Answer)
    | Died(was: Phase)

  datatype Call = Call(verb: Verb, client: string, ref: string, phase: Phase)

  /** The table, the orders the dispatch bus was told of, and the requests. */
  datatype State = State(orders: seq<Order>, published: seq<OrderId>, calls: map<RequestId, Call>)

  datatype Event =
    | Arrive(r: RequestId, verb: Verb, client: string, ref: string)
    | Proceed(r: RequestId, resolves: bool)   // the request's next piece; `resolves` when it resolves addresses
    | Die(r: RequestId)
    | InsertElsewhere(order: Order)           // another intake path, under its own source system
    | Move(id: OrderId, to: Status)           // dispatch and drivers

  function KeyOf(call: Call): Key {
    Key(call.client, SOURCE_SYSTEM, call.ref)
  }

  /** The order under a key. */
  function Find(orders: seq<Order>, key: Key): (r: Option<OrderId>)
    ensures r.Some? ==> r.value < |orders| && orders[r.value].key == key
    ensures r.None? ==> forall i :: 0 <= i < |orders| ==> orders[i].key != key
  {
    if orders == [] then None
    else if orders[|orders| - 1].key == key then Some(|orders| - 1)
    else Find(orders[..|orders| - 1], key)
  }

  predicate Finished(p: Phase) {
    p.Answered? || p.Died?
  }

  predicate Enabled(st: State, e: Event) {
    match e
    case Arrive(r, _, _, _) => r !in st.calls
    case Proceed(r, _) => r in st.calls && !Finished(st.calls[r].phase)
    case Die(r) => r in st.calls && !Finished(st.calls[r].phase)
    case InsertElsewhere(o) => o.key.source != SOURCE_SYSTEM && Find(st.orders, o.key).None?
    case Move(id, to) => id < |st.orders| && !st.orders[id].status.Cancelled?
  }

  // ---------------------------------------------------------------- one step

  function At(st: State, r: RequestId, phase: Phase): State
    requires r in st.calls
  {
    st.(calls := st.calls[r := st.calls[r].(phase := phase)])
  }

  /** The unique constraint: the row that is there, or a new one. */
  function InsertOrFind(st: State, r: RequestId): State
    requires r in st.calls
  {
    var key := KeyOf(st.calls[r]);
    match Find(st.orders, key)
    case Some(id) => At(st, r, Answered(Result(id, true)))
    case None => At(st.(orders := st.orders + [Order(key, Held)]), r, Inserted(|st.orders|))
  }

  function ProceedPost(st: State, r: RequestId, resolves: bool): State
    requires r in st.calls
  {
    var found := Find(st.orders, KeyOf(st.calls[r]));
    match st.calls[r].phase
    case Started => At(st, r, if found.Some? then Answered(Result(found.value, true)) else Missed)
    case Missed => At(st, r, if found.Some? then Answered(Result(found.value, true)) else Resolving)
    case Resolving => if resolves then InsertOrFind(st, r) else At(st, r, Answered(Unresolvable))
    case Inserted(id) => At(st.(published := st.published + [id]), r, Published(id))
    case Published(id) => At(st, r, Answered(Result(id, false)))
    case _ => st
  }

  function ProceedGet(st: State, r: RequestId): State
    requires r in st.calls
  {
    match Find(st.orders, KeyOf(st.calls[r]))
    case Some(id) => At(st, r, Answered(Result(id, false)))
    case None => At(st, r, Answered(NotFound))
  }

  function ProceedDelete(st: State, r: RequestId): State
    requires r in st.calls
  {
    match st.calls[r].phase
    case Withdrawing(id) =>
      if id < |st.orders| && Cancellable(st.orders[id].status)
      then At(st.(orders := st.orders[id := st.orders[id].(status := Cancelled)]), r, Answered(Result(id, false)))
      else At(st, r, Answered(NotCancellable))
    case _ =>
      match Find(st.orders, KeyOf(st.calls[r]))
      case None => At(st, r, Answered(NotFound))
      case Some(id) =>
        At(st, r,
           if st.orders[id].status.Cancelled? then Answered(Result(id, false))
           else if Cancellable(st.orders[id].status) then Withdrawing(id)
           else Answered(NotCancellable))
  }

  function Next(st: State, e: Event): State
    requires Enabled(st, e)
  {
    match e
    case Arrive(r, verb, client, ref) => st.(calls := st.calls[r := Call(verb, client, ref, Started)])
    case Proceed(r, resolves) =>
      (match st.calls[r].verb
       case Post => ProceedPost(st, r, resolves)
       case Get => ProceedGet(st, r)
       case Delete => ProceedDelete(st, r))
    case Die(r) => At(st, r, Died(st.calls[r].phase))
    case InsertElsewhere(o) => st.(orders := st.orders + [o])
    case Move(id, to) => st.(orders := st.orders[id := st.orders[id].(status := to)])
  }

  // ---------------------------------------------------------------- the handlers

  class Api {
    var orders: seq<Order>
    var published: seq<OrderId>
    var calls: map<RequestId, Call>

    ghost function Abs(): State
      reads this
    {
      State(orders, published, calls)
    }

    constructor (orders: seq<Order>)
      ensures Abs() == State(orders, [], map[])
    {
      this.orders, published, calls := orders, [], map[];
    }

    method ExistingOrder(client: string, ref: string) returns (id: Option<OrderId>)
      ensures id == Find(orders, Key(client, SOURCE_SYSTEM, ref))
    {
      var i := |orders|;
      assert orders[..i] == orders;
      while i > 0
        invariant 0 <= i <= |orders|
        invariant Find(orders[..i], Key(client, SOURCE_SYSTEM, ref)) == Find(orders, Key(client, SOURCE_SYSTEM, ref))
      {
        i := i - 1;
        assert orders[..i + 1][..i] == orders[..i];
        if orders[i].key == Key(client, SOURCE_SYSTEM, ref) {
          return Some(i);
        }
      }
      return None;
    }

    method Answer(r: RequestId, phase: Phase)
      requires r in calls
      modifies this
      ensures Abs() == At(old(Abs()), r, phase)
    {
      calls := calls[r := calls[r].(phase := phase)];
    }

    /** `submit_order` from wherever it waits to where it next lets another request in. */
    method SubmitOrder(r: RequestId, resolves: bool)
      requires Enabled(Abs(), Proceed(r, resolves)) && calls[r].verb.Post?
      modifies this
      ensures Abs() == Next(old(Abs()), Proceed(r, resolves))
    {
      var call := calls[r];
      match call.phase {
        case Started =>
          var existing := ExistingOrder(call.client, call.ref);
          Answer(r, if existing.Some? then Answered(Result(existing.value, true)) else Missed);
        case Missed =>
          var existing := ExistingOrder(call.client, call.ref);
          Answer(r, if existing.Some? then Answered(Result(existing.value, true)) else Resolving);
        case Resolving =>
          if resolves {
            var winner := ExistingOrder(call.client, call.ref);
            if winner.Some? {
              Answer(r, Answered(Result(winner.value, true)));
            } else {
              orders := orders + [Order(KeyOf(call), Held)];
              Answer(r, Inserted(|orders| - 1));
            }
          } else {
            Answer(r, Answered(Unresolvable));
          }
        case Inserted(id) =>
          published := published + [id];
          Answer(r, Published(id));
        case Published(id) =>
          Answer(r, Answered(Result(id, false)));
        case _ =>
      }
    }

    method GetOrder(r: RequestId)
      requires Enabled(Abs(), Proceed(r, true)) && calls[r].verb.Get?
      modifies this
      ensures Abs() == Next(old(Abs()), Proceed(r, true))
    {
      var existing := ExistingOrder(calls[r].client, calls[r].ref);
      Answer(r, Answered(if existing.Some? then Result(existing.value, false) else NotFound));
    }

    /** `cancel_order`: the read, then the write conditional on the status still being one a client may
        cancel from. */
    method CancelOrder(r: RequestId)
      requires Enabled(Abs(), Proceed(r, true)) && calls[r].verb.Delete?
      modifies this
      ensures Abs() == Next(old(Abs()), Proceed(r, true))
    {
      var call := calls[r];
      if call.phase.Withdrawing? {
        var id := call.phase.id;
        if id < |orders| && Cancellable(orders[id].status) {
          orders := orders[id := orders[id].(status := Cancelled)];
          Answer(r, Answered(Result(id, false)));
        } else {
          Answer(r, Answered(NotCancellable));
        }
        return;
      }
      var existing := ExistingOrder(call.client, call.ref);
      if existing.None? {
        Answer(r, Answered(NotFound));
      } else if orders[existing.value].status.Cancelled? {
        Answer(r, Answered(Result(existing.value, false)));
      } else if Cancellable(orders[existing.value].status) {
        Answer(r, Withdrawing(existing.value));
      } else {
        Answer(r, Answered(NotCancellable));
      }
    }
  }

  // ---------------------------------------------------------------- what every run keeps

  predicate Possible(st: State, es: seq<Event>)
    decreases |es|
  {
    es == [] || (Enabled(st, es[0]) && Possible(Next(st, es[0]), es[1..]))
  }

  function Run(st: State, es: seq<Event>): State
    requires Possible(st, es)
    decreases |es|
  {
    if es == [] then st else Run(Next(st, es[0]), es[1..])
  }

  predicate Unique(orders: seq<Order>) {
    forall i, j :: 0 <= i < j < |orders| ==> orders[i].key != orders[j].key
  }

  /** How far a request got, alive or not. */
  function Reached(p: Phase): Phase {
    if p.Died? then p.was else p
  }

  /** The order a request names, if it names one. */
  function Named(p: Phase): Option<OrderId> {
    match Reached(p)
    case Inserted(id) => Some(id)
    case Published(id) => Some(id)
    case Withdrawing(id) => Some(id)
    case Answered(Result(id, _)) => Some(id)
    case _ => None
  }

  /** A POST that inserted the order, and how far it got with it. */
  predicate Announced(c: Call, id: OrderId) {
    c.verb.Post? && (Reached(c.phase) == Published(id) || Reached(c.phase) == Answered(Result(id, false)))
  }

  predicate Created(c: Call, id: OrderId) {
    (c.verb.Post? && Reached(c.phase) == Inserted(id)) || Announced(c, id)
  }

  function Times(id: OrderId, ids: seq<OrderId>): nat {
    multiset(ids)[id]
  }

  /** A request names only orders under its own key. */
  ghost predicate NamesOwn(orders: seq<Order>, c: Call) {
    Named(c.phase).Some? ==>
      Named(c.phase).value < |orders| && orders[Named(c.phase).value].key == KeyOf(c)
  }

  ghost predicate OneCreator(calls: map<RequestId, Call>) {
    forall r, r', id: OrderId :: r in calls && r' in calls && Created(calls[r], id) && Created(calls[r'], id) ==>
      r == r'
  }

  ghost predicate HasCreator(calls: map<RequestId, Call>, id: OrderId) {
    exists r :: r in calls && Created(calls[r], id)
  }

  ghost predicate HasAnnouncer(calls: map<RequestId, Call>, id: OrderId) {
    exists r :: r in calls && Announced(calls[r], id)
  }

  /** The orders made in the run are the ones some POST made, one each. `first` is how many orders there were
      before the run. */
  ghost predicate MadeByPosts(orders: seq<Order>, calls: map<RequestId, Call>, first: nat) {
    && OneCreator(calls)
    && (forall r, id: OrderId :: r in calls && Created(calls[r], id) ==> id >= first)
    && (forall id: OrderId :: first <= id < |orders| && orders[id].key.source == SOURCE_SYSTEM ==>
      HasCreator(calls, id))
  }

  /** Each order announced is announced once, by the POST that made it. */
  ghost predicate ToldOnce(published: seq<OrderId>, calls: map<RequestId, Call>) {
    forall id: OrderId :: Times(id, published) == if HasAnnouncer(calls, id) then 1 else 0
  }

  ghost predicate AllNameOwn(orders: seq<Order>, calls: map<RequestId, Call>) {
    forall r :: r in calls ==> NamesOwn(orders, calls[r])
  }

  ghost predicate Kept(st: State, first: nat) {
    && first <= |st.orders| && Unique(st.orders)
    && AllNameOwn(st.orders, st.calls)
    && MadeByPosts(st.orders, st.calls, first)
    && ToldOnce(st.published, st.calls)
  }

  predicate SameKeys(a: seq<Order>, b: seq<Order>) {
    |a| == |b| && forall i :: 0 <= i < |a| ==> a[i].key == b[i].key
  }

  /** A request moves on without making or announcing an order; statuses may change. */
  lemma MovesOn(st: State, r: RequestId, c: Call, orders: seq<Order>, first: nat)
    requires Kept(st, first) && SameKeys(st.orders, orders)
    requires NamesOwn(orders, c)
    requires forall id: OrderId ::
      && Created(c, id) == (r in st.calls && Created(st.calls[r], id))
      && Announced(c, id) == (r in st.calls && Announced(st.calls[r], id))
    ensures Kept(State(orders, st.published, st.calls[r := c]), first)
  {
    SameMakers(st.orders, st.calls, r, c, first);
    ToldOnceStill(st.published, st.calls, r, c);
    forall q | q in st.calls ensures NamesOwn(orders, st.calls[q]) {
      assert NamesOwn(st.orders, st.calls[q]);
    }
  }

  /** No request has made an order that is not there yet. */
  lemma NoneCreatedBeyond(st: State, first: nat)
    requires Kept(st, first)
    ensures forall q, id: OrderId :: q in st.calls && Created(st.calls[q], id) ==> id < |st.orders|
  {
    forall q, id: OrderId | q in st.calls && Created(st.calls[q], id) ensures id < |st.orders| {
      assert NamesOwn(st.orders, st.calls[q]) && Named(st.calls[q].phase) == Some(id);
    }
  }

  lemma NamesStayOwn(orders: seq<Order>, calls: map<RequestId, Call>, more: seq<Order>, r: RequestId, c: Call)
    requires AllNameOwn(orders, calls) && orders <= more && NamesOwn(more, c)
    ensures AllNameOwn(more, calls[r := c])
  {
    forall q | q in calls ensures NamesOwn(more, calls[q]) {
      assert NamesOwn(orders, calls[q]);
    }
  }

  /** A POST inserts its order. */
  lemma Inserts(st: State, r: RequestId, first: nat)
    requires Kept(st, first) && r in st.calls && st.calls[r].verb.Post? && st.calls[r].phase.Resolving?
    requires Find(st.orders, KeyOf(st.calls[r])).None?
    ensures Kept(InsertOrFind(st, r), first)
  {
    var made: OrderId := |st.orders|;
    var c := st.calls[r].(phase := Inserted(made));
    var more := st.orders + [Order(KeyOf(c), Held)];
    NoneCreatedBeyond(st, first);
    NamesStayOwn(st.orders, st.calls, more, r, c);
    MakerAdded(st.orders, st.calls, more, r, c, first);
    ToldOnceStill(st.published, st.calls, r, c);
    assert InsertOrFind(st, r) == State(more, st.published, st.calls[r := c]);
  }

  /** The order at the end of the longer table is the request's making, and nothing else is. */
  lemma MakerAdded(orders: seq<Order>, calls: map<RequestId, Call>, more: seq<Order>, r: RequestId, c: Call, first: nat)
    requires MadeByPosts(orders, calls, first) && first <= |orders|
    requires |more| == |orders| + 1 && orders <= more
    requires forall q, id: OrderId :: q in calls && Created(calls[q], id) ==> id < |orders|
    requires forall id: OrderId :: Created(c, id) <==> id == |orders|
    requires r in calls ==> forall id: OrderId :: !Created(calls[r], id)
    ensures MadeByPosts(more, calls[r := c], first)
  {
    var calls' := calls[r := c];
    forall id: OrderId | first <= id < |more| && more[id].key.source == SOURCE_SYSTEM ensures HasCreator(calls', id) {
      if id == |orders| {
        assert r in calls' && Created(calls'[r], id);
      } else {
        assert more[id] == orders[id] && HasCreator(calls, id);
        var q :| q in calls && Created(calls[q], id);
        assert q in calls' && Created(calls'[q], id);
      }
    }
  }

  lemma ToldOnceStill(published: seq<OrderId>, calls: map<RequestId, Call>, r: RequestId, c: Call)
    requires ToldOnce(published, calls)
    requires forall id: OrderId :: Announced(c, id) == (r in calls && Announced(calls[r], id))
    ensures ToldOnce(published, calls[r := c])
  {
    forall id: OrderId ensures HasAnnouncer(calls[r := c], id) == HasAnnouncer(calls, id) {
      SameAnnouncers(calls, r, c, id);
    }
  }

  lemma SameAnnouncers(calls: map<RequestId, Call>, r: RequestId, c: Call, id: OrderId)
    requires Announced(c, id) == (r in calls && Announced(calls[r], id))
    ensures HasAnnouncer(calls[r := c], id) == HasAnnouncer(calls, id)
  {
    var calls' := calls[r := c];
    if q :| q in calls && Announced(calls[q], id) {
      assert q in calls' && Announced(calls'[q], id);
    }
    if q :| q in calls' && Announced(calls'[q], id) {
      assert q in calls && Announced(calls[q], id);
    }
  }

  /** An order whose maker has only inserted it has been announced by nobody. */
  lemma NotYetAnnounced(st: State, r: RequestId, id: OrderId, first: nat)
    requires Kept(st, first) && r in st.calls && st.calls[r].verb.Post? && st.calls[r].phase == Inserted(id)
    ensures !HasAnnouncer(st.calls, id)
  {
    forall q | q in st.calls ensures !Announced(st.calls[q], id) {
      assert Announced(st.calls[q], id) ==> Created(st.calls[q], id);
    }
  }

  /** The POST that made an order announces it. */
  lemma Publishes(st: State, r: RequestId, id: OrderId, first: nat)
    requires Kept(st, first) && r in st.calls && st.calls[r].verb.Post? && st.calls[r].phase == Inserted(id)
    ensures Kept(At(st.(published := st.published + [id]), r, Published(id)), first)
  {
    var c := st.calls[r].(phase := Published(id));
    assert NamesOwn(st.orders, st.calls[r]);
    NamesStayOwn(st.orders, st.calls, st.orders, r, c);
    NotYetAnnounced(st, r, id, first);
    SameMakers(st.orders, st.calls, r, c, first);
    ToldOneMore(st.published, st.calls, r, c, id);
  }

  lemma SameMakers(orders: seq<Order>, calls: map<RequestId, Call>, r: RequestId, c: Call, first: nat)
    requires MadeByPosts(orders, calls, first)
    requires forall id: OrderId :: Created(c, id) == (r in calls && Created(calls[r], id))
    ensures MadeByPosts(orders, calls[r := c], first)
  {
    var calls' := calls[r := c];
    forall id: OrderId | HasCreator(calls, id) ensures HasCreator(calls', id) {
      var q :| q in calls && Created(calls[q], id);
      assert q in calls' && Created(calls'[q], id);
    }
  }

  lemma ToldOneMore(published: seq<OrderId>, calls: map<RequestId, Call>, r: RequestId, c: Call, made: OrderId)
    requires ToldOnce(published, calls) && !HasAnnouncer(calls, made)
    requires forall id: OrderId :: Announced(c, id) <==> id == made
    requires r in calls ==> forall id: OrderId :: !Announced(calls[r], id)
    ensures ToldOnce(published + [made], calls[r := c])
  {
    var calls' := calls[r := c];
    assert r in calls' && Announced(calls'[r], made);
    forall id: OrderId ensures Times(id, published + [made]) == if HasAnnouncer(calls', id) then 1 else 0 {
      assert Times(id, published) == if HasAnnouncer(calls, id) then 1 else 0;
      if id != made {
        SameAnnouncers(calls, r, c, id);
      }
    }
  }

  lemma {:induction false} StepKeeps(st: State, e: Event, first: nat)
    requires Kept(st, first) && Enabled(st, e)
    ensures Kept(Next(st, e), first)
  {
    match e
    case Arrive(r, verb, client, ref) => MovesOn(st, r, Call(verb, client, ref, Started), st.orders, first);
    case Die(r) => Dies(st, r, first);
    case InsertElsewhere(o) => GrowsElsewhere(st, o, first);
    case Move(id, to) => StatusMoves(st, Next(st, e).orders, first);
    case Proceed(r, resolves) =>
      match st.calls[r].verb {
        case Post => PostKeeps(st, r, resolves, first);
        case Get => MovesOn(st, r, Next(st, e).calls[r], st.orders, first);
        case Delete => DeleteKeeps(st, r, first);
      }
  }

  /** A request that has made no order moves to a phase that has made none either. */
  lemma PhaseMovesOn(st: State, r: RequestId, phase: Phase, first: nat)
    requires Kept(st, first) && r in st.calls
    requires forall id: OrderId ::
      && Created(st.calls[r].(phase := phase), id) == Created(st.calls[r], id)
      && Announced(st.calls[r].(phase := phase), id) == Announced(st.calls[r], id)
    requires NamesOwn(st.orders, st.calls[r].(phase := phase))
    ensures Kept(At(st, r, phase), first)
  {
    MovesOn(st, r, st.calls[r].(phase := phase), st.orders, first);
  }

  lemma Dies(st: State, r: RequestId, first: nat)
    requires Kept(st, first) && Enabled(st, Die(r))
    ensures Kept(Next(st, Die(r)), first)
  {
    assert NamesOwn(st.orders, st.calls[r]);
    PhaseMovesOn(st, r, Died(st.calls[r].phase), first);
  }

  /** Finding the order answers with it. */
  lemma AnswersDuplicate(st: State, r: RequestId, first: nat)
    requires Kept(st, first) && r in st.calls && st.calls[r].verb.Post?
    requires st.calls[r].phase.Started? || st.calls[r].phase.Missed? || st.calls[r].phase.Resolving?
    requires Find(st.orders, KeyOf(st.calls[r])).Some?
    ensures Kept(At(st, r, Answered(Result(Find(st.orders, KeyOf(st.calls[r])).value, true))), first)
  {
    PhaseMovesOn(st, r, Answered(Result(Find(st.orders, KeyOf(st.calls[r])).value, true)), first);
  }

  lemma PostKeeps(st: State, r: RequestId, resolves: bool, first: nat)
    requires Kept(st, first) && Enabled(st, Proceed(r, resolves)) && st.calls[r].verb.Post?
    ensures Kept(ProceedPost(st, r, resolves), first)
  {
    var c := st.calls[r];
    assert NamesOwn(st.orders, c);
    var found := Find(st.orders, KeyOf(c));
    if c.phase.Inserted? {
      Publishes(st, r, c.phase.id, first);
    } else if c.phase.Published? {
      PhaseMovesOn(st, r, Answered(Result(c.phase.id, false)), first);
    } else if c.phase.Resolving? && !resolves {
      PhaseMovesOn(st, r, Answered(Unresolvable), first);
    } else if c.phase.Resolving? && found.None? {
      Inserts(st, r, first);
    } else if found.Some? && !c.phase.Withdrawing? {
      AnswersDuplicate(st, r, first);
    } else if !c.phase.Withdrawing? {
      PhaseMovesOn(st, r, if c.phase.Started? then Missed else Resolving, first);
    }
  }

  lemma DeleteKeeps(st: State, r: RequestId, first: nat)
    requires Kept(st, first) && Enabled(st, Proceed(r, true)) && st.calls[r].verb.Delete?
    ensures Kept(ProceedDelete(st, r), first)
  {
    assert NamesOwn(st.orders, st.calls[r]);
    var st' := ProceedDelete(st, r);
    if st.calls[r].phase.Withdrawing? {
      MovesOn(st, r, st'.calls[r], st'.orders, first);
    } else {
      PhaseMovesOn(st, r, st'.calls[r].phase, first);
    }
  }

  lemma GrowsElsewhere(st: State, o: Order, first: nat)
    requires Kept(st, first) && o.key.source != SOURCE_SYSTEM && Find(st.orders, o.key).None?
    ensures Kept(st.(orders := st.orders + [o]), first)
  {
    forall r | r in st.calls ensures NamesOwn(st.orders + [o], st.calls[r]) {
      assert NamesOwn(st.orders, st.calls[r]);
    }
  }

  lemma StatusMoves(st: State, orders: seq<Order>, first: nat)
    requires Kept(st, first) && SameKeys(st.orders, orders)
    ensures Kept(st.(orders := orders), first)
  {
    forall r | r in st.calls ensures NamesOwn(orders, st.calls[r]) {
      assert NamesOwn(st.orders, st.calls[r]);
    }
  }

  lemma {:induction false} RunsKeep(st: State, es: seq<Event>, first: nat)
    requires Kept(st, first) && Possible(st, es)
    ensures Kept(Run(st, es), first)
    decreases |es|
  {
    if es != [] {
      StepKeeps(st, es[0], first);
      RunsKeep(Next(st, es[0]), es[1..], first);
    }
  }

  // ---------------------------------------------------------------- idempotence

  function Fresh(orders: seq<Order>): State {
    State(orders, [], map[])
  }

  /** Every answer that names an order names the one order under the caller's own key, so all
      successful POSTs of a reference name the same one; and no order is made twice. */
  lemma OneOrderPerReference(orders: seq<Order>, es: seq<Event>)
    requires Unique(orders) && Possible(Fresh(orders), es)
    ensures var st := Run(Fresh(orders), es);
      && Unique(st.orders)
      && (forall r, id: OrderId, d :: r in st.calls && st.calls[r].phase == Answered(Result(id, d)) ==>
            Find(st.orders, KeyOf(st.calls[r])) == Some(id))
  {
    RunsKeep(Fresh(orders), es, |orders|);
    var st := Run(Fresh(orders), es);
    forall r, id: OrderId, d | r in st.calls && st.calls[r].phase == Answered(Result(id, d))
      ensures Find(st.orders, KeyOf(st.calls[r])) == Some(id)
    {
      assert NamesOwn(st.orders, st.calls[r]);
      var found := Find(st.orders, KeyOf(st.calls[r]));
      assert found.Some? && st.orders[found.value].key == st.orders[id].key;
    }
  }

  /** A POST that says `duplicate: false`. */
  predicate Claims(c: Call, id: OrderId) {
    c.verb.Post? && c.phase == Answered(Result(id, false))
  }

  /** A POST that has inserted the order and announced nothing, running or dead. */
  predicate StoppedShort(c: Call, id: OrderId) {
    c.verb.Post? && Reached(c.phase) == Inserted(id)
  }

  ghost predicate Stalled(calls: map<RequestId, Call>, id: OrderId) {
    exists r :: r in calls && StoppedShort(calls[r], id)
  }

  ghost predicate Claimed(calls: map<RequestId, Call>, id: OrderId) {
    exists r :: r in calls && Claims(calls[r], id)
  }

  /** The order was made in a run that began with `first` of them. */
  predicate MadeHere(st: State, first: nat, id: OrderId) {
    first <= id < |st.orders| && st.orders[id].key.source == SOURCE_SYSTEM
  }

  /** What becomes of an order is up to the one POST that made it, and to no other request: exactly one
      event is published for it unless that POST is still, or died, between insert and publish, and exactly
      one POST says `duplicate: false` when that POST has answered. Nobody ever does either twice. */
  lemma OneClaimOneEvent(orders: seq<Order>, es: seq<Event>, id: OrderId)
    requires Unique(orders) && Possible(Fresh(orders), es)
    ensures var st := Run(Fresh(orders), es);
      && Times(id, st.published) <= 1
      && (forall r, r' ::
            r in st.calls && r' in st.calls && Claims(st.calls[r], id) && Claims(st.calls[r'], id) ==> r == r')
      && (Claimed(st.calls, id) ==> MadeHere(st, |orders|, id) && Times(id, st.published) == 1)
      && (Times(id, st.published) == 1 ==> MadeHere(st, |orders|, id))
    ensures var st := Run(Fresh(orders), es);
      MadeHere(st, |orders|, id) ==>
        && HasCreator(st.calls, id)
        && (Times(id, st.published) == 1 <==> !Stalled(st.calls, id))
        && (Claimed(st.calls, id) <==>
          forall r :: r in st.calls && Created(st.calls[r], id) ==> st.calls[r].phase.Answered?)
  {
    RunsKeep(Fresh(orders), es, |orders|);
    var st := Run(Fresh(orders), es);
    CreatorsMakeHere(st, |orders|, id);
    ClaimIsAnnounced(st, |orders|, id);
    if MadeHere(st, |orders|, id) {
      assert HasCreator(st.calls, id);
      EventIff(st, |orders|, id);
      ClaimIff(st, |orders|, id);
    }
  }

  /** Whoever made or announced an order made it here. */
  lemma CreatorsMakeHere(st: State, first: nat, id: OrderId)
    requires Kept(st, first)
    ensures forall r :: r in st.calls && Created(st.calls[r], id) ==> MadeHere(st, first, id)
    ensures HasAnnouncer(st.calls, id) ==> MadeHere(st, first, id)
  {
    forall r | r in st.calls && Created(st.calls[r], id) ensures MadeHere(st, first, id) {
      assert NamesOwn(st.orders, st.calls[r]) && Named(st.calls[r].phase) == Some(id);
    }
    if r :| r in st.calls && Announced(st.calls[r], id) {
      assert Created(st.calls[r], id);
    }
  }

  lemma ClaimIsAnnounced(st: State, first: nat, id: OrderId)
    requires Kept(st, first)
    ensures forall r, r' :: r in st.calls && r' in st.calls && Claims(st.calls[r], id) && Claims(st.calls[r'], id) ==>
      r == r'
    ensures Claimed(st.calls, id) ==> HasAnnouncer(st.calls, id)
  {
    forall r | r in st.calls && Claims(st.calls[r], id) ensures Announced(st.calls[r], id) && Created(st.calls[r], id) {
    }
  }

  lemma EventIff(st: State, first: nat, id: OrderId)
    requires Kept(st, first) && HasCreator(st.calls, id)
    ensures Times(id, st.published) == 1 <==> !Stalled(st.calls, id)
  {
    var r :| r in st.calls && Created(st.calls[r], id);
    assert Announced(st.calls[r], id) || StoppedShort(st.calls[r], id);
    forall q | q in st.calls && (Announced(st.calls[q], id) || StoppedShort(st.calls[q], id)) ensures q == r {
      assert Created(st.calls[q], id);
    }
  }

  lemma ClaimIff(st: State, first: nat, id: OrderId)
    requires Kept(st, first) && HasCreator(st.calls, id)
    ensures Claimed(st.calls, id) <==>
      forall r :: r in st.calls && Created(st.calls[r], id) ==> st.calls[r].phase.Answered?
  {
    var r :| r in st.calls && Created(st.calls[r], id);
    forall q | q in st.calls && Claims(st.calls[q], id) ensures q == r {
      assert Created(st.calls[q], id);
    }
    assert st.calls[r].phase.Answered? <==> Claims(st.calls[r], id);
  }

  /** One more event at the end of a run. */
  lemma {:induction false} RunOn(st: State, es: seq<Event>, e: Event)
    requires Possible(st, es) && Enabled(Run(st, es), e)
    ensures Possible(st, es + [e]) && Run(st, es + [e]) == Next(Run(st, es), e)
    decreases |es|
  {
    if es == [] {
      assert [] + [e] == [e] && [e][1..] == [];
    } else {
      assert (es + [e])[0] == es[0] && (es + [e])[1..] == es[1..] + [e];
      RunOn(Next(st, es[0]), es[1..], e);
    }
  }

  /** The run `es` from `st` ends at `end`. */
  ghost predicate Leads(st: State, es: seq<Event>, end: State) {
    Possible(st, es) && Run(st, es) == end
  }

  lemma LeadsOn(st: State, es: seq<Event>, mid: State, e: Event, end: State)
    requires Leads(st, es, mid) && Enabled(mid, e) && Next(mid, e) == end
    ensures Leads(st, es + [e], end)
  {
    RunOn(st, es, e);
  }

  /** A table, what was published, and one POST at some phase. */
  function OnePost(orders: seq<Order>, r: RequestId, client: string, ref: string, phase: Phase): State {
    State(orders, [], map[r := Call(Post, client, ref, phase)])
  }

  /** A POST that dies right after its insert leaves its order there and nobody told, over any table that
      does not have the reference. */
  lemma OrderWithoutEvent(orders: seq<Order>, r: RequestId, client: string, ref: string) returns (es: seq<Event>)
    requires Find(orders, Key(client, SOURCE_SYSTEM, ref)).None?
    ensures var more := orders + [Order(Key(client, SOURCE_SYSTEM, ref), Held)];
      Leads(Fresh(orders), es, OnePost(more, r, client, ref, Died(Inserted(|orders|))))
  {
    var more := orders + [Order(Key(client, SOURCE_SYSTEM, ref), Held)];
    var go := Proceed(r, true);
    es := [];
    LeadsOn(Fresh(orders), es, Fresh(orders), Arrive(r, Post, client, ref), OnePost(orders, r, client, ref, Started));
    es := es + [Arrive(r, Post, client, ref)];
    PostMoves(orders, r, client, ref, Started, Missed, orders);
    LeadsOn(Fresh(orders), es, OnePost(orders, r, client, ref, Started), go, OnePost(orders, r, client, ref, Missed));
    es := es + [go];
    PostMoves(orders, r, client, ref, Missed, Resolving, orders);
    LeadsOn(Fresh(orders), es, OnePost(orders, r, client, ref, Missed), go, OnePost(orders, r, client, ref, Resolving));
    es := es + [go];
    PostMoves(orders, r, client, ref, Resolving, Inserted(|orders|), more);
    LeadsOn(Fresh(orders), es, OnePost(orders, r, client, ref, Resolving), go,
            OnePost(more, r, client, ref, Inserted(|orders|)));
    es := es + [go];
    LeadsOn(Fresh(orders), es, OnePost(more, r, client, ref, Inserted(|orders|)), Die(r),
            OnePost(more, r, client, ref, Died(Inserted(|orders|))));
    es := es + [Die(r)];
  }

  /** A POST of a reference that is not there, one piece on. */
  lemma PostMoves(orders: seq<Order>, r: RequestId, client: string, ref: string, at: Phase, to: Phase,
                  orders': seq<Order>)
    requires Find(orders, Key(client, SOURCE_SYSTEM, ref)).None?
    requires
      || (at == Started && to == Missed && orders' == orders)
      || (at == Missed && to == Resolving && orders' == orders)
      || (at == Resolving && to == Inserted(|orders|) &&
        orders' == orders + [Order(Key(client, SOURCE_SYSTEM, ref), Held)])
    ensures Enabled(OnePost(orders, r, client, ref, at), Proceed(r, true))
    ensures Next(OnePost(orders, r, client, ref, at), Proceed(r, true)) == OnePost(orders', r, client, ref, to)
  {
    var st := OnePost(orders, r, client, ref, at);
    var call := st.calls[r];
    assert KeyOf(call) == Key(client, SOURCE_SYSTEM, ref);
    assert st.calls[r := call.(phase := to)] == map[r := Call(Post, client, ref, to)];
  }

  // ---------------------------------------------------------------- a reference is never freed

  /** The table only grows, and a row keeps its key: no cancellation frees a reference. */
  lemma {:induction false} KeysStay(st: State, es: seq<Event>, id: OrderId)
    requires Possible(st, es) && id < |st.orders|
    ensures id < |Run(st, es).orders| && Run(st, es).orders[id].key == st.orders[id].key
    decreases |es|
  {
    if es != [] {
      assert id < |Next(st, es[0]).orders| && Next(st, es[0]).orders[id].key == st.orders[id].key;
      KeysStay(Next(st, es[0]), es[1..], id);
    }
  }

  /** Once an order exists, whatever has become of it, a POST of its reference that arrives later
      makes nothing and publishes nothing: its first piece answers with that order, `duplicate: true`. */
  lemma RetriesAnswerTheSame(orders: seq<Order>, before: seq<Event>, es: seq<Event>, r: RequestId, id: OrderId,
                             resolves: bool)
    requires Unique(orders) && Possible(Fresh(orders), before)
    requires var st := Run(Fresh(orders), before); id < |st.orders| && Possible(st, es)
    requires var st := Run(Run(Fresh(orders), before), es);
      && r in st.calls && st.calls[r].verb.Post? && st.calls[r].phase.Started?
      && KeyOf(st.calls[r]) == Run(Fresh(orders), before).orders[id].key
    ensures var st := Run(Run(Fresh(orders), before), es);
      Next(st, Proceed(r, resolves)) == At(st, r, Answered(Result(id, true)))
  {
    RunsKeep(Fresh(orders), before, |orders|);
    var mid := Run(Fresh(orders), before);
    RunsKeep(mid, es, |orders|);
    KeysStay(mid, es, id);
    var st := Run(mid, es);
    var found := Find(st.orders, KeyOf(st.calls[r]));
    assert found.Some? && st.orders[found.value].key == st.orders[id].key;
  }

  // ---------------------------------------------------------------- cancelling

  ghost predicate WithdrawnStay(st: State) {
    forall r ::
      (r in st.calls && st.calls[r].verb.Delete? && st.calls[r].phase.Answered? && st.calls[r].phase.answer.Result?) ==>
      var id := st.calls[r].phase.answer.id; id < |st.orders| && st.orders[id].status.Cancelled?
  }

  /** A DELETE that answers with an order has it cancelled, then and for good. */
  lemma {:induction false} DeleteMeansCancelled(st: State, es: seq<Event>)
    requires WithdrawnStay(st) && Possible(st, es)
    ensures WithdrawnStay(Run(st, es))
    decreases |es|
  {
    if es != [] {
      CancelledStays(st, es[0]);
      DeleteMeansCancelled(Next(st, es[0]), es[1..]);
    }
  }

  lemma CancelledStays(st: State, e: Event)
    requires WithdrawnStay(st) && Enabled(st, e)
    ensures WithdrawnStay(Next(st, e))
  {
    match e
    case Arrive(r, verb, client, ref) =>
    case Die(r) =>
    case InsertElsewhere(o) =>
    case Move(id, to) =>
    case Proceed(r, resolves) =>
      match st.calls[r].verb {
        case Post => PostCancelsNone(st, r, resolves);
        case Get =>
        case Delete => DeleteCancelsOwn(st, r);
      }
  }

  lemma PostCancelsNone(st: State, r: RequestId, resolves: bool)
    requires WithdrawnStay(st) && r in st.calls && st.calls[r].verb.Post?
    ensures WithdrawnStay(ProceedPost(st, r, resolves))
  {
    var st' := ProceedPost(st, r, resolves);
    assert st.orders <= st'.orders;
    assert forall q :: q in st'.calls && q != r ==> q in st.calls && st'.calls[q] == st.calls[q];
    assert st'.calls[r].verb.Post?;
  }

  lemma DeleteCancelsOwn(st: State, r: RequestId)
    requires WithdrawnStay(st) && r in st.calls && st.calls[r].verb.Delete?
    ensures WithdrawnStay(ProceedDelete(st, r))
  {
    var st' := ProceedDelete(st, r);
    assert |st'.orders| == |st.orders|;
    assert forall id :: 0 <= id < |st.orders| && st.orders[id].status.Cancelled? ==> st'.orders[id].status.Cancelled?;
    assert forall q :: q in st'.calls && q != r ==> q in st.calls && st'.calls[q] == st.calls[q];
  }

  /** What a DELETE may yet write, it read while the order could still be cancelled. */
  ghost predicate ReadInTime(st: State, es: seq<Event>, i: nat, r: RequestId, id: OrderId)
    requires Possible(st, es) && i < |es|
  {
    PrefixPossible(st, es, i);
    var mid := Run(st, es[..i]);
    && es[i].Proceed? && es[i].r == r
    && r in mid.calls && mid.calls[r].phase.Started?
    && id < |mid.orders| && Cancellable(mid.orders[id].status)
  }

  lemma {:induction false} PrefixPossible(st: State, es: seq<Event>, i: nat)
    requires Possible(st, es) && i <= |es|
    ensures Possible(st, es[..i])
    decreases |es|
  {
    if i > 0 {
      assert es[..i][1..] == es[1..][..i - 1];
      PrefixPossible(Next(st, es[0]), es[1..], i - 1);
    }
  }

  ghost predicate HasReadInTime(st: State, es: seq<Event>, r: RequestId, id: OrderId)
    requires Possible(st, es)
  {
    exists i :: 0 <= i < |es| && ReadInTime(st, es, i, r, id)
  }

  lemma ReadEarlier(st: State, es: seq<Event>, e: Event, r: RequestId, id: OrderId)
    requires Possible(st, es) && Possible(st, es + [e]) && HasReadInTime(st, es, r, id)
    ensures HasReadInTime(st, es + [e], r, id)
  {
    var i :| 0 <= i < |es| && ReadInTime(st, es, i, r, id);
    assert (es + [e])[..i] == es[..i] && (es + [e])[i] == es[i];
    assert ReadInTime(st, es + [e], i, r, id);
  }

  /** Who waits to write is who has read in time and not written since. */
  ghost predicate Waits(st: State, es: seq<Event>, r: RequestId, id: OrderId)
    requires Possible(st, es)
  {
    var end := Run(st, es);
    r in end.calls && end.calls[r].verb.Delete? && end.calls[r].phase == Withdrawing(id)
  }

  /** A DELETE is at its start, waits to write, or is done. */
  predicate DeletePhase(st: State, r: RequestId) {
    r in st.calls && st.calls[r].verb.Delete? ==>
      st.calls[r].phase.Started? || st.calls[r].phase.Withdrawing? || Finished(st.calls[r].phase)
  }

  /** Every DELETE that waits to write has read in time; and one that has read in time is past its start. */
  lemma {:induction false} WaitingReadInTime(orders: seq<Order>, es: seq<Event>, r: RequestId, id: OrderId)
    requires Possible(Fresh(orders), es)
    ensures Waits(Fresh(orders), es, r, id) ==> HasReadInTime(Fresh(orders), es, r, id)
    ensures HasReadInTime(Fresh(orders), es, r, id) ==>
      r in Run(Fresh(orders), es).calls && !Run(Fresh(orders), es).calls[r].phase.Started?
    ensures DeletePhase(Run(Fresh(orders), es), r)
  {
    var st := Fresh(orders);
    if es != [] {
      var init, e := es[..|es| - 1], es[|es| - 1];
      assert es == init + [e];
      PrefixPossible(st, es, |es| - 1);
      RunTwice(st, init, [e]);
      WaitingReadInTime(orders, init, r, id);
      var mid := Run(st, init);
      assert Run(mid, [e]) == Next(mid, e) by {
        assert [e][1..] == [];
      }
      WaitsStep(mid, e, r);
      ComesToWait(mid, e, r, id);
      if Waits(st, es, r, id) {
        if Waits(st, init, r, id) {
          ReadEarlier(st, init, e, r, id);
        } else {
          assert es[..|es| - 1] == init && ReadInTime(st, es, |es| - 1, r, id);
        }
      }
      if HasReadInTime(st, es, r, id) {
        var i :| 0 <= i < |es| && ReadInTime(st, es, i, r, id);
        if i < |init| {
          assert es[..i] == init[..i] && es[i] == init[i];
          assert ReadInTime(st, init, i, r, id);
        }
      }
    }
  }

  /** One event: a request past its start stays so, and a start is left by the request's own next piece; a DELETE
      comes to wait only by reading a status it may cancel from (`ComesToWait`). */
  lemma WaitsStep(mid: State, e: Event, r: RequestId)
    requires Enabled(mid, e) && DeletePhase(mid, r)
    ensures DeletePhase(Next(mid, e), r)
    ensures r in mid.calls && !mid.calls[r].phase.Started? ==>
      r in Next(mid, e).calls && !Next(mid, e).calls[r].phase.Started?
    ensures e.Proceed? && e.r == r ==> r in Next(mid, e).calls && !Next(mid, e).calls[r].phase.Started?
  {
  }

  lemma ComesToWait(mid: State, e: Event, r: RequestId, id: OrderId)
    requires Enabled(mid, e) && DeletePhase(mid, r)
    ensures
      r in Next(mid, e).calls && Next(mid, e).calls[r].verb.Delete? &&
        Next(mid, e).calls[r].phase == Withdrawing(id) ==>
        || (r in mid.calls && mid.calls[r].verb.Delete? && mid.calls[r].phase == Withdrawing(id))
        || (e.Proceed? && e.r == r && r in mid.calls && mid.calls[r].phase.Started? &&
            id < |mid.orders| && Cancellable(mid.orders[id].status))
  {
  }

  lemma {:induction false} RunTwice(st: State, a: seq<Event>, b: seq<Event>)
    requires Possible(st, a + b)
    ensures Possible(st, a) && Possible(Run(st, a), b) && Run(st, a + b) == Run(Run(st, a), b)
    decreases |a|
  {
    if a == [] {
      assert a + b == b;
    } else {
      assert (a + b)[1..] == a[1..] + b;
      RunTwice(Next(st, a[0]), a[1..], b);
    }
  }

  /** Which DELETEs of a cancelled order are refused, over every run: of those that answer when their order is
      cancelled, exactly the ones that had read it while it could still be cancelled. So sent after the
      cancellation, a DELETE is answered with the order; overtaken by it, it is told 409. */
  lemma CancelledDeleteIsRefusedIff(orders: seq<Order>, es: seq<Event>, r: RequestId, go: bool, id: OrderId)
    requires Unique(orders) && Possible(Fresh(orders), es)
    requires var st := Run(Fresh(orders), es);
      && Enabled(st, Proceed(r, go)) && st.calls[r].verb.Delete?
      && Find(st.orders, KeyOf(st.calls[r])) == Some(id) && st.orders[id].status.Cancelled?
    ensures var st := Run(Fresh(orders), es);
      && Next(st, Proceed(r, go)).orders == st.orders
      && Next(st, Proceed(r, go)).calls[r].phase ==
           Answered(if HasReadInTime(Fresh(orders), es, r, id) then NotCancellable else Result(id, false))
  {
    RunsKeep(Fresh(orders), es, |orders|);
    WaitingReadInTime(orders, es, r, id);
    DeleteOfAny(Run(Fresh(orders), es), r, go, id);
  }

  /** Whatever became of the order, over every run: a DELETE is refused exactly when its order can no longer be
      cancelled, unless it is cancelled and the DELETE has not read it before; and it cancels exactly the order it
      had read in time that can still be cancelled. */
  lemma LateCancelIsRefusedIff(orders: seq<Order>, es: seq<Event>, r: RequestId, go: bool, id: OrderId)
    requires Unique(orders) && Possible(Fresh(orders), es)
    requires var st := Run(Fresh(orders), es);
      Enabled(st, Proceed(r, go)) && st.calls[r].verb.Delete? && Find(st.orders, KeyOf(st.calls[r])) == Some(id)
    ensures var st, late := Run(Fresh(orders), es), HasReadInTime(Fresh(orders), es, r, id);
      var st', was := Next(st, Proceed(r, go)), st.orders[id].status;
      && (st'.calls[r].phase == Answered(NotCancellable) <==> !Cancellable(was) && (was.Cancelled? ==> late))
      && (st'.orders != st.orders <==> late && Cancellable(was))
      && (st'.orders != st.orders ==>
            st'.orders == st.orders[id := st.orders[id].(status := Cancelled)] &&
            st'.calls[r].phase == Answered(Result(id, false)))
  {
    RunsKeep(Fresh(orders), es, |orders|);
    WaitingReadInTime(orders, es, r, id);
    DeleteOfAny(Run(Fresh(orders), es), r, go, id);
  }

  /** What one more piece of a DELETE comes to, by whether it waits to write. */
  lemma DeleteOfAny(st: State, r: RequestId, go: bool, id: OrderId)
    requires Unique(st.orders) && Enabled(st, Proceed(r, go)) && st.calls[r].verb.Delete?
    requires NamesOwn(st.orders, st.calls[r]) && DeletePhase(st, r)
    requires Find(st.orders, KeyOf(st.calls[r])) == Some(id)
    ensures var waits, was := st.calls[r].phase == Withdrawing(id), st.orders[id].status;
      Next(st, Proceed(r, go)) ==
        if waits && Cancellable(was) then
          At(st.(orders := st.orders[id := st.orders[id].(status := Cancelled)]), r, Answered(Result(id, false)))
        else if !waits && Cancellable(was) then At(st, r, Withdrawing(id))
        else At(st, r, Answered(if waits || !was.Cancelled? then NotCancellable else Result(id, false)))
  {
    if st.calls[r].phase.Withdrawing? {
      var w := st.calls[r].phase.id;
      assert st.orders[w].key == st.orders[id].key;
    }
  }

  /** What one more piece of a request answers, told of the table: a GET with the order under the caller's own
      reference or not found, and a DELETE of no order not found; a POST whose addresses name no place is refused and
      makes no order. Nothing else changes but the request's own phase. */
  lemma AnswersTellTheTable(orders: seq<Order>, es: seq<Event>, r: RequestId, go: bool)
    requires Unique(orders) && Possible(Fresh(orders), es) && Enabled(Run(Fresh(orders), es), Proceed(r, go))
    ensures var st := Run(Fresh(orders), es);
      var c, st' := st.calls[r], Next(st, Proceed(r, go));
      && (c.verb.Get? ==> st' == st.(calls := st'.calls))
      && (c.verb.Get? ==> forall id ::
            (0 <= id < |st.orders| && st.orders[id].key == Key(c.client, "client_api", c.ref)) ==>
            st'.calls == st.calls[r := c.(phase := Answered(Result(id, false)))])
      && (!c.verb.Post? && c.phase.Started? && NoneUnder(st.orders, c) ==>
            st' == st.(calls := st.calls[r := c.(phase := Answered(NotFound))]))
      && (c.verb.Post? && c.phase.Resolving? && !go ==>
            st' == st.(calls := st.calls[r := c.(phase := Answered(Unresolvable))]))
  {
    RunsKeep(Fresh(orders), es, |orders|);
  }

  /** No order is under the caller's reference. */
  ghost predicate NoneUnder(orders: seq<Order>, c: Call) {
    forall id :: 0 <= id < |orders| ==> orders[id].key != Key(c.client, "client_api", c.ref)
  }

  /** So the documented idempotence of DELETE does not survive a race. On any table, two DELETEs of one order
      a client may cancel can both read it before either writes; the second to write is then refused although
      the order is cancelled, where sent afterwards it would have been answered with it. */
  lemma RacingDeleteIsRefused(orders: seq<Order>, id: OrderId, client: string, ref: string) returns (es: seq<Event>)
    requires Unique(orders) && id < |orders| && orders[id].key == Key(client, SOURCE_SYSTEM, ref)
    requires Cancellable(orders[id].status)
    ensures Leads(Fresh(orders), es, TwoDeletes(orders[id := orders[id].(status := Cancelled)], client, ref,
                                                Answered(Result(id, false)), Answered(NotCancellable)))
  {
    var cancelled := orders[id := orders[id].(status := Cancelled)];
    var start, late := Fresh(orders), Answered(NotCancellable);
    es := BothWait(orders, id, client, ref);
    var waiting := TwoDeletes(orders, client, ref, Withdrawing(id), Withdrawing(id));
    var first := TwoDeletes(cancelled, client, ref, Answered(Result(id, false)), Withdrawing(id));
    WriteMoves(waiting, 0, id, first);
    LeadsOn(start, es, waiting, Proceed(0, true), first);
    es := es + [Proceed(0, true)];
    WriteMoves(first, 1, id, TwoDeletes(cancelled, client, ref, Answered(Result(id, false)), late));
    LeadsOn(start, es, first, Proceed(1, true), TwoDeletes(cancelled, client, ref, Answered(Result(id, false)), late));
    es := es + [Proceed(1, true)];
  }

  /** A table with two DELETEs of one reference, at some phases. */
  function TwoDeletes(orders: seq<Order>, client: string, ref: string, a: Phase, b: Phase): State {
    State(orders, [], map[0 := Call(Delete, client, ref, a), 1 := Call(Delete, client, ref, b)])
  }

  /** The two DELETEs arrive and read. */
  lemma BothWait(orders: seq<Order>, id: OrderId, client: string, ref: string) returns (es: seq<Event>)
    requires Unique(orders) && id < |orders| && orders[id].key == Key(client, SOURCE_SYSTEM, ref)
    requires Cancellable(orders[id].status)
    ensures Leads(Fresh(orders), es, TwoDeletes(orders, client, ref, Withdrawing(id), Withdrawing(id)))
  {
    var start := Fresh(orders);
    var one := State(orders, [], map[0 := Call(Delete, client, ref, Started)]);
    var s0 := TwoDeletes(orders, client, ref, Started, Started);
    var s1 := TwoDeletes(orders, client, ref, Withdrawing(id), Started);
    es := [];
    LeadsOn(start, es, start, Arrive(0, Delete, client, ref), one);
    es := es + [Arrive(0, Delete, client, ref)];
    assert one.calls[1 := Call(Delete, client, ref, Started)] == s0.calls;
    LeadsOn(start, es, one, Arrive(1, Delete, client, ref), s0);
    es := es + [Arrive(1, Delete, client, ref)];
    ReadMoves(s0, 0, id, s1);
    LeadsOn(start, es, s0, Proceed(0, true), s1);
    es := es + [Proceed(0, true)];
    ReadMoves(s1, 1, id, TwoDeletes(orders, client, ref, Withdrawing(id), Withdrawing(id)));
    LeadsOn(start, es, s1, Proceed(1, true), TwoDeletes(orders, client, ref, Withdrawing(id), Withdrawing(id)));
    es := es + [Proceed(1, true)];
  }

  /** One DELETE on its own, whatever the order's status: it is cancelled, and answered with, while a client may
      still take it back, answered with if it is cancelled, and refused otherwise. */
  lemma DeleteByStatus(orders: seq<Order>, id: OrderId, client: string, ref: string)
    requires Unique(orders) && id < |orders| && orders[id].key == Key(client, "client_api", ref)
    ensures var read := [Arrive(0, Delete, client, ref), Proceed(0, true)];
      match orders[id].status
      case Received => CancelledBy(orders, id, client, ref, read + [Proceed(0, true)])
      case Classified => CancelledBy(orders, id, client, ref, read + [Proceed(0, true)])
      case Held => CancelledBy(orders, id, client, ref, read + [Proceed(0, true)])
      case Queued => CancelledBy(orders, id, client, ref, read + [Proceed(0, true)])
      case Cancelled => Leads(Fresh(orders), read, OneDelete(orders, client, ref, Answered(Result(id, false))))
      case _ => Leads(Fresh(orders), read, OneDelete(orders, client, ref, Answered(NotCancellable)))
  {
    var asked := OneDelete(orders, client, ref, Started);
    LeadsOn(Fresh(orders), [], Fresh(orders), Arrive(0, Delete, client, ref), asked);
    assert [] + [Arrive(0, Delete, client, ref)] == [Arrive(0, Delete, client, ref)];
    var found := Find(orders, Key(client, "client_api", ref));
    assert found.Some? && orders[found.value].key == orders[id].key;
    var afterRead := Next(asked, Proceed(0, true));
    assert afterRead == OneDelete(orders, client, ref, afterRead.calls[0].phase);
    LeadsOn(Fresh(orders), [Arrive(0, Delete, client, ref)], asked, Proceed(0, true), afterRead);
    var read := [Arrive(0, Delete, client, ref), Proceed(0, true)];
    assert [Arrive(0, Delete, client, ref)] + [Proceed(0, true)] == read;
    if afterRead.calls[0].phase.Withdrawing? {
      var gone := orders[id := orders[id].(status := Cancelled)];
      WriteMoves(afterRead, 0, id, OneDelete(gone, client, ref, Answered(Result(id, false))));
      LeadsOn(Fresh(orders), read, afterRead, Proceed(0, true),
              OneDelete(gone, client, ref, Answered(Result(id, false))));
    }
  }

  function OneDelete(orders: seq<Order>, client: string, ref: string, phase: Phase): State {
    State(orders, [], map[0 := Call(Delete, client, ref, phase)])
  }

  ghost predicate CancelledBy(orders: seq<Order>, id: OrderId, client: string, ref: string, es: seq<Event>)
    requires id < |orders|
  {
    Leads(Fresh(orders), es,
          OneDelete(orders[id := orders[id].(status := Cancelled)], client, ref, Answered(Result(id, false))))
  }

  lemma ReadMoves(st: State, r: RequestId, id: OrderId, to: State)
    requires Unique(st.orders) && id < |st.orders| && Cancellable(st.orders[id].status)
    requires r in st.calls && st.calls[r].verb.Delete? && st.calls[r].phase.Started? &&
      KeyOf(st.calls[r]) == st.orders[id].key
    requires to == st.(calls := st.calls[r := st.calls[r].(phase := Withdrawing(id))])
    ensures Next(st, Proceed(r, true)) == to
  {
    var found := Find(st.orders, KeyOf(st.calls[r]));
    assert found.Some? && st.orders[found.value].key == st.orders[id].key;
  }

  lemma WriteMoves(st: State, r: RequestId, id: OrderId, to: State)
    requires id < |st.orders| && r in st.calls && st.calls[r].verb.Delete? && st.calls[r].phase == Withdrawing(id)
    requires var may := Cancellable(st.orders[id].status);
      && to.orders == (if may then st.orders[id := st.orders[id].(status := Cancelled)] else st.orders)
      && to.published == st.published
      && to.calls == st.calls[r := st.calls[r].(phase := Answered(if may then Result(id, false) else NotCancellable))]
    ensures Next(st, Proceed(r, true)) == to
  {
  }
}
