/** site/image-slot.js: the sidecar store every slot on a page shares.

    One read of the file races with changes made in memory; writes of the whole store are serialised
    by `saving` and `saveDirty`. `Sidecar` is the module's state with its functions and callbacks as
    methods. Each is proved against `Next`, the step of a transition system whose runs are every order
    the event loop may choose, and the promises are proved about those runs. */
module SidecarStore {
  import opened Wrappers

  type Id = string
  type Url = string

  datatype View = View(s: real, x: real, y: real)

  /** What a slot writes: its framing, and its image if the user dropped one. */
  datatype Framing = Framing(u: Option<Url>, view: View)

  /** A stored value: older files hold a bare data URL. */
  datatype Entry = Bare(url: Url) | Framed(framing: Framing)

  type Store = map<Id, Entry>

  function UrlOf(e: Entry): Option<Url> {
    match e
    case Bare(url) => Some(url)
    case Framed(f) => f.u
  }

  /** How the one read of the file ends: its parsed content, an answer that is no object (a missing
      file, say), or a failure. */
  datatype ReadResult = Read(file: Store) | NoObject | Failed

  datatype Load = Idle | Fetching | Merged | Loaded

  /** Module state, with what the host has been handed: `writes` is every snapshot, oldest first, and
      `inFlight` the ones `save` issued that have not settled. */
  datatype State = State(
    slots: Store,
    tombstones: set<Id>,
    load: Load,
    deferred: nat,       // saves waiting on the read: one per change made before it
    saving: bool,
    saveDirty: bool,
    writer: bool,        // the host offers a way to write
    inFlight: seq<Store>,
    writes: seq<Store>)

  datatype Event =
    | Connect
    | Change(id: Id, val: Option<Framing>)   // a slot set, or cleared
    | ReadSettled(result: ReadResult)
    | MarkLoaded
    | DeferredSave
    | WriteSettled
    | Flush

  function Init(writer: bool): State {
    State(map[], {}, Idle, 0, false, false, writer, [], [])
  }

  predicate Enabled(st: State, e: Event) {
    match e
    case ReadSettled(_) => st.load == Fetching
    case MarkLoaded => st.load == Merged
    case DeferredSave => st.load == Loaded && st.deferred > 0
    case WriteSettled => st.inFlight != []
    case _ => true
  }

  // ---------------------------------------------------------------- one step

  function StartLoad(st: State): State {
    if st.load == Idle then st.(load := Fetching) else st
  }

  function Save(st: State): State {
    if st.saving then st.(saveDirty := true)
    else if !st.writer then st
    else st.(saving := true, inFlight := st.inFlight + [st.slots], writes := st.writes + [st.slots])
  }

  function Without<V>(m: map<Id, V>, id: Id): map<Id, V> {
    map k | k in m && k != id :: m[k]
  }

  function SetSlot(st: State, id: Id, val: Option<Framing>): State {
    if id == "" then st
    else
      var changed := match val
        case Some(v) => st.(slots := st.slots[id := Framed(v)], tombstones := st.tombstones - {id})
        case None => st.(slots := Without(st.slots, id),
                         tombstones := if st.load == Loaded then st.tombstones else st.tombstones + {id});
      if st.load == Loaded then Save(changed)
      else StartLoad(changed).(deferred := st.deferred + 1)
  }

  /** An in-memory value, with the image of the file's entry if it brings none of its own. */
  function Inherit(mine: Entry, file: Store, id: Id): Entry {
    if mine.Framed? && mine.framing.u.None? && id in file then Framed(mine.framing.(u := UrlOf(file[id]))) else mine
  }

  function Merge(file: Store, slots: Store, tombstones: set<Id>): Store {
    map id | id in file.Keys + slots.Keys && id !in tombstones ::
      if id in slots then Inherit(slots[id], file, id) else file[id]
  }

  function Next(st: State, e: Event): State
    requires Enabled(st, e)
  {
    match e
    case Connect => StartLoad(st)
    case Change(id, val) => SetSlot(st, id, val)
    case ReadSettled(Read(file)) =>
      st.(slots := Merge(file, st.slots, st.tombstones), tombstones := {}, load := Merged)
    case ReadSettled(NoObject) => st.(tombstones := {}, load := Merged)
    case ReadSettled(Failed) => st.(load := Merged)
    case MarkLoaded => st.(load := Loaded)
    case DeferredSave => Save(st.(deferred := st.deferred - 1))
    case WriteSettled =>
      var idle := st.(saving := false, inFlight := st.inFlight[1..]);
      if st.saveDirty then Save(idle.(saveDirty := false)) else idle
    case Flush =>
      if st.load == Loaded && st.writer then st.(writes := st.writes + [st.slots]) else st
  }

  // ---------------------------------------------------------------- the module itself

  class Sidecar {
    var slots: Store
    var tombstones: set<Id>
    var load: Load
    var deferred: nat
    var saving: bool
    var saveDirty: bool
    const writer: bool
    var inFlight: seq<Store>
    var writes: seq<Store>

    ghost function Abs(): State
      reads this
    {
      State(slots, tombstones, load, deferred, saving, saveDirty, writer, inFlight, writes)
    }

    constructor (writer: bool)
      ensures Abs() == Init(writer)
    {
      slots, tombstones, load, deferred := map[], {}, Idle, 0;
      saving, saveDirty, inFlight, writes := false, false, [], [];
      this.writer := writer;
    }

    /** `load`: the first call starts the read, later ones share it. */
    method StartReading()
      modifies this
      ensures Abs() == Next(old(Abs()), Connect)
    {
      if load == Idle {
        load := Fetching;
      }
    }

    method Set(id: Id, val: Option<Framing>)
      modifies this
      ensures Abs() == Next(old(Abs()), Change(id, val))
    {
      if id == "" {
        return;
      }
      if val.Some? {
        slots := slots[id := Framed(val.value)];
        tombstones := tombstones - {id};
      } else {
        slots := Without(slots, id);
        if load != Loaded {
          tombstones := tombstones + {id};
        }
      }
      if load == Loaded {
        SaveNow();
      } else {
        StartReading();
        deferred := deferred + 1;
      }
    }

    /** The read's callback: copy the file, lay the in-memory entries over it, give each one that has
        no image the file's, and drop what was cleared. */
    method OnReadSettled(result: ReadResult)
      requires load == Fetching
      modifies this
      ensures Abs() == Next(old(Abs()), ReadSettled(result))
    {
      if result.Read? {
        var file := result.file;
        var merged := file + slots;
        var pending := slots.Keys;
        while pending != {}
          invariant pending <= slots.Keys
          invariant unchanged(this)
          invariant merged.Keys == file.Keys + slots.Keys
          invariant forall k :: k in merged && k !in slots ==> merged[k] == file[k]
          invariant forall k :: k in slots && k in pending ==> merged[k] == slots[k]
          invariant forall k :: k in slots && k !in pending ==> merged[k] == Inherit(slots[k], file, k)
        {
          var k :| k in pending;
          if merged[k].Framed? && merged[k].framing.u.None? && k in file {
            merged := merged[k := Framed(merged[k].framing.(u := UrlOf(file[k])))];
          }
          pending := pending - {k};
        }
        merged := merged - tombstones;
        assert merged == Merge(file, slots, tombstones);
        slots := merged;
      }
      if !result.Failed? {
        tombstones := {};
      }
      load := Merged;
    }

    method OnLoaded()
      requires load == Merged
      modifies this
      ensures Abs() == Next(old(Abs()), MarkLoaded)
    {
      load := Loaded;
    }

    method OnDeferredSave()
      requires load == Loaded && deferred > 0
      modifies this
      ensures Abs() == Next(old(Abs()), DeferredSave)
    {
      deferred := deferred - 1;
      SaveNow();
    }

    method SaveNow()
      modifies this
      ensures Abs() == Save(old(Abs()))
    {
      if saving {
        saveDirty := true;
        return;
      }
      if !writer {
        return;
      }
      saving := true;
      inFlight := inFlight + [slots];
      writes := writes + [slots];
    }

    method OnWriteSettled()
      requires inFlight != []
      modifies this
      ensures Abs() == Next(old(Abs()), WriteSettled)
    {
      inFlight := inFlight[1..];
      saving := false;
      if saveDirty {
        saveDirty := false;
        SaveNow();
      }
    }

    /** `flushNow`, for a page about to unload. */
    method FlushNow()
      modifies this
      ensures Abs() == Next(old(Abs()), Flush)
    {
      if load == Loaded && writer {
        writes := writes + [slots];
      }
    }
  }

  // ---------------------------------------------------------------- runs

  /** The events happen in this order, each possible when it happens. */
  predicate Possible(st: State, es: seq<Event>)
    decreases |es|
  {
    es == [] || (Enabled(st, es[0]) && Possible(Next(st, es[0]), es[1..]))
  }

  function Run(st: State, es: seq<Event>): State
    requires Possible(st, es)
    decreases |es|
  {
    if es == [] then st else Run(Next(st, es[0]), es[1..])
  }

  /** No event of `es` ends the read. */
  predicate NoRead(es: seq<Event>) {
    forall e :: e in es ==> !e.ReadSettled?
  }

  datatype Last = Untouched | Cleared | SetTo(framing: Framing)

  function ChangeTo(e: Event, id: Id): Last {
    if e.Change? && e.id == id && id != "" then if e.val.Some? then SetTo(e.val.value) else Cleared else Untouched
  }

  /** The last change to `id` in `es`. */
  function LastChange(es: seq<Event>, id: Id): Last {
    if es == [] then Untouched
    else
      var later := LastChange(es[1..], id);
      if later.Untouched? then ChangeTo(es[0], id) else later
  }

  function Lookup(m: Store, id: Id): Option<Entry> {
    if id in m then Some(m[id]) else None
  }

  /** What a last change leaves of an entry. */
  function After(last: Last, entry: Option<Entry>): Option<Entry> {
    match last
    case Untouched => entry
    case Cleared => None
    case SetTo(v) => Some(Framed(v))
  }

  /** What the page should hold for `id`, told by the last change on each side of the read alone. A
      framing written before the read takes its image from the file. */
  function Expected(file: Store, before: seq<Event>, after: seq<Event>, id: Id): Option<Entry> {
    var mine := LastChange(before, id);
    After(LastChange(after, id),
          if mine.SetTo? && mine.framing.u.None? && id in file
          then Some(Framed(mine.framing.(u := UrlOf(file[id]))))
          else After(mine, Lookup(file, id)))
  }

  ghost predicate Holds(m: Store, file: Store, before: seq<Event>, after: seq<Event>) {
    forall id :: Lookup(m, id) == Expected(file, before, after, id)
  }

  lemma {:induction false} RunTwice(st: State, a: seq<Event>, b: seq<Event>)
    requires Possible(st, a + b)
    ensures Possible(st, a) && Possible(Run(st, a), b)
    ensures Run(st, a + b) == Run(Run(st, a), b)
    decreases |a|
  {
    if a == [] {
      assert a + b == b;
    } else {
      assert (a + b)[1..] == a[1..] + b;
      RunTwice(Next(st, a[0]), a[1..], b);
    }
  }

  /** Of the ids no longer set, the ones last cleared carry a tombstone. */
  function Marked(last: Last, marked: bool): bool {
    match last
    case Untouched => marked
    case Cleared => true
    case SetTo(_) => false
  }

  lemma StepApplies(st: State, e: Event, id: Id)
    requires Enabled(st, e) && !e.ReadSettled?
    ensures Lookup(Next(st, e).slots, id) == After(ChangeTo(e, id), Lookup(st.slots, id))
    ensures st.load in {Idle, Fetching} ==>
      && Next(st, e).load in {Idle, Fetching}
      && (id in Next(st, e).tombstones) == Marked(ChangeTo(e, id), id in st.tombstones)
  {
    match e
    case Change(changed, val) => SetSlotApplies(st, changed, val, id);
    case Connect =>
    case MarkLoaded =>
    case DeferredSave => assert Next(st, e).slots == st.slots;
    case WriteSettled => assert Next(st, e).slots == st.slots;
    case Flush => assert Next(st, e).slots == st.slots;
  }

  lemma SetSlotApplies(st: State, changed: Id, val: Option<Framing>, id: Id)
    ensures Lookup(SetSlot(st, changed, val).slots, id) ==
            After(ChangeTo(Change(changed, val), id), Lookup(st.slots, id))
    ensures st.load != Loaded ==>
      && SetSlot(st, changed, val).load in {st.load, StartLoad(st).load}
      && (id in SetSlot(st, changed, val).tombstones)
         == Marked(ChangeTo(Change(changed, val), id), id in st.tombstones)
  {
  }

  /** Away from the read, each id holds its last change, and before it a tombstone marks exactly the
      ids last cleared. */
  lemma {:induction false} ChangesApply(st: State, es: seq<Event>, id: Id)
    requires Possible(st, es) && NoRead(es)
    ensures Lookup(Run(st, es).slots, id) == After(LastChange(es, id), Lookup(st.slots, id))
    ensures st.load in {Idle, Fetching} ==>
      && Run(st, es).load in {Idle, Fetching}
      && (id in Run(st, es).tombstones) == Marked(LastChange(es, id), id in st.tombstones)
    decreases |es|
  {
    if es != [] {
      assert es[0] in es;
      StepApplies(st, es[0], id);
      ChangesApply(Next(st, es[0]), es[1..], id);
    }
  }

  /** The hydration race, in every order: whatever changes were made before and after the one read,
      each id ends up as its own last change and the file say. */
  lemma HydrationLosesNothing(writer: bool, file: Store, before: seq<Event>, after: seq<Event>)
    requires NoRead(before) && NoRead(after)
    requires Possible(Init(writer), before + [ReadSettled(Read(file))] + after)
    ensures Holds(Run(Init(writer), before + [ReadSettled(Read(file))] + after).slots, file, before, after)
  {
    var read := ReadSettled(Read(file));
    RunTwice(Init(writer), before + [read], after);
    RunTwice(Init(writer), before, [read]);
    var st := Run(Init(writer), before);
    assert Run(st, [read]) == Next(st, read);
    forall id ensures Lookup(Run(Next(st, read), after).slots, id) == Expected(file, before, after, id) {
      ChangesApply(Init(writer), before, id);
      ChangesApply(Next(st, read), after, id);
    }
  }

  /** No event of `es` changes `id`. */
  predicate Unchanged(es: seq<Event>, id: Id) {
    forall e :: e in es ==> !(e.Change? && e.id == id)
  }

  /** The last change is the last event that changes the id, if one does; the empty id is never changed. */
  lemma {:induction false} LastChangeIs(es: seq<Event>, id: Id, i: nat)
    ensures Unchanged(es, id) || id == "" ==> LastChange(es, id) == Untouched
    ensures i < |es| && id != "" && es[i].Change? && es[i].id == id && Unchanged(es[i + 1..], id) ==>
      LastChange(es, id) == match es[i].val case Some(v) => SetTo(v) case None => Cleared
  {
    if es != [] {
      assert Unchanged(es, id) ==> Unchanged(es[1..], id) by {
        assert forall e :: e in es[1..] ==> e in es;
      }
      if i == 0 {
        LastChangeIs(es[1..], id, 0);
      } else {
        LastChangeIs(es[1..], id, i - 1);
        assert i < |es| ==> es[1..][i - 1] == es[i] && es[1..][i..] == es[i + 1..];
      }
    }
  }

  /** A slot framed before the read has the file's image after it, however the file holds it: as a string that is
      the image, or as an object with one. */
  lemma ImageIsInherited(writer: bool, file: Store, before: seq<Event>, after: seq<Event>,
                         id: Id, i: nat, u: Url, view: View)
    requires NoRead(before) && NoRead(after)
    requires Possible(Init(writer), before + [ReadSettled(Read(file))] + after)
    requires id != "" && i < |before| && before[i] == Change(id, Some(Framing(None, view)))
    requires Unchanged(before[i + 1..], id) && Unchanged(after, id)
    requires id in file && (file[id] == Bare(u) || (file[id].Framed? && file[id].framing.u == Some(u)))
    ensures Lookup(Run(Init(writer), before + [ReadSettled(Read(file))] + after).slots, id) ==
            Some(Framed(Framing(Some(u), view)))
  {
    HydrationLosesNothing(writer, file, before, after);
    LastChangeIs(before, id, i);
    LastChangeIs(after, id, 0);
    assert Lookup(Run(Init(writer), before + [ReadSettled(Read(file))] + after).slots, id) ==
           Expected(file, before, after, id);
  }

  /** What a page never changed is what the file holds; what it changed last after the read, or before it with an
      image of its own, is that; and what it cleared last is gone. */
  lemma OwnChangesStand(writer: bool, file: Store, before: seq<Event>, after: seq<Event>, id: Id, i: nat)
    requires NoRead(before) && NoRead(after)
    requires Possible(Init(writer), before + [ReadSettled(Read(file))] + after)
    ensures var end := Run(Init(writer), before + [ReadSettled(Read(file))] + after).slots;
      && (Unchanged(before, id) && Unchanged(after, id) ==>
            (id in end <==> id in file) && (id in end ==> end[id] == file[id]))
      && (id != "" && i < |after| && after[i].Change? && after[i].id == id && Unchanged(after[i + 1..], id) ==>
            Stands(end, id, after[i].val))
      && (id != "" && i < |before| && before[i].Change? && before[i].id == id && Unchanged(before[i + 1..], id) &&
          Unchanged(after, id) && (before[i].val.None? || before[i].val.value.u.Some? || id !in file) ==>
            Stands(end, id, before[i].val))
  {
    HydrationLosesNothing(writer, file, before, after);
    LastChangeIs(before, id, i);
    LastChangeIs(after, id, i);
    assert Lookup(Run(Init(writer), before + [ReadSettled(Read(file))] + after).slots, id) ==
           Expected(file, before, after, id);
  }

  /** The store holds for `id` what it was set to, or nothing where it was cleared. */
  predicate Stands(m: Store, id: Id, val: Option<Framing>) {
    match val
    case Some(v) => id in m && m[id] == Framed(v)
    case None => id !in m
  }

  /** What a page does before the read it could do after it as well: it connects, changes and flushes. */
  lemma {:induction false} PossibleAfterTheRead(st: State, late: State, es: seq<Event>)
    requires Possible(st, es) && NoRead(es) && st.load in {Idle, Fetching} && st.inFlight == []
    ensures Possible(late, es)
    decreases |es|
  {
    if es != [] {
      assert es[0] in es;
      assert Next(st, es[0]).load in {Idle, Fetching} && Next(st, es[0]).inFlight == [];
      PossibleAfterTheRead(Next(st, es[0]), Next(late, es[0]), es[1..]);
    }
  }

  /** A page that reads the file before anything else. */
  function ReadFirst(file: Store): seq<Event> {
    [Connect, ReadSettled(Read(file)), MarkLoaded]
  }

  lemma OneStep(st: State, e: Event, es: seq<Event>)
    requires Enabled(st, e) && Possible(Next(st, e), es)
    ensures Possible(st, [e] + es) && Run(st, [e] + es) == Run(Next(st, e), es)
  {
    assert ([e] + es)[1..] == es;
  }

  lemma AfterReadFirst(writer: bool, file: Store)
    ensures Possible(Init(writer), ReadFirst(file))
    ensures Run(Init(writer), ReadFirst(file)) == Init(writer).(slots := file, load := Loaded)
  {
    var fetching := Init(writer).(load := Fetching);
    var merged := Init(writer).(slots := file, load := Merged);
    assert Merge(file, map[], {}) == file;
    assert Next(fetching, ReadSettled(Read(file))) == merged;
    OneStep(merged, MarkLoaded, []);
    OneStep(fetching, ReadSettled(Read(file)), [MarkLoaded]);
    OneStep(Init(writer), Connect, [ReadSettled(Read(file)), MarkLoaded]);
  }

  /** When the order of the changes and the read makes a difference: the same changes, made before the read and
      made after it, leave the same entry, unless the last of them is a framing without an image and the file
      has one. */
  lemma HydrationCommutesIff(writer: bool, file: Store, changes: seq<Event>, id: Id)
    requires NoRead(changes) && Possible(Init(writer), changes + [ReadSettled(Read(file))])
    ensures Possible(Init(writer), ReadFirst(file) + changes)
    ensures var last := LastChange(changes, id);
      Lookup(Run(Init(writer), changes + [ReadSettled(Read(file))]).slots, id)
        == Lookup(Run(Init(writer), ReadFirst(file) + changes).slots, id)
      <==> !(last.SetTo? && last.framing.u.None? && id in file && UrlOf(file[id]).Some?)
  {
    var read := ReadSettled(Read(file));
    RunTwice(Init(writer), changes, [read]);
    assert changes + [read] + [] == changes + [read];
    HydrationLosesNothing(writer, file, changes, []);
    assert Lookup(Run(Init(writer), changes + [read]).slots, id) == Expected(file, changes, [], id);
    AfterReadFirst(writer, file);
    var late := Run(Init(writer), ReadFirst(file));
    PossibleAfterTheRead(Init(writer), late, changes);
    RunJoined(Init(writer), ReadFirst(file), changes);
    ChangesApply(late, changes, id);
  }

  /** One run of that kind, with a clear in it: a slot cleared and then framed before the read has the file's
      image again after it, where cleared and framed after the read it has none. */
  lemma ClearedImageReturns(writer: bool, file: Store, id: Id, view: View)
    requires id != "" && id in file && UrlOf(file[id]).Some?
    ensures var changes := [Change(id, None), Change(id, Some(Framing(None, view)))];
      && NoRead(changes)
      && Possible(Init(writer), changes + [ReadSettled(Read(file))])
      && Possible(Init(writer), ReadFirst(file) + changes)
      && Lookup(Run(Init(writer), changes + [ReadSettled(Read(file))]).slots, id)
           == Some(Framed(Framing(UrlOf(file[id]), view)))
      && Lookup(Run(Init(writer), ReadFirst(file) + changes).slots, id) == Some(Framed(Framing(None, view)))
  {
    var clear, frame := Change(id, None), Change(id, Some(Framing(None, view)));
    var changes := [clear, frame];
    ClearThenFrame(writer, id, view);
    var read := ReadSettled(Read(file));
    RunJoined(Init(writer), changes, [read]);
    HydrationCommutesIff(writer, file, changes, id);
    assert changes + [read] + [] == changes + [read];
    HydrationLosesNothing(writer, file, changes, []);
    assert Lookup(Run(Init(writer), changes + [read]).slots, id) == Expected(file, changes, [], id);
    AfterReadFirst(writer, file);
    var late := Run(Init(writer), ReadFirst(file));
    RunTwice(Init(writer), ReadFirst(file), changes);
    ChangesApply(late, changes, id);
  }

  lemma ClearThenFrame(writer: bool, id: Id, view: View)
    requires id != ""
    ensures var changes := [Change(id, None), Change(id, Some(Framing(None, view)))];
      && NoRead(changes) && Possible(Init(writer), changes) && Run(Init(writer), changes).load == Fetching
      && LastChange(changes, id) == SetTo(Framing(None, view))
  {
    var clear, frame := Change(id, None), Change(id, Some(Framing(None, view)));
    var cleared := Next(Init(writer), clear);
    OneStep(cleared, frame, []);
    OneStep(Init(writer), clear, [frame]);
    assert [frame][1..] == [] && [clear, frame][1..] == [frame];
    assert LastChange([frame], id) == SetTo(Framing(None, view));
  }

  // ---------------------------------------------------------------- writes

  /** Nothing is handed to the host before the read has settled. */
  lemma {:induction false} NoWriteBeforeRead(writer: bool, es: seq<Event>)
    requires Possible(Init(writer), es) && NoRead(es)
    ensures Run(Init(writer), es).writes == []
  {
    SilentUntilLoaded(Init(writer), es);
  }

  lemma {:induction false} SilentUntilLoaded(st: State, es: seq<Event>)
    requires Possible(st, es) && NoRead(es)
    requires st.load in {Idle, Fetching} && st.inFlight == [] && st.writes == []
    ensures Run(st, es).load in {Idle, Fetching} && Run(st, es).inFlight == [] && Run(st, es).writes == []
    decreases |es|
  {
    if es != [] {
      assert es[0] in es;
      SilentUntilLoaded(Next(st, es[0]), es[1..]);
    }
  }

  /** A step hands over at most one snapshot, and it is the store the step leaves. */
  lemma StepWrites(st: State, e: Event)
    requires Enabled(st, e)
    ensures Next(st, e).writes == st.writes || Next(st, e).writes == st.writes + [Next(st, e).slots]
  {
    match e
    case Change(id, val) => assert SetSlot(st, id, val).writes == st.writes || st.load == Loaded;
    case Connect =>
    case ReadSettled(r) =>
    case MarkLoaded =>
    case DeferredSave =>
    case WriteSettled =>
    case Flush =>
  }

  /** Every snapshot handed over is the store at some moment of the run. */
  lemma {:induction false} WritesAreMoments(st: State, es: seq<Event>, w: Store)
    requires Possible(st, es) && w in Run(st, es).writes
    ensures w in st.writes || exists k :: 0 <= k <= |es| && Possible(st, es[..k]) && w == Run(st, es[..k]).slots
    decreases |es|
  {
    if es != [] {
      var st' := Next(st, es[0]);
      StepWrites(st, es[0]);
      WritesAreMoments(st', es[1..], w);
      if w in st'.writes {
        if w !in st.writes {
          assert es[..1] == [es[0]] && Run(st, es[..1]) == st';
        }
      } else {
        var k :| 0 <= k <= |es[1..]| && Possible(st', es[1..][..k]) && w == Run(st', es[1..][..k]).slots;
        assert es[..k + 1] == [es[0]] + es[1..][..k];
        assert es[..k + 1][1..] == es[1..][..k];
        assert Run(st, es[..k + 1]) == Run(st', es[1..][..k]);
      }
    }
  }

  /** A snapshot handed over after the read is right about every id, as of when it was taken. */
  lemma EveryWriteIsRight(writer: bool, file: Store, before: seq<Event>, after: seq<Event>, w: Store)
    requires NoRead(before) && NoRead(after)
    requires Possible(Init(writer), before + [ReadSettled(Read(file))] + after)
    requires w in Run(Init(writer), before + [ReadSettled(Read(file))] + after).writes
    ensures exists k :: 0 <= k <= |after| && Holds(w, file, before, after[..k])
  {
    var read := [ReadSettled(Read(file))];
    RunTwice(Init(writer), before + read, after);
    RunTwice(Init(writer), before, read);
    NoWriteBeforeRead(writer, before);
    var st := Run(Init(writer), before + read);
    assert st == Run(Run(Init(writer), before), read) == Next(Run(Init(writer), before), read[0]);
    WritesAreMoments(st, after, w);
    var k :| 0 <= k <= |after| && Possible(st, after[..k]) && w == Run(st, after[..k]).slots;
    RunJoined(Init(writer), before + read, after[..k]);
    HydrationLosesNothing(writer, file, before, after[..k]);
  }

  lemma {:induction false} RunJoined(st: State, a: seq<Event>, b: seq<Event>)
    requires Possible(st, a) && Possible(Run(st, a), b)
    ensures Possible(st, a + b) && Run(st, a + b) == Run(Run(st, a), b)
    decreases |a|
  {
    if a == [] {
      assert a + b == b;
    } else {
      assert (a + b)[1..] == a[1..] + b;
      RunJoined(Next(st, a[0]), a[1..], b);
    }
  }

  /** `id` was never changed in the run. */
  ghost predicate UntouchedIn(before: seq<Event>, after: seq<Event>, id: Id) {
    LastChange(before, id).Untouched? && LastChange(after, id).Untouched?
  }

  ghost predicate KeepsUntouched(w: Store, file: Store, before: seq<Event>, after: seq<Event>) {
    forall id :: id in file && UntouchedIn(before, after, id) ==> Lookup(w, id) == Some(file[id])
  }

  /** A write keeps the file's untouched entries exactly when the read returned them, or there are
      none: after a failed read, or one that found no object, the first write drops them all. */
  lemma WritesKeepFileIff(writer: bool, file: Store, result: ReadResult, before: seq<Event>, after: seq<Event>,
                          w: Store)
    requires result.Read? ==> result.file == file
    requires NoRead(before) && NoRead(after)
    requires Possible(Init(writer), before + [ReadSettled(result)] + after)
    requires w in Run(Init(writer), before + [ReadSettled(result)] + after).writes
    ensures KeepsUntouched(w, file, before, after)
      <==> result.Read? || forall id :: id in file ==> !UntouchedIn(before, after, id)
  {
    if result.Read? {
      EveryWriteIsRight(writer, file, before, after, w);
      var k :| 0 <= k <= |after| && Holds(w, file, before, after[..k]);
      forall id | id in file && UntouchedIn(before, after, id) ensures Lookup(w, id) == Some(file[id]) {
        UntouchedEarlier(after, k, id);
        assert Lookup(w, id) == Expected(file, before, after[..k], id);
      }
    } else {
      var read := [ReadSettled(result)];
      RunTwice(Init(writer), before + read, after);
      RunTwice(Init(writer), before, read);
      NoWriteBeforeRead(writer, before);
      var st := Run(Init(writer), before);
      assert Run(Init(writer), before + read) == Run(st, read) == Next(st, read[0]);
      WritesAreMoments(Next(st, read[0]), after, w);
      var k :| 0 <= k <= |after| && Possible(Next(st, read[0]), after[..k]) &&
        w == Run(Next(st, read[0]), after[..k]).slots;
      forall id | id in file && UntouchedIn(before, after, id) ensures Lookup(w, id) == None {
        UntouchedEarlier(after, k, id);
        ChangesApply(Init(writer), before, id);
        forall e | e in after[..k] ensures e in after { }
        ChangesApply(Next(st, read[0]), after[..k], id);
      }
    }
  }

  /** Four events are enough: the read fails, a slot is set, and the one write there is holds that slot alone. */
  lemma FailedReadDropsTheFile(file: Store, result: ReadResult, id: Id, f: Framing)
    requires id != "" && !result.Read?
    ensures var before, after, w := [Connect], [MarkLoaded, Change(id, Some(f))], map[id := Framed(f)];
      var es := before + [ReadSettled(result)] + after;
      && Possible(Init(true), es) && Run(Init(true), es).writes == [w]
      && (KeepsUntouched(w, file, before, after) <==> file.Keys <= {id})
  {
    var fetching := Init(true).(load := Fetching);
    var merged, loaded := fetching.(load := Merged), fetching.(load := Loaded);
    var change, w := Change(id, Some(f)), map[id := Framed(f)];
    var before, after := [Connect], [MarkLoaded, change];
    OneStep(loaded, change, []);
    OneStep(merged, MarkLoaded, [change]);
    OneStep(fetching, ReadSettled(result), [MarkLoaded] + [change]);
    OneStep(Init(true), Connect, [ReadSettled(result)] + ([MarkLoaded] + [change]));
    assert before + [ReadSettled(result)] + after == [Connect] + ([ReadSettled(result)] + ([MarkLoaded] + [change]));
    assert Run(Init(true), before + [ReadSettled(result)] + after).writes == [w];
    forall k ensures UntouchedIn(before, after, k) <==> k != id {
      assert after[1..] == [change] && before[1..] == [] && [change][1..] == [];
      assert LastChange(before[1..], k).Untouched? && LastChange([change][1..], k).Untouched?;
      assert LastChange([change], k) == ChangeTo(change, k) && LastChange(before, k).Untouched?;
    }
    WritesKeepFileIff(true, file, result, before, after, w);
  }

  lemma {:induction false} UntouchedEarlier(es: seq<Event>, k: nat, id: Id)
    requires k <= |es| && LastChange(es, id).Untouched?
    ensures LastChange(es[..k], id).Untouched?
    decreases |es|
  {
    if k > 0 {
      assert es[..k][1..] == es[1..][..k - 1];
      UntouchedEarlier(es[1..], k - 1, id);
    }
  }

  /** The page going away writes the store, exactly when the read has been merged and marked and there is a way to
      write. */
  lemma FlushWrites(writer: bool, es: seq<Event>)
    requires Possible(Init(writer), es)
    ensures Possible(Init(writer), es + [Flush])
    ensures Run(Init(writer), es + [Flush]).slots == Run(Init(writer), es).slots
    ensures Run(Init(writer), es + [Flush]).writes ==
            Run(Init(writer), es).writes + if writer && MarkLoaded in es then [Run(Init(writer), es).slots] else []
  {
    OneStep(Run(Init(writer), es), Flush, []);
    RunJoined(Init(writer), es, [Flush]);
    assert [Flush] + [] == [Flush];
    LoadedIff(Init(writer), es);
  }

  /** The read is done once it has been marked so, and the way to write is there throughout. */
  lemma {:induction false} LoadedIff(st: State, es: seq<Event>)
    requires Possible(st, es)
    ensures Run(st, es).load == Loaded <==> st.load == Loaded || MarkLoaded in es
    ensures Run(st, es).writer == st.writer
    decreases |es|
  {
    if es != [] {
      LoadedIff(Next(st, es[0]), es[1..]);
      assert MarkLoaded in es <==> es[0] == MarkLoaded || MarkLoaded in es[1..];
    }
  }

  // ---------------------------------------------------------------- serialised saves

  /** The file's content once every snapshot handed over has landed, in the order it was handed over. */
  function Image(st: State, file: Store): Store {
    if st.writes == [] then file else st.writes[|st.writes| - 1]
  }

  /** What every run of a page whose read succeeds keeps: at most one write of `save` in flight, a
      dirty mark only while it is, and no change that neither the last snapshot holds nor a save still
      to come will. */
  ghost predicate Serialised(st: State, file: Store) {
    && |st.inFlight| == (if st.saving then 1 else 0)
    && (st.saveDirty ==> st.saving)
    && (st.load != Loaded ==> st.writes == [] && !st.saving)
    && (st.load == Idle ==> st.deferred == 0)
    && (st.load in {Idle, Fetching} && st.deferred == 0 ==> st.slots == map[] && st.tombstones == {})
    && (st.load in {Merged, Loaded} && st.writer ==>
          st.slots == Image(st, file) || st.saveDirty || st.deferred > 0)
  }

  /** The read, if this is its end, returned the file. */
  ghost predicate Faithful(e: Event, file: Store) {
    e.ReadSettled? ==> e.result == Read(file) || (e.result == NoObject && file == map[])
  }

  lemma StepKeepsSerialised(st: State, e: Event, file: Store)
    requires Serialised(st, file) && Enabled(st, e) && Faithful(e, file)
    ensures Serialised(Next(st, e), file)
  {
    match e
    case Change(id, val) => ChangeKeepsSerialised(st, id, val, file);
    case ReadSettled(r) => ReadKeepsSerialised(st, r, file);
    case Connect =>
    case MarkLoaded =>
    case DeferredSave =>
    case WriteSettled =>
    case Flush =>
  }

  lemma ChangeKeepsSerialised(st: State, id: Id, val: Option<Framing>, file: Store)
    requires Serialised(st, file)
    ensures Serialised(SetSlot(st, id, val), file)
  {
  }

  lemma ReadKeepsSerialised(st: State, r: ReadResult, file: Store)
    requires Serialised(st, file) && st.load == Fetching && Faithful(ReadSettled(r), file)
    ensures Serialised(Next(st, ReadSettled(r)), file)
  {
    if st.deferred == 0 {
      assert Merge(file, st.slots, st.tombstones) == file;
    }
  }

  lemma {:induction false} RunsKeepSerialised(st: State, es: seq<Event>, file: Store)
    requires Serialised(st, file) && Possible(st, es)
    requires forall e :: e in es ==> Faithful(e, file)
    ensures Serialised(Run(st, es), file)
    decreases |es|
  {
    if es != [] {
      StepKeepsSerialised(st, es[0], file);
      RunsKeepSerialised(Next(st, es[0]), es[1..], file);
    }
  }

  /** However the read ends: at most one write of `save` in flight, and a dirty mark only while it is. */
  ghost predicate OneSave(st: State) {
    |st.inFlight| == (if st.saving then 1 else 0) && (st.saveDirty ==> st.saving)
  }

  lemma {:induction false} RunsKeepOneSave(st: State, es: seq<Event>)
    requires OneSave(st) && Possible(st, es)
    ensures OneSave(Run(st, es))
    decreases |es|
  {
    if es != [] {
      assert OneSave(Next(st, es[0]));
      RunsKeepOneSave(Next(st, es[0]), es[1..]);
    }
  }

  /** Every state any run reaches from a fresh page: one save at a time, whatever the read did; and with a read
      that returned the file, no change that neither the last snapshot holds nor a save to come will. */
  lemma SavesAreSerialised(writer: bool, es: seq<Event>, file: Store)
    requires Possible(Init(writer), es)
    ensures OneSave(Run(Init(writer), es))
    ensures (forall e :: e in es ==> Faithful(e, file)) ==> Serialised(Run(Init(writer), es), file)
  {
    RunsKeepOneSave(Init(writer), es);
    if forall e :: e in es ==> Faithful(e, file) {
      RunsKeepSerialised(Init(writer), es, file);
    }
  }

  /** What goes on by itself once the page stops changing the store. */
  predicate Internal(e: Event) {
    e.ReadSettled? || e.MarkLoaded? || e.DeferredSave? || e.WriteSettled?
  }

  predicate Quiet(st: State) {
    st.load in {Idle, Loaded} && st.inFlight == [] && (st.load == Loaded ==> st.deferred == 0)
  }

  lemma QuietMeansNothingInternal(st: State)
    ensures Quiet(st) <==> forall e :: Internal(e) ==> !Enabled(st, e)
  {
    if !Quiet(st) {
      var e := if st.load == Fetching then ReadSettled(Failed) else if st.load == Merged then MarkLoaded
               else if st.inFlight != [] then WriteSettled else DeferredSave;
      assert Internal(e) && Enabled(st, e);
    }
  }

  function Remaining(st: State): nat {
    (match st.load case Idle => 3 case Fetching => 2 case Merged => 1 case Loaded => 0)
    + 2 * st.deferred + (if st.saveDirty then 1 else 0) + |st.inFlight|
  }

  /** Once changes stop, the protocol stops too, after a bounded number of events, with the last
      snapshot handed over equal to the store. */
  lemma {:induction false} SavesSettle(st: State, es: seq<Event>, file: Store)
    requires Serialised(st, file) && st.writer && st.load != Idle
    requires Possible(st, es)
    requires forall e :: e in es ==> Internal(e) && Faithful(e, file)
    ensures |es| <= Remaining(st)
    ensures Quiet(Run(st, es)) ==> Image(Run(st, es), file) == Run(st, es).slots
    decreases |es|
  {
    if es != [] {
      var e := es[0];
      assert e in es;
      StepKeepsSerialised(st, e, file);
      assert Remaining(Next(st, e)) < Remaining(st) && Next(st, e).writer && Next(st, e).load != Idle;
      SavesSettle(Next(st, e), es[1..], file);
    }
  }
}
