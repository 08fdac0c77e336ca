/** site/image-slot.js: which image replacement wins, and when the mask over a replaced image comes
    off.

    A drop is re-encoded in the background and then becomes the slot's stored image; a write to the
    `src` attribute is a newer intent and kills it; a new image loads at its own pace. `Slot` is one
    element with its handlers as methods, each proved against `Next`; runs are every interleaving of
    user, host and browser events. */
module ReplaceMachine {
  import opened Wrappers

  type Url = string

  /** The `src` attribute: missing, written empty, or a URL that may be one that needs attribution. A missing
      and an empty one show the same, but writing one over the other is a change. */
  datatype Attribute = Missing | Empty | Src(url: Url, needsCredit: bool)

  /** What there is to show, and the replacement in flight. */
  datatype Intent = Intent(
    hasId: bool,
    connected: bool,
    stored: Option<Url>,    // the user's image, in the sidecar or the session-local copy
    src: Attribute,
    credit: bool,
    gen: nat,
    swapGen: nat,
    encodes: set<nat>)      // generations whose encode has not finished

  /** The frame's image, and the mask over it. */
  datatype Frame = Frame(
    imgSrc: Option<Url>,
    filled: bool,
    hidShowing: bool,
    loading: bool,          // the browser owes a load or error event for imgSrc
    complete: bool,         // img.complete, which lags behind an assignment
    loadPending: bool,
    swapping: bool)         // data-swapping

  datatype State = State(intent: Intent, frame: Frame)

  datatype Event =
    | Connect
    | Disconnect
    | Drop(accepted: bool)
    | Encoded(gen: nat, url: Url)
    | EncodeFailed(gen: nat)
    | SrcWritten(to: Attribute)
    | CreditWritten(present: bool)
    | StoreChanged(image: Option<Url>)   // by the read of the sidecar, or another slot's code
    | Rerender                        // hover, resize, another slot's change
    | ImageSettled                    // load or error
    | RequestSwitched                 // the microtask that makes img.complete catch up

  function Init(hasId: bool): State {
    State(Intent(hasId, false, None, Missing, false, 0, 0, {}), Frame(None, false, false, false, true, false, false))
  }

  predicate Enabled(st: State, e: Event) {
    match e
    case Encoded(g, _) => g in st.intent.encodes
    case EncodeFailed(g) => g in st.intent.encodes
    case ImageSettled => st.frame.loading
    case RequestSwitched => st.frame.loading && st.frame.complete
    case Connect => !st.intent.connected
    case Disconnect => st.intent.connected
    case _ => true
  }

  // ---------------------------------------------------------------- one step

  predicate AttributionError(i: Intent) {
    !i.credit && i.stored.None? && i.src.Src? && i.src.needsCredit
  }

  /** The URL the slot should show: the user's image over `src`, and nothing uncredited. */
  function Wanted(i: Intent): Option<Url> {
    if AttributionError(i) then None
    else if i.stored.Some? then i.stored
    else if i.src.Src? then Some(i.src.url) else None
  }

  /** `swapping` after `_releaseMask`. */
  predicate StillMasked(i: Intent, f: Frame, settled: bool) {
    f.swapping && !(i.swapGen == 0 && !f.loadPending && (settled || f.complete))
  }

  function ReleaseMask(st: State, settled: bool): State {
    st.(frame := st.frame.(swapping := StillMasked(st.intent, st.frame, settled)))
  }

  function Rendered(i: Intent, f: Frame): Frame {
    match Wanted(i)
    case Some(url) =>
      if f.imgSrc != Some(url)
      then Frame(Some(url), true, false, true, f.complete, true, f.swapping || f.imgSrc.Some? || f.hidShowing)
      else Frame(f.imgSrc, true, false, f.loading, f.complete, f.loadPending, StillMasked(i, f, false))
    case None =>
      Frame(None, false, AttributionError(i) && f.imgSrc.Some?, false, true, false, false)
  }

  function Render(st: State): State {
    State(st.intent, Rendered(st.intent, st.frame))
  }

  /** What the store's subscribers do: a slot on the page renders, one taken off it has unsubscribed. */
  function Notify(st: State): State {
    if st.intent.connected then Render(st) else st
  }

  function Next(st: State, e: Event): State
    requires Enabled(st, e)
  {
    var i := st.intent;
    match e
    case Connect => Render(st.(intent := i.(connected := true)))
    case Disconnect => st.(intent := i.(connected := false))
    case Drop(accepted) =>
      if !accepted then st
      else
        State(i.(gen := i.gen + 1, swapGen := if st.frame.filled then i.gen + 1 else i.swapGen,
                 encodes := i.encodes + {i.gen + 1}),
              st.frame.(swapping := st.frame.swapping || st.frame.filled))
    case Encoded(g, url) =>
      if g != i.gen then st.(intent := i.(encodes := i.encodes - {g}))
      else
        var kept := st.(intent := i.(encodes := i.encodes - {g}, swapGen := 0, stored := Some(url)));
        if i.hasId then Notify(kept) else Render(kept)
    case EncodeFailed(g) =>
      if g != i.gen then st.(intent := i.(encodes := i.encodes - {g}))
      else ReleaseMask(st.(intent := i.(encodes := i.encodes - {g}, swapGen := 0)), false)
    case SrcWritten(to) =>
      Render(if to == i.src then st else st.(intent := i.(src := to, gen := i.gen + 1, swapGen := 0)))
    case CreditWritten(present) => Render(st.(intent := i.(credit := present)))
    case StoreChanged(image) => Notify(st.(intent := i.(stored := image)))
    case Rerender => Notify(st)
    case ImageSettled => ReleaseMask(st.(frame := st.frame.(loadPending := false, loading := false, complete := true)),
                                     true)
    case RequestSwitched => st.(frame := st.frame.(complete := false))
  }

  // ---------------------------------------------------------------- the element itself

  class Slot {
    const hasId: bool
    var connected: bool
    var stored: Option<Url>
    var src: Attribute
    var credit: bool
    var imgSrc: Option<Url>
    var filled: bool
    var hidShowing: bool
    var loading: bool
    var complete: bool
    var gen: nat
    var swapGen: nat
    var loadPending: bool
    var swapping: bool
    var encodes: set<nat>

    ghost function Abs(): State
      reads this
    {
      State(Intent(hasId, connected, stored, src, credit, gen, swapGen, encodes),
            Frame(imgSrc, filled, hidShowing, loading, complete, loadPending, swapping))
    }

    constructor (hasId: bool)
      ensures Abs() == Init(hasId)
    {
      this.hasId := hasId;
      connected, stored, src, credit := false, None, Missing, false;
      imgSrc, filled, hidShowing, loading, complete := None, false, false, false, true;
      gen, swapGen, loadPending, swapping, encodes := 0, 0, false, false, {};
    }

    /** `_releaseMask`. */
    method Release(settled: bool)
      modifies this
      ensures Abs() == ReleaseMask(old(Abs()), settled)
    {
      if swapGen == 0 && !loadPending && (settled || complete) {
        swapping := false;
      }
    }

    /** The content part of `_render`. */
    method RenderContent()
      modifies this
      ensures Abs() == Render(old(Abs()))
    {
      var url := if stored.Some? then stored else if src.Src? then Some(src.url) else None;
      var attributionError := !credit && stored.None? && src.Src? && src.needsCredit;
      if url.Some? && !attributionError {
        if imgSrc != url {
          if imgSrc.Some? || hidShowing {
            swapping := true;
          }
          loadPending := true;
          imgSrc := url;
          loading := true;
        } else {
          Release(false);
        }
        hidShowing := false;
        filled := true;
      } else {
        swapping := false;
        loadPending := false;
        hidShowing := attributionError && imgSrc.Some?;
        imgSrc := None;
        loading := false;
        complete := true;
        filled := false;
      }
    }

    method OnStoreNotice()
      modifies this
      ensures Abs() == Next(old(Abs()), Rerender)
    {
      if connected {
        RenderContent();
      }
    }

    method OnConnect()
      requires !connected
      modifies this
      ensures Abs() == Next(old(Abs()), Connect)
    {
      connected := true;
      RenderContent();
    }

    method OnDisconnect()
      requires connected
      modifies this
      ensures Abs() == Next(old(Abs()), Disconnect)
    {
      connected := false;
    }

    /** `_ingest` up to its await. */
    method Ingest(accepted: bool)
      modifies this
      ensures Abs() == Next(old(Abs()), Drop(accepted))
    {
      if !accepted {
        return;
      }
      gen := gen + 1;
      if filled {
        swapping := true;
        swapGen := gen;
      }
      encodes := encodes + {gen};
    }

    /** `_ingest` resumed with the encoded image. */
    method OnEncoded(captured: nat, url: Url)
      requires captured in encodes
      modifies this
      ensures Abs() == Next(old(Abs()), Encoded(captured, url))
    {
      encodes := encodes - {captured};
      if captured != gen {
        return;
      }
      swapGen := 0;
      stored := Some(url);
      if hasId {
        OnStoreNotice();
      } else {
        RenderContent();
      }
    }

    method OnEncodeFailed(captured: nat)
      requires captured in encodes
      modifies this
      ensures Abs() == Next(old(Abs()), EncodeFailed(captured))
    {
      encodes := encodes - {captured};
      if captured != gen {
        return;
      }
      swapGen := 0;
      Release(false);
    }

    /** `attributeChangedCallback` for `src`. */
    method OnSrcWritten(to: Attribute)
      modifies this
      ensures Abs() == Next(old(Abs()), SrcWritten(to))
    {
      if to != src {
        src := to;
        gen := gen + 1;
        swapGen := 0;
      }
      RenderContent();
    }

    method OnCreditWritten(present: bool)
      modifies this
      ensures Abs() == Next(old(Abs()), CreditWritten(present))
    {
      credit := present;
      RenderContent();
    }

    /** The image's load and error listeners. */
    method OnImageSettled()
      requires loading
      modifies this
      ensures Abs() == Next(old(Abs()), ImageSettled)
    {
      loading := false;
      complete := true;
      loadPending := false;
      Release(true);
    }
  }

  // ---------------------------------------------------------------- what every run keeps

  ghost predicate Consistent(st: State) {
    && Sound(st)
    && (st.intent.connected ==> Shown(st))
  }

  /** Holds on and off the page. */
  ghost predicate Sound(st: State) {
    var i, f := st.intent, st.frame;
    && f.loading == f.loadPending
    && (!f.loading ==> f.complete)
    && (i.swapGen != 0 ==> i.gen in i.encodes)
    && (forall g :: g in i.encodes ==> 0 < g <= i.gen)
    && f.filled == f.imgSrc.Some?
    && (f.loading ==> f.filled)
  }

  /** The frame holds what it should, and the mask over it is owed an event that can take it off: the
      end of the newest encode, or of a load. */
  ghost predicate Shown(st: State) {
    var i, f := st.intent, st.frame;
    && f.imgSrc == Wanted(i)
    && (f.swapping ==> (i.swapGen != 0 && i.gen in i.encodes) || f.loadPending)
  }

  predicate Possible(st: State, es: seq<Event>)
    decreases |es|
  {
    es == [] || (Enabled(st, es[0]) && Possible(Next(st, es[0]), es[1..]))
  }

  function Run(st: State, es: seq<Event>): State
    requires Possible(st, es)
    decreases |es|
  {
    if es == [] then st else Run(Next(st, es[0]), es[1..])
  }

  lemma RenderShows(st: State)
    requires Sound(st)
    ensures Sound(Render(st)) && Shown(Render(st))
  {
  }

  lemma StepKeepsConsistent(st: State, e: Event)
    requires Consistent(st) && Enabled(st, e)
    ensures Consistent(Next(st, e))
  {
    match e
    case Connect => RenderShows(st.(intent := st.intent.(connected := true)));
    case Disconnect =>
    case Drop(accepted) => DropKeepsConsistent(st, accepted);
    case Encoded(g, url) => EncodedKeepsConsistent(st, g, url);
    case EncodeFailed(g) => FailureKeepsConsistent(st, g);
    case SrcWritten(to) => SrcKeepsConsistent(st, to);
    case CreditWritten(present) => RenderShows(st.(intent := st.intent.(credit := present)));
    case StoreChanged(image) => RenderShows(st.(intent := st.intent.(stored := image)));
    case Rerender => RenderShows(st);
    case ImageSettled => SettledKeepsConsistent(st);
    case RequestSwitched =>
  }

  lemma DropKeepsConsistent(st: State, accepted: bool)
    requires Consistent(st)
    ensures Consistent(Next(st, Drop(accepted)))
  {
  }

  lemma EncodedKeepsConsistent(st: State, g: nat, url: Url)
    requires Consistent(st) && g in st.intent.encodes
    ensures Consistent(Next(st, Encoded(g, url)))
  {
    if g == st.intent.gen {
      RenderShows(st.(intent := st.intent.(encodes := st.intent.encodes - {g}, swapGen := 0, stored := Some(url))));
    }
  }

  lemma FailureKeepsConsistent(st: State, g: nat)
    requires Consistent(st) && g in st.intent.encodes
    ensures Consistent(Next(st, EncodeFailed(g)))
  {
  }

  lemma SrcKeepsConsistent(st: State, to: Attribute)
    requires Consistent(st)
    ensures Consistent(Next(st, SrcWritten(to)))
  {
    var i := st.intent;
    RenderShows(if to == i.src then st else st.(intent := i.(src := to, gen := i.gen + 1, swapGen := 0)));
  }

  lemma SettledKeepsConsistent(st: State)
    requires Consistent(st) && st.frame.loading
    ensures Consistent(Next(st, ImageSettled))
  {
  }

  lemma {:induction false} RunsKeepConsistent(st: State, es: seq<Event>)
    requires Consistent(st) && Possible(st, es)
    ensures Consistent(Run(st, es))
    decreases |es|
  {
    if es != [] {
      StepKeepsConsistent(st, es[0]);
      RunsKeepConsistent(Next(st, es[0]), es[1..]);
    }
  }

  lemma EveryRunIsConsistent(hasId: bool, es: seq<Event>)
    requires Possible(Init(hasId), es)
    ensures Consistent(Run(Init(hasId), es))
  {
    RunsKeepConsistent(Init(hasId), es);
  }

  /** What a slot on the page shows after any run: the user's image if there is one; failing that what `src` names,
      unless it needs a credit and there is none; and failing that nothing. */
  lemma ShowsWhatItShould(hasId: bool, es: seq<Event>)
    requires Possible(Init(hasId), es) && Run(Init(hasId), es).intent.connected
    ensures var i, f := Run(Init(hasId), es).intent, Run(Init(hasId), es).frame;
      && (i.stored.Some? ==> f.imgSrc == i.stored)
      && (i.stored.None? && i.src.Src? && (i.credit || !i.src.needsCredit) ==> f.imgSrc == Some(i.src.url))
      && (i.stored.None? && (!i.src.Src? || (i.src.needsCredit && !i.credit)) ==> f.imgSrc == None)
      && (f.filled <==> f.imgSrc.Some?)
  {
    EveryRunIsConsistent(hasId, es);
  }

  /** No event of the run writes `src`; nor `credit`; nor the user's image; nor takes the slot on or off the page. */
  predicate NoSrc(es: seq<Event>) {
    forall e :: e in es ==> !e.SrcWritten?
  }

  predicate NoCredit(es: seq<Event>) {
    forall e :: e in es ==> !e.CreditWritten?
  }

  predicate NoImage(es: seq<Event>) {
    forall e :: e in es ==> !e.StoreChanged? && !e.Encoded?
  }

  predicate NoMove(es: seq<Event>) {
    forall e :: e in es ==> !e.Connect? && !e.Disconnect?
  }

  /** What no event of a run writes is as it was. */
  lemma {:induction false} UnwrittenStays(st: State, es: seq<Event>)
    requires Possible(st, es)
    ensures NoSrc(es) ==> Run(st, es).intent.src == st.intent.src
    ensures NoCredit(es) ==> Run(st, es).intent.credit == st.intent.credit
    ensures NoImage(es) ==> Run(st, es).intent.stored == st.intent.stored
    ensures NoMove(es) ==> Run(st, es).intent.connected == st.intent.connected
    decreases |es|
  {
    if es != [] {
      var rest := es[1..];
      assert es[0] in es && forall e :: e in rest ==> e in es;
      UnwrittenStays(Next(st, es[0]), rest);
    }
  }

  /** And what one last writes is as it was written: by a `src` or credit write, by the store, or by coming to the
      page or leaving it. */
  lemma LastWritten(st: State, e: Event, after: seq<Event>)
    requires Enabled(st, e) && Possible(Next(st, e), after)
    ensures e.SrcWritten? && NoSrc(after) ==> Run(Next(st, e), after).intent.src == e.to
    ensures e.CreditWritten? && NoCredit(after) ==> Run(Next(st, e), after).intent.credit == e.present
    ensures e.StoreChanged? && NoImage(after) ==> Run(Next(st, e), after).intent.stored == e.image
    ensures e.Connect? && NoMove(after) ==> Run(Next(st, e), after).intent.connected
    ensures e.Disconnect? && NoMove(after) ==> !Run(Next(st, e), after).intent.connected
  {
    UnwrittenStays(Next(st, e), after);
  }

  /** The mask never comes off early: a step that takes it off leaves either an empty frame, or an
      image that has settled, with no claim of a running encode on the slot. */
  lemma MaskComesOffSettled(st: State, e: Event)
    requires Consistent(st) && Enabled(st, e)
    requires st.frame.swapping && !Next(st, e).frame.swapping
    ensures var st' := Next(st, e);
      !st'.frame.filled ||
      (st'.intent.swapGen == 0 && !st'.frame.loading && st'.frame.imgSrc == st.frame.imgSrc)
  {
  }

  /** And it goes on in time: a drop accepted over a shown image, and any step that puts another image in
      a frame that showed one, or that was wiped only for want of a credit, leaves the mask on. So no
      image is seen under a replacement that has begun. */
  lemma ReplacementIsMasked(st: State, e: Event)
    requires Consistent(st) && Enabled(st, e)
    ensures e.Drop? && e.accepted && st.frame.filled ==> Next(st, e).frame.swapping
    ensures var st' := Next(st, e);
      (st.frame.imgSrc.Some? || st.frame.hidShowing) && st'.frame.imgSrc.Some? &&
        st'.frame.imgSrc != st.frame.imgSrc ==>
        st'.frame.swapping && st'.frame.loading
    ensures var st' := Next(st, e);
      st.frame.imgSrc.Some? && st'.frame.imgSrc.None? ==> st'.frame.hidShowing == AttributionError(st'.intent)
  {
  }

  // ---------------------------------------------------------------- settling

  predicate Internal(e: Event) {
    e.Encoded? || e.EncodeFailed? || e.ImageSettled? || e.RequestSwitched?
  }

  predicate Quiet(st: State) {
    st.intent.encodes == {} && !st.frame.loading
  }

  lemma QuietMeansNothingInternal(st: State)
    ensures Quiet(st) <==> forall e :: Internal(e) ==> !Enabled(st, e)
  {
    if g :| g in st.intent.encodes {
      assert Internal(EncodeFailed(g)) && Enabled(st, EncodeFailed(g));
    } else if st.frame.loading {
      assert Internal(ImageSettled) && Enabled(st, ImageSettled);
    }
  }

  function Remaining(st: State): nat {
    3 * |st.intent.encodes| + (if st.frame.loading then 1 else 0)
    + (if st.frame.loading && st.frame.complete then 1 else 0)
  }

  lemma SettlingShrinks(st: State, e: Event)
    requires st.intent.connected && Enabled(st, e) && Internal(e)
    ensures Remaining(Next(st, e)) < Remaining(st) && Next(st, e).intent.connected
  {
    if e.Encoded? || e.EncodeFailed? {
      assert |st.intent.encodes - {e.gen}| == |st.intent.encodes| - 1;
    }
  }

  /** Letting encodes and loads settle ends, and ends with the slot unmasked and showing what it
      should. */
  lemma {:induction false} SettlesUnmasked(st: State, es: seq<Event>)
    requires Consistent(st) && st.intent.connected && Possible(st, es)
    requires forall e :: e in es ==> Internal(e)
    ensures |es| <= Remaining(st)
    ensures Quiet(Run(st, es)) ==> !Run(st, es).frame.swapping && Run(st, es).frame.imgSrc == Wanted(Run(st, es).intent)
    decreases |es|
  {
    if es != [] {
      var e := es[0];
      assert e in es;
      StepKeepsConsistent(st, e);
      SettlingShrinks(st, e);
      SettlesUnmasked(Next(st, e), es[1..]);
    }
  }

  // ---------------------------------------------------------------- which replacement wins

  /** A newer intent for the slot's content: an accepted drop, or a `src` write that changes it. */
  predicate Newer(st: State, e: Event) {
    (e.Drop? && e.accepted) || (e.SrcWritten? && e.to != st.intent.src)
  }

  /** Some event of the run is a newer intent. */
  predicate Superseded(st: State, es: seq<Event>)
    requires Possible(st, es)
    decreases |es|
  {
    es != [] && (Newer(st, es[0]) || Superseded(Next(st, es[0]), es[1..]))
  }

  lemma {:induction false} GenerationCounts(st: State, es: seq<Event>)
    requires Possible(st, es)
    ensures Run(st, es).intent.gen >= st.intent.gen
    ensures Run(st, es).intent.gen == st.intent.gen <==> !Superseded(st, es)
    decreases |es|
  {
    if es != [] {
      GenerationCounts(Next(st, es[0]), es[1..]);
    }
  }

  /** A drop's encode is stored exactly when no later drop or `src` write came before it finished;
      otherwise it changes nothing. */
  lemma EncodeCommitsIff(st: State, es: seq<Event>, url: Url)
    requires var dropped := Next(st, Drop(true));
      Possible(dropped, es) && dropped.intent.gen in Run(dropped, es).intent.encodes
    ensures var dropped := Next(st, Drop(true));
      var before := Run(dropped, es);
      var after := Next(before, Encoded(dropped.intent.gen, url));
      if Superseded(dropped, es)
      then after == before.(intent := before.intent.(encodes := before.intent.encodes - {dropped.intent.gen}))
      else after.intent.stored == Some(url) && after.intent.swapGen == 0 &&
           (after.intent.connected ==> after.frame.imgSrc == Some(url))
  {
    GenerationCounts(Next(st, Drop(true)), es);
  }

  /** An empty `src` written over a missing one shows nothing new and is a newer intent all the same: it
      stops the encode of a drop before it. */
  lemma EmptySrcStopsTheEncode(st: State, url: Url)
    requires st.intent.src == Missing && forall g :: g in st.intent.encodes ==> g <= st.intent.gen
    ensures var dropped := Next(st, Drop(true));
      var emptied := Next(dropped, SrcWritten(Empty));
      && dropped.intent.gen in emptied.intent.encodes
      && Wanted(emptied.intent) == Wanted(st.intent)
      && Next(emptied, Encoded(dropped.intent.gen, url)).intent.stored == st.intent.stored
  {
  }
}
