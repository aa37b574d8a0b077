/** The lazy entry over the glue (`browser.js`): `init`, `init_sync` and the promise overlapping
    inits share. */
module LazyEntry {
  import opened Wrappers
  import opened Glue
  import opened GlueSafety

  /** One `_init(...).then(...)` chain: loading, its glue half settled with the reaction still
      queued, or done. */
  datatype Promise = Loading(load: nat) | Settling(ok: bool) | Resolved | Rejected

  /** One `init()` call: returned at once, or awaiting the promise it found or started. */
  datatype Call = Returned | Awaiting(p: nat)

  datatype Entry = Entry(
    glue: Glue.State,
    ready: bool,
    initP: Option<nat>,
    promises: seq<Promise>,
    calls: seq<Call>
  )

  const INITIAL_ENTRY := Entry(Glue.INITIAL, false, None, [], [])

  datatype Event =
    | CallInit
    | CallInitSync(code: Code, ok: bool)
    | Settle(p: nat, code: Code, ok: bool)
    | React(p: nat)
    | Other(action: Glue.Action)       // everything else that reaches the glue, other entries included

  function CallInitStep(e: Entry): Entry {
    if e.ready then e.(calls := e.calls + [Returned])
    else if e.initP.Some? then e.(calls := e.calls + [Awaiting(e.initP.value)])
    else
      var begun := Step(e.glue, BeginInit);
      e.(glue := begun.state,
         initP := Some(|e.promises|),
         promises := e.promises + [if begun.reply.Suspended? then Loading(begun.reply.load) else Settling(true)],
         calls := e.calls + [Awaiting(|e.promises|)])
  }

  function CallInitSyncStep(e: Entry, code: Code, ok: bool): Entry {
    if e.ready then e
    else
      var inited := Step(e.glue, InitSync(code, ok));
      e.(glue := inited.state, ready := inited.reply != Threw)
  }

  function SettleStep(e: Entry, p: nat, code: Code, ok: bool): Entry {
    if p >= |e.promises| || !e.promises[p].Loading? then e
    else
      var finished := Step(e.glue, FinishInit(e.promises[p].load, code, ok));
      e.(glue := finished.state, promises := e.promises[p := Settling(finished.reply != Threw)])
  }

  function ReactStep(e: Entry, p: nat): Entry {
    if p >= |e.promises| || !e.promises[p].Settling? then e
    else if e.promises[p].ok then e.(ready := true, promises := e.promises[p := Resolved])
    else e.(initP := None, promises := e.promises[p := if e.ready then Resolved else Rejected])
  }

  /** The load is one this entry is waiting for. */
  predicate Owns(e: Entry, load: nat) {
    Loading(load) in e.promises
  }

  function EntryStep(e: Entry, v: Event): Entry {
    match v
    case CallInit => CallInitStep(e)
    case CallInitSync(code, ok) => CallInitSyncStep(e, code, ok)
    case Settle(p, code, ok) => SettleStep(e, p, code, ok)
    case React(p) => ReactStep(e, p)
    case Other(a) => if a.FinishInit? && Owns(e, a.load) then e else e.(glue := Step(e.glue, a).state)
  }

  function EntryRun(e: Entry, events: seq<Event>): Entry
    decreases events
  {
    if events == [] then e else EntryRun(EntryStep(e, events[0]), events[1..])
  }

  // ----- the entry itself -----

  class BrowserEntry {
    const glue: GlueModule
    var ready: bool
    var initP: Option<nat>
    var promises: seq<Promise>
    var calls: seq<Call>

    ghost function Abstract(): Entry
      reads this, glue, glue.handles
    {
      Entry(glue.Abstract(), ready, initP, promises, calls)
    }

    constructor ()
      ensures glue.Valid() && Abstract() == INITIAL_ENTRY
    {
      glue := new GlueModule();
      ready, initP, promises, calls := false, None, [], [];
    }

    /** `init()` up to its `await`. */
    method Init()
      requires glue.Valid()
      modifies this, glue
      ensures glue.Valid() && Abstract() == EntryStep(old(Abstract()), CallInit)
    {
      if ready {
        calls := calls + [Returned];
        return;
      }
      if initP.None? {
        var reply := glue.BeginInit();
        initP := Some(|promises|);
        promises := promises + [if reply.Suspended? then Loading(reply.load) else Settling(true)];
      }
      calls := calls + [Awaiting(initP.value)];
    }

    method InitSync(code: Code, ok: bool)
      requires glue.Valid()
      modifies this, glue
      ensures glue.Valid() && Abstract() == EntryStep(old(Abstract()), CallInitSync(code, ok))
    {
      if ready {
        return;
      }
      var reply := glue.InitSync(code, ok);
      if reply == Threw {
        return;
      }
      ready := true;
    }

    /** The glue's half of the promise finishes. */
    method Settle(p: nat, code: Code, ok: bool)
      requires glue.Valid()
      requires p < |promises| && promises[p].Loading? && promises[p].load in glue.loading
      modifies this, glue
      ensures glue.Valid() && Abstract() == EntryStep(old(Abstract()), Event.Settle(p, code, ok))
    {
      var reply := glue.FinishInit(promises[p].load, code, ok);
      promises := promises[p := Settling(reply != Threw)];
    }

    /** The `then` callbacks. */
    method React(p: nat)
      requires p < |promises| && promises[p].Settling?
      modifies this
      ensures Abstract() == EntryStep(old(Abstract()), Event.React(p))
    {
      if promises[p].ok {
        ready := true;
        promises := promises[p := Resolved];
        return;
      }
      initP := None;
      promises := promises[p := if ready then Resolved else Rejected];
    }
  }

  // ----- what every run keeps -----

  predicate InFlight(e: Entry, p: nat) {
    p < |e.promises| && (e.promises[p].Loading? || e.promises[p].Settling?)
  }

  ghost predicate EntryInvariant(e: Entry) {
    && Invariant(e.glue)
    && (forall l <- e.glue.loading :: l < e.glue.loads)
    && (e.initP.Some? ==> e.initP.value < |e.promises| && !e.promises[e.initP.value].Rejected?)
    && (forall p: nat :: InFlight(e, p) ==> e.initP == Some(p))
    && (forall p: nat :: p < |e.promises| && e.promises[p].Loading? ==> e.promises[p].load in e.glue.loading)
    && (forall p: nat :: p < |e.promises| && e.promises[p].Resolved? ==> e.ready)
    && (forall p: nat :: p < |e.promises| && e.promises[p] == Settling(true) ==> e.glue.installs != [])
    && (e.ready ==> e.glue.installs != [])
    && (forall c <- e.calls :: (c.Returned? ==> e.ready) && (c.Awaiting? ==> c.p < |e.promises|))
  }

  lemma GlueStepFacts(s: Glue.State, a: Glue.Action)
    requires Invariant(s) && forall l <- s.loading :: l < s.loads
    ensures var s' := Step(s, a).state;
            && Invariant(s') && (forall l <- s'.loading :: l < s'.loads) && s.installs <= s'.installs
            && (forall l <- s.loading :: (a.FinishInit? && a.load == l) || l in s'.loading)
            && (a.FinishInit? && a.load in s.loading ==> (Step(s, a).reply == Threw <==> !a.ok))
            && (a.FinishInit? && a.load in s.loading && a.ok ==> s'.installs != [])
            && (a.InitSync? && Step(s, a).reply != Threw ==> s'.installs != [])
  {
    hide Invariant;
    StepKeepsInvariant(s, a);
    if s.wasm.Some? {
      InstalledShows(s);
    }
  }

  lemma InstalledShows(s: Glue.State)
    requires Invariant(s) && s.wasm.Some?
    ensures s.installs != []
  {
  }

  /** The glue moved, the entry did not. */
  lemma GlueMoveKeepsInvariant(e: Entry, glue: Glue.State)
    requires EntryInvariant(e) && Invariant(glue) && e.glue.installs <= glue.installs
    requires forall l <- glue.loading :: l < glue.loads
    requires forall p: nat :: p < |e.promises| && e.promises[p].Loading? ==> e.promises[p].load in glue.loading
    ensures EntryInvariant(e.(glue := glue))
  {
    var e' := e.(glue := glue);
    assert forall p: nat :: InFlight(e', p) <==> InFlight(e, p);
  }

  lemma CallInitKeepsInvariant(e: Entry)
    requires EntryInvariant(e)
    ensures EntryInvariant(EntryStep(e, CallInit))
  {
    if !e.ready && e.initP.None? {
      var begun := Step(e.glue, BeginInit);
      var e' := EntryStep(e, CallInit);
      GlueStepFacts(e.glue, BeginInit);
      GlueMoveKeepsInvariant(e, begun.state);
      assert forall p: nat :: InFlight(e', p) ==> p == |e.promises| || InFlight(e, p);
      assert e.glue.wasm.Some? ==> e.glue.installs != [];
    } else {
      assert forall p: nat :: InFlight(EntryStep(e, CallInit), p) <==> InFlight(e, p);
    }
  }

  lemma CallInitSyncKeepsInvariant(e: Entry, code: Code, ok: bool)
    requires EntryInvariant(e)
    ensures EntryInvariant(EntryStep(e, CallInitSync(code, ok)))
  {
    if !e.ready {
      var e' := EntryStep(e, CallInitSync(code, ok));
      GlueStepFacts(e.glue, InitSync(code, ok));
      GlueMoveKeepsInvariant(e, e'.glue);
      assert forall p: nat :: InFlight(e', p) <==> InFlight(e, p);
    }
  }

  lemma SettleKeepsInvariant(e: Entry, p: nat, code: Code, ok: bool)
    requires EntryInvariant(e)
    ensures EntryInvariant(EntryStep(e, Settle(p, code, ok)))
  {
    if p < |e.promises| && e.promises[p].Loading? {
      var e' := EntryStep(e, Settle(p, code, ok));
      assert InFlight(e, p);
      GlueStepFacts(e.glue, FinishInit(e.promises[p].load, code, ok));
      assert forall q: nat :: InFlight(e', q) <==> InFlight(e, q);
      assert forall q: nat :: q < |e.promises| && q != p && e.promises[q].Loading? ==> InFlight(e, q);
    }
  }

  lemma ReactKeepsInvariant(e: Entry, p: nat)
    requires EntryInvariant(e)
    ensures EntryInvariant(EntryStep(e, React(p)))
  {
    if p < |e.promises| && e.promises[p].Settling? {
      var e' := EntryStep(e, React(p));
      assert InFlight(e, p);
      assert forall q: nat :: InFlight(e', q) ==> InFlight(e, q) && q != p;
    }
  }

  lemma OtherKeepsInvariant(e: Entry, a: Glue.Action)
    requires EntryInvariant(e)
    ensures EntryInvariant(EntryStep(e, Other(a)))
  {
    if !(a.FinishInit? && Owns(e, a.load)) {
      var glue := Step(e.glue, a).state;
      GlueStepFacts(e.glue, a);
      assert forall p: nat :: p < |e.promises| && e.promises[p].Loading? ==> Owns(e, e.promises[p].load);
      GlueMoveKeepsInvariant(e, glue);
    }
  }

  lemma EntryStepKeepsInvariant(e: Entry, v: Event)
    requires EntryInvariant(e)
    ensures EntryInvariant(EntryStep(e, v))
  {
    match v
    case CallInit => CallInitKeepsInvariant(e);
    case CallInitSync(code, ok) => CallInitSyncKeepsInvariant(e, code, ok);
    case Settle(p, code, ok) => SettleKeepsInvariant(e, p, code, ok);
    case React(p) => ReactKeepsInvariant(e, p);
    case Other(a) => OtherKeepsInvariant(e, a);
  }

  lemma {:induction false} EntryRunKeepsInvariant(e: Entry, events: seq<Event>)
    requires EntryInvariant(e)
    ensures EntryInvariant(EntryRun(e, events))
    decreases events
  {
    if events != [] {
      EntryStepKeepsInvariant(e, events[0]);
      EntryRunKeepsInvariant(EntryStep(e, events[0]), events[1..]);
    }
  }

  /** At every point of every run: overlapping inits share one flight; an `init()` that has
      resolved, by returning at once or through its promise, finds the entry ready; a rejected
      promise is never the shared one. */
  lemma InitContract(events: seq<Event>)
    ensures var e := EntryRun(INITIAL_ENTRY, events);
            && (forall p: nat, q: nat :: InFlight(e, p) && InFlight(e, q) ==> p == q)
            && (forall c <- e.calls ::
                  c.Returned? || (c.p < |e.promises| && e.promises[c.p].Resolved?) ==> e.ready)
            && (e.initP.Some? ==> e.initP.value < |e.promises| && !e.promises[e.initP.value].Rejected?)
  {
    EntryRunKeepsInvariant(INITIAL_ENTRY, events);
  }

  /** A ready entry, or one about to become ready, has an instance. */
  ghost predicate Backed(e: Entry) {
    (e.ready || exists p: nat :: p < |e.promises| && e.promises[p] == Settling(true)) ==> e.glue.wasm.Some?
  }

  lemma InstanceLostOnlyByThrow(e: Entry, v: Event)
    requires EntryInvariant(e) && Backed(e) && v != Other(Glue.Action.Reinstantiate(false))
    ensures Backed(EntryStep(e, v))
  {
    var e' := EntryStep(e, v);
    if v.React? && v.p < |e.promises| && e.promises[v.p].Settling? {
      assert forall q: nat :: q < |e'.promises| && e'.promises[q] == Settling(true) ==> e.promises[q] == Settling(true);
    } else {
      assert e.glue.wasm.Some? ==> e'.glue.wasm.Some?;
      if q: nat :| q < |e'.promises| && e'.promises[q] == Settling(true) {
        assert (q < |e.promises| && e.promises[q] == Settling(true)) || e'.glue.wasm.Some?;
      }
    }
  }

  lemma {:induction false} BackedUnlessThrown(e: Entry, events: seq<Event>)
    requires EntryInvariant(e) && Backed(e) && Other(Glue.Action.Reinstantiate(false)) !in events
    ensures Backed(EntryRun(e, events))
    decreases events
  {
    if events != [] {
      EntryStepKeepsInvariant(e, events[0]);
      InstanceLostOnlyByThrow(e, events[0]);
      BackedUnlessThrown(EntryStep(e, events[0]), events[1..]);
    }
  }

  /** A ready entry has a live instance, in every run in which no `reinstantiate` threw. */
  lemma ReadyHasInstance(events: seq<Event>)
    requires Other(Glue.Action.Reinstantiate(false)) !in events
    ensures var e := EntryRun(INITIAL_ENTRY, events);
            e.ready ==> e.glue.wasm.Some?
  {
    BackedUnlessThrown(INITIAL_ENTRY, events);
  }

  /** When the shared flight fails: an `init_sync` that landed meanwhile swallows the failure;
      otherwise its awaiters reject and the next `init()` starts a flight of its own. */
  lemma FailureContract(events: seq<Event>, p: nat)
    requires var e := EntryRun(INITIAL_ENTRY, events); p < |e.promises| && e.promises[p] == Settling(false)
    ensures var e := EntryRun(INITIAL_ENTRY, events);
            var e' := EntryStep(e, React(p));
            var retried := EntryStep(e', CallInit);
            && e.initP == Some(p) && e'.initP == None
            && (e.ready ==> e'.promises[p].Resolved?)
            && (!e.ready ==>
                  && e'.promises[p].Rejected? && !e'.ready
                  && |retried.promises| == |e.promises| + 1
                  && InFlight(retried, |e.promises|)
                  && retried.calls == e.calls + [Awaiting(|e.promises|)])
  {
    EntryRunKeepsInvariant(INITIAL_ENTRY, events);
    assert InFlight(EntryRun(INITIAL_ENTRY, events), p);
  }

  /** When the shared flight succeeds: its promise resolves, and with it every call awaiting it,
      and the entry is ready, so the next `init()` returns at once. */
  lemma SuccessContract(events: seq<Event>, p: nat)
    requires var e := EntryRun(INITIAL_ENTRY, events); p < |e.promises| && e.promises[p] == Settling(true)
    ensures var e := EntryRun(INITIAL_ENTRY, events);
            var e' := EntryStep(e, React(p));
            && e.initP == Some(p)
            && e' == e.(ready := true, promises := e.promises[p := Resolved])
            && (forall c <- e.calls :: c == Awaiting(p) ==> e'.promises[c.p].Resolved?)
            && EntryStep(e', CallInit) == e'.(calls := e'.calls + [Returned])
  {
    EntryRunKeepsInvariant(INITIAL_ENTRY, events);
    assert InFlight(EntryRun(INITIAL_ENTRY, events), p);
  }

  /** A flight that can succeed does: loading with an engine that answers well, or settled so. */
  lemma LoadedResolves(events: seq<Event>, p: nat, code: Code)
    requires var e := EntryRun(INITIAL_ENTRY, events); p < |e.promises| && e.promises[p].Loading?
    ensures var settled := EntryStep(EntryRun(INITIAL_ENTRY, events), Settle(p, code, true));
            var done := EntryStep(settled, React(p));
            settled.glue.wasm.Some? && done.ready && done.promises[p].Resolved?
  {
    hide EntryRun, EntryInvariant, Invariant;
    InitialInvariant();
    EntryRunKeepsInvariant(INITIAL_ENTRY, events);
    LoadPending(EntryRun(INITIAL_ENTRY, events), p);
  }

  lemma LoadPending(e: Entry, p: nat)
    requires EntryInvariant(e) && p < |e.promises| && e.promises[p].Loading?
    ensures e.promises[p].load in e.glue.loading
  {
  }

  /** What a call does in any reachable state. A ready entry is left alone. Otherwise `init_sync()`
      leaves it ready with an instance, or throws and leaves everything as it was; and `init()`
      waits for the one flight there then is. */
  lemma CallsContract(events: seq<Event>, code: Code, ok: bool)
    ensures var e := EntryRun(INITIAL_ENTRY, events);
            var synced, called := EntryStep(e, CallInitSync(code, ok)), EntryStep(e, CallInit);
            && (e.ready ==> synced == e && called == e.(calls := e.calls + [Returned]))
            && (!e.ready && (ok || e.glue.wasm.Some?) ==> synced.ready && synced.glue.wasm.Some?)
            && (!e.ready && !ok && e.glue.wasm.None? ==> synced == e)
            && (!e.ready ==>
                  && called.initP.Some? && InFlight(called, called.initP.value)
                  && called.calls == e.calls + [Awaiting(called.initP.value)]
                  && (e.initP.Some? ==> called.initP == e.initP && called.promises == e.promises))
  {
    hide EntryRun, EntryInvariant, Invariant;
    var e := EntryRun(INITIAL_ENTRY, events);
    InitialInvariant();
    EntryRunKeepsInvariant(INITIAL_ENTRY, events);
    SharedFlight(e);
  }

  lemma SharedFlight(e: Entry)
    requires EntryInvariant(e)
    ensures !e.ready && e.initP.Some? ==> InFlight(e, e.initP.value)
  {
  }

  /** The failed load and the reaction that make a promise a rejected one. */
  ghost predicate RejectedAt(e: Entry, v: Event, p: nat) {
    v == React(p) && p < |e.promises| && e.promises[p] == Settling(false) && !e.ready
  }

  ghost predicate FailedAt(e: Entry, v: Event, p: nat) {
    v.Settle? && v.p == p && !v.ok && p < |e.promises| && e.promises[p].Loading?
  }

  lemma RejectedStep(e: Entry, v: Event, p: nat)
    requires p < |EntryStep(e, v).promises|
    ensures EntryStep(e, v).promises[p].Rejected? <==>
            (p < |e.promises| && e.promises[p].Rejected?) || RejectedAt(e, v, p)
    ensures EntryInvariant(e) && EntryStep(e, v).promises[p] == Settling(false) ==>
            (p < |e.promises| && e.promises[p] == Settling(false)) || FailedAt(e, v, p)
  {
  }

  /** Some event of the run rejects promise `p`. */
  ghost predicate RejectedAlong(e: Entry, events: seq<Event>, p: nat)
    decreases events
  {
    events != [] && (RejectedAt(e, events[0], p) || RejectedAlong(EntryStep(e, events[0]), events[1..], p))
  }

  ghost predicate FailedAlong(e: Entry, events: seq<Event>, p: nat)
    decreases events
  {
    events != [] && (FailedAt(e, events[0], p) || FailedAlong(EntryStep(e, events[0]), events[1..], p))
  }

  lemma {:induction false} PromisesStay(e: Entry, v: Event)
    ensures |e.promises| <= |EntryStep(e, v).promises|
  {
  }

  lemma {:induction false} RejectedRun(e: Entry, events: seq<Event>, p: nat)
    requires EntryInvariant(e) && p < |EntryRun(e, events).promises|
    ensures EntryRun(e, events).promises[p].Rejected? <==>
            (p < |e.promises| && e.promises[p].Rejected?) || RejectedAlong(e, events, p)
    ensures RejectedAlong(e, events, p) ==>
            (p < |e.promises| && e.promises[p] == Settling(false)) || FailedAlong(e, events, p)
    decreases events
  {
    hide EntryInvariant, RejectedAt, FailedAt, EntryStep;
    if events != [] {
      var e', rest := EntryStep(e, events[0]), events[1..];
      EntryStepKeepsInvariant(e, events[0]);
      RejectedRun(e', rest, p);
      if RejectedAt(e, events[0], p) {
        RejectsSettled(e, events[0], p);
      }
      if p < |e'.promises| {
        RejectedStep(e, events[0], p);
      } else {
        PromisesStay(e, events[0]);
      }
    }
  }

  lemma RejectsSettled(e: Entry, v: Event, p: nat)
    requires RejectedAt(e, v, p)
    ensures p < |e.promises| && e.promises[p] == Settling(false)
  {
  }

  /** Over whole runs: a promise is rejected exactly when its reaction ran on a load that had
      failed and the entry was not ready then; and a load fails only by being settled so. */
  lemma RejectedExactly(events: seq<Event>, p: nat)
    requires p < |EntryRun(INITIAL_ENTRY, events).promises|
    ensures EntryRun(INITIAL_ENTRY, events).promises[p].Rejected? <==> RejectedAlong(INITIAL_ENTRY, events, p)
    ensures RejectedAlong(INITIAL_ENTRY, events, p) ==> FailedAlong(INITIAL_ENTRY, events, p)
  {
    InitialInvariant();
    RejectedRun(INITIAL_ENTRY, events, p);
  }

  // ----- after a reinstantiate that threw -----

  /** Everything a program holding only this entry can do: any call of it, `reinstantiate` and
      handles included, and loads already pending anywhere may finish. Only a second entry's own
      fresh init of the shared glue is left out. */
  predicate WithinEntry(v: Event) {
    v.Other? ==> !v.action.InitSync? && !v.action.BeginInit?
  }

  ghost predicate Lost(e: Entry) {
    e.ready && e.glue.wasm.None? && e.glue.loading == {}
  }

  lemma LostStep(e: Entry, v: Event)
    requires EntryInvariant(e) && Lost(e) && WithinEntry(v)
    ensures Lost(EntryStep(e, v))
  {
    assert forall p: nat :: p < |e.promises| ==> !e.promises[p].Loading?;
  }

  lemma {:induction false} StaysLost(e: Entry, events: seq<Event>)
    requires EntryInvariant(e) && Lost(e) && forall v <- events :: WithinEntry(v)
    ensures Lost(EntryRun(e, events))
    decreases events
  {
    if events != [] {
      LostStep(e, events[0]);
      EntryStepKeepsInvariant(e, events[0]);
      StaysLost(EntryStep(e, events[0]), events[1..]);
    }
  }

  lemma PendingLoadRecovers(e: Entry) returns (v: Event)
    requires EntryInvariant(e) && e.glue.wasm.None? && e.glue.loading != {}
    ensures WithinEntry(v) && EntryStep(e, v).glue.wasm.Some?
  {
    var load :| load in e.glue.loading;
    if Owns(e, load) {
      var p :| 0 <= p < |e.promises| && e.promises[p] == Loading(load);
      v := Settle(p, 0, true);
    } else {
      v := Other(FinishInit(load, 0, true));
    }
  }

  ghost predicate Recovers(e: Entry, events: seq<Event>) {
    (forall v <- events :: WithinEntry(v)) && EntryRun(e, events).glue.wasm.Some?
  }

  /** Once ready, `init()` and `init_sync()` are no-ops and `reinstantiate` needs an instance, so
      an entry whose `reinstantiate` threw gets an instance back if and only if a load was still
      pending. */
  lemma RecoversIffLoadPending(e: Entry)
    requires EntryInvariant(e) && e.ready && e.glue.wasm.None?
    ensures (exists events :: Recovers(e, events)) <==> e.glue.loading != {}
  {
    if e.glue.loading != {} {
      var v := PendingLoadRecovers(e);
      assert EntryRun(EntryStep(e, v), [v][1..]) == EntryStep(e, v);
      assert Recovers(e, [v]);
    } else {
      forall events | forall v <- events :: WithinEntry(v)
        ensures !Recovers(e, events)
      {
        StaysLost(e, events);
      }
    }
  }

  lemma RunTwo(e: Entry, v: Event, w: Event)
    ensures EntryRun(e, [v, w]) == EntryStep(EntryStep(e, v), w)
  {
    assert [v, w][1..] == [w] && [w][1..] == [];
    assert EntryRun(EntryStep(e, v), [w]) == EntryRun(EntryStep(EntryStep(e, v), w), []);
  }

  /** Two calls reach that dead end: an `init_sync()`, and a `reinstantiate()` that throws. */
  lemma DeadEndIsReachable()
    ensures var e := EntryRun(INITIAL_ENTRY, [CallInitSync(1, true), Other(Glue.Action.Reinstantiate(false))]);
            EntryInvariant(e) && Lost(e)
  {
    hide EntryRun, EntryInvariant;
    RunTwo(INITIAL_ENTRY, CallInitSync(1, true), Other(Glue.Action.Reinstantiate(false)));
    InitialInvariant();
    EntryRunKeepsInvariant(INITIAL_ENTRY, [CallInitSync(1, true), Other(Glue.Action.Reinstantiate(false))]);
  }

  lemma InitialInvariant()
    ensures EntryInvariant(INITIAL_ENTRY)
  {
  }
}
