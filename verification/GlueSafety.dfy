/** What every interleaving of the glue's actions keeps. */
module GlueSafety {
  import opened Wrappers
  import opened Glue

  /** The handle's object is still allocated and its glue can still free it. */
  ghost predicate Live(s: State, h: nat) {
    h in s.registry && h < |s.handles| && s.handles[h].gen == s.generation
  }

  ghost predicate WellFormed(s: State) {
    && |s.home| == |s.handles|
    && (forall h <- s.registry :: h < |s.handles|)
    && (s.wasm.Some? ==> s.wasm.value < |s.heaps| && s.wasmModule.Some?)
  }

  /** A registered handle's held value repeats the handle, which is not null; an unregistered one
      is null or out of reach. */
  ghost predicate RegistryMatches(s: State)
    requires WellFormed(s)
  {
    && (forall h <- s.registry ::
          s.registry[h] == Held(s.handles[h].ptr, s.handles[h].gen) && s.handles[h].ptr != 0)
    && (forall h :: 0 <= h < |s.handles| && h !in s.registry ==> s.handles[h].ptr == 0 || h in s.collected)
  }

  /** A generation stamp names one instance: a handle stamped with the current generation was
      minted by the instance the binding holds. */
  ghost predicate StampsMatch(s: State)
    requires WellFormed(s)
  {
    forall h :: 0 <= h < |s.handles| ==>
      && s.handles[h].gen <= s.generation
      && (s.handles[h].gen == s.generation ==> s.wasm == Some(s.home[h]))
  }

  /** Live handles own distinct objects of the live instance. */
  ghost predicate Owned(s: State)
    requires WellFormed(s) && StampsMatch(s)
  {
    && (forall h: nat :: Live(s, h) ==> s.handles[h].ptr in s.heaps[s.home[h]])
    && (forall h: nat, k: nat :: Live(s, h) && Live(s, k) && h != k ==> s.handles[h].ptr != s.handles[k].ptr)
  }

  /** Generations never repeat in the install log, and its last entry is the current instance
      exactly when that entry's generation is the current one. */
  ghost predicate Logged(s: State) {
    && (forall i, j :: 0 <= i < j < |s.installs| ==> s.installs[i].gen < s.installs[j].gen)
    && (forall i :: 0 <= i < |s.installs| ==> s.installs[i].gen <= s.generation)
    && (s.wasm.Some? <==> s.installs != [] && s.installs[|s.installs| - 1].gen == s.generation)
    && (s.wasm.Some? ==>
          s.installs[|s.installs| - 1] == Install(s.generation, s.wasm.value, s.installs[|s.installs| - 1].code)
          && s.wasmModule == Some(s.installs[|s.installs| - 1].code))
  }

  ghost predicate Invariant(s: State) {
    WellFormed(s) && RegistryMatches(s) && StampsMatch(s) && Owned(s) && Logged(s)
  }

  /** An instance installed where there was none: no handle carries the current generation. */
  lemma InstallKeepsInvariant(s: State, code: Code)
    requires Invariant(s) && s.wasm.None?
    ensures Invariant(Installed(s, code))
  {
    assert forall h: nat :: Live(Installed(s, code), h) ==> Live(s, h);
    assert forall h: nat :: !Live(s, h);
  }

  /** A fresh instance nothing refers to. */
  lemma DropKeepsInvariant(s: State)
    requires Invariant(s)
    ensures Invariant(s.(heaps := s.heaps + [{}]))
  {
    assert forall h: nat :: Live(s.(heaps := s.heaps + [{}]), h) <==> Live(s, h);
  }

  lemma LoadingKeepsInvariant(s: State, loading: set<nat>, loads: nat)
    requires Invariant(s)
    ensures Invariant(s.(loading := loading, loads := loads))
  {
    assert forall h: nat :: Live(s.(loading := loading, loads := loads), h) <==> Live(s, h);
  }

  lemma DiscardKeepsInvariant(s: State)
    requires Invariant(s)
    ensures Invariant(s.(wasm := None, generation := s.generation + 1))
  {
    var s' := s.(wasm := None, generation := s.generation + 1);
    assert forall h: nat :: Live(s', h) ==> h < |s'.handles| && s'.handles[h].gen > s.generation;
    assert forall h: nat :: !Live(s', h);
  }

  lemma CollectKeepsInvariant(s: State, h: nat)
    requires Invariant(s)
    ensures Invariant(s.(collected := s.collected + {h}))
  {
    assert forall k: nat :: Live(s.(collected := s.collected + {h}), k) <==> Live(s, k);
  }

  lemma InitSyncKeepsInvariant(s: State, code: Code, ok: bool)
    requires Invariant(s)
    ensures Invariant(InitSyncStep(s, code, ok).state)
  {
    if s.wasm.None? {
      InstallKeepsInvariant(s, code);
    }
  }

  lemma FinishInitKeepsInvariant(s: State, load: nat, code: Code, ok: bool)
    requires Invariant(s)
    ensures Invariant(FinishInitStep(s, load, code, ok).state)
  {
    var s' := s.(loading := s.loading - {load});
    LoadingKeepsInvariant(s, s.loading - {load}, s.loads);
    DropKeepsInvariant(s');
    if s'.wasm.None? {
      InstallKeepsInvariant(s', code);
    }
  }

  lemma ReinstantiateKeepsInvariant(s: State, ok: bool)
    requires Invariant(s)
    ensures Invariant(ReinstantiateStep(s, ok).state)
  {
    if s.wasm.Some? {
      DiscardKeepsInvariant(s);
      InitSyncKeepsInvariant(s.(wasm := None, generation := s.generation + 1), s.wasmModule.value, ok);
    }
  }

  lemma StepKeepsInvariant(s: State, a: Action)
    requires Invariant(s)
    ensures Invariant(Step(s, a).state)
  {
    match a
    case InitSync(code, ok) => InitSyncKeepsInvariant(s, code, ok);
    case BeginInit => LoadingKeepsInvariant(s, s.loading + {s.loads}, s.loads + 1);
    case FinishInit(load, code, ok) => FinishInitKeepsInvariant(s, load, code, ok);
    case Reinstantiate(ok) => ReinstantiateKeepsInvariant(s, ok);
    case Mint(address) => MintKeepsInvariant(s, address);
    case Method(_, _) =>
    case Free(h, trap) => FreeKeepsInvariant(s, h, trap);
    case Collect(h) => CollectKeepsInvariant(s, h);
    case Finalize(h, trap) => FinalizeKeepsInvariant(s, h, trap);
  }

  lemma MintKeepsInvariant(s: State, address: Option<Ptr>)
    requires Invariant(s)
    ensures Invariant(Step(s, Mint(address)).state)
  {
    var s' := Step(s, Mint(address)).state;
    assert forall h: nat :: h != |s.handles| ==> (Live(s', h) <==> Live(s, h));
  }

  lemma FreeKeepsInvariant(s: State, h: nat, trap: bool)
    requires Invariant(s)
    ensures Invariant(Step(s, Free(h, trap)).state)
  {
    if Reachable(s, h) {
      var s' := Step(s, Free(h, trap)).state;
      assert s'.handles == s.handles[h := Handle(0, s.handles[h].gen)];
      assert s'.registry == s.registry - {h};
      assert WellFormed(s') && StampsMatch(s') && Logged(s');
      assert RegistryMatches(s');
      FreeKeepsOwned(s, h, trap);
    }
  }

  lemma FreeKeepsOwned(s: State, h: nat, trap: bool)
    requires Invariant(s) && Reachable(s, h)
    requires var s' := Step(s, Free(h, trap)).state; WellFormed(s') && StampsMatch(s')
    ensures Owned(Step(s, Free(h, trap)).state)
  {
    var s' := Step(s, Free(h, trap)).state;
    forall k: nat | Live(s', k)
      ensures Live(s, k) && k != h
      ensures s'.handles[k].ptr in s'.heaps[s'.home[k]]
    {
      assert Live(s, k);
      if s.handles[h].gen == s.generation && s.handles[h].ptr != 0 {
        assert Live(s, h);
      }
    }
  }

  lemma FinalizeKeepsInvariant(s: State, h: nat, trap: bool)
    requires Invariant(s)
    ensures Invariant(Step(s, Finalize(h, trap)).state)
  {
    if h in s.collected && h in s.registry {
      var s' := Step(s, Finalize(h, trap)).state;
      assert s'.registry == s.registry - {h};
      assert WellFormed(s') && RegistryMatches(s') && StampsMatch(s') && Logged(s');
      forall k: nat | Live(s', k)
        ensures Live(s, k) && k != h
        ensures s'.handles[k].ptr in s'.heaps[s'.home[k]]
      {
        assert Live(s, k);
        if s.handles[h].gen == s.generation {
          assert Live(s, h);
        }
      }
    }
  }

  lemma {:induction false} RunKeepsInvariant(s: State, actions: seq<Action>)
    requires Invariant(s)
    ensures Invariant(Run(s, actions))
    decreases actions
  {
    if actions != [] {
      StepKeepsInvariant(s, actions[0]);
      RunKeepsInvariant(Step(s, actions[0]).state, actions[1..]);
    }
  }

  lemma ReachableInvariant(actions: seq<Action>)
    ensures Invariant(Run(INITIAL, actions))
  {
    RunKeepsInvariant(INITIAL, actions);
  }

  /** The handle an action uses. */
  function Subject(a: Action): Option<nat> {
    match a
    case Method(h, _) => Some(h)
    case Free(h, _) => Some(h)
    case Finalize(h, _) => Some(h)
    case _ => None
  }

  /** The action called into an instance, which may have trapped. */
  predicate CalledIn(reply: Reply) {
    reply.WasmCall? || reply.Trapped?
  }

  /** The program sees an exception. */
  predicate Throws(reply: Reply) {
    reply.Threw? || reply.Trapped?
  }

  /** After any run, whatever an action hands to `wasm` goes to the live instance, comes from a
      handle that very instance minted, and is null or an object still allocated in it: no stale
      pointer, no double free. */
  lemma MemorySafe(actions: seq<Action>, a: Action)
    ensures var s := Run(INITIAL, actions);
            var reply := Step(s, a).reply;
            CalledIn(reply) ==>
              && s.wasm == Some(reply.instance)
              && reply.instance < |s.heaps|
              && (reply.ptr != 0 ==> reply.ptr in s.heaps[reply.instance])
              && Subject(a).Some? && Subject(a).value < |s.home| && s.home[Subject(a).value] == reply.instance
  {
    var s := Run(INITIAL, actions);
    ReachableInvariant(actions);
    if Subject(a).Some? && Subject(a).value < |s.handles| {
      assert Subject(a).value in s.registry && s.handles[Subject(a).value].gen == s.generation ==> Live(s, Subject(a).value);
    }
  }

  /** A reachable handle from a discarded instance: its methods throw, its `free()` touches no
      instance. One from the current generation: its method and its `free()` reach the live
      instance, and a `free()` that does not trap gives that instance its object back. */
  lemma HandleContract(actions: seq<Action>, h: nat, trap: bool)
    requires Reachable(Run(INITIAL, actions), h)
    ensures var s := Run(INITIAL, actions);
            var freed := Step(s, Free(h, trap));
            && (s.handles[h].gen != s.generation ==>
                  Step(s, Method(h, trap)).reply == Threw && freed.reply == Quiet && freed.state.heaps == s.heaps)
            && (s.handles[h].gen == s.generation ==>
                  && s.wasm.Some? && s.wasm.value < |s.heaps|
                  && Step(s, Method(h, trap)).reply == freed.reply == Called(s.wasm.value, s.handles[h].ptr, trap)
                  && freed.state.heaps ==
                     (if trap then s.heaps else s.heaps[s.wasm.value := s.heaps[s.wasm.value] - {s.handles[h].ptr}])
                  && (s.handles[h].ptr != 0 ==> s.handles[h].ptr in s.heaps[s.wasm.value]))
  {
    ReachableInvariant(actions);
    var s := Run(INITIAL, actions);
    assert s.handles[h].ptr != 0 && s.handles[h].gen == s.generation ==> Live(s, h);
  }

  /** A `free()` or a finalizer throws exactly when its stamp is current and the engine traps, as a
      poisoned instance does on every call. One of a discarded instance never throws. Thrown or
      not, the handle is unregistered, so neither path runs for it again. */
  lemma CleanupThrowsIff(actions: seq<Action>, h: nat, trap: bool)
    requires h < |Run(INITIAL, actions).handles|
    ensures var s := Run(INITIAL, actions);
            var freed, finalized := Step(s, Free(h, trap)), Step(s, Finalize(h, trap));
            && (Reachable(s, h) ==>
                  && (Throws(freed.reply) <==> trap && s.handles[h].gen == s.generation)
                  && h !in freed.state.registry && freed.state.handles[h].ptr == 0)
            && (h in s.collected && h in s.registry ==>
                  && (Throws(finalized.reply) <==> trap && s.handles[h].gen == s.generation)
                  && h !in finalized.state.registry)
  {
    ReachableInvariant(actions);
  }

  /** A collected handle of the current generation gives its object back when called back, unless
      the engine traps; one of a discarded generation leaks it. */
  lemma FinalizerContract(actions: seq<Action>, h: nat, trap: bool)
    requires var s := Run(INITIAL, actions); h in s.collected && h in s.registry && h < |s.handles|
    ensures var s := Run(INITIAL, actions);
            var after := Step(s, Finalize(h, trap)).state;
            && h !in after.registry
            && if s.handles[h].gen == s.generation
               then s.wasm.Some? && s.wasm.value < |s.heaps| && s.handles[h].ptr in s.heaps[s.wasm.value] &&
                    after.heaps == if trap then s.heaps
                                   else s.heaps[s.wasm.value := s.heaps[s.wasm.value] - {s.handles[h].ptr}]
               else after.heaps == s.heaps
  {
    ReachableInvariant(actions);
    var s := Run(INITIAL, actions);
    assert s.handles[h].gen == s.generation ==> Live(s, h);
  }

  // ----- a handle's life -----

  /** The handle is as it was minted, by instance `i`, which is still the live one. */
  ghost predicate AsMinted(s: State, h: nat, i: Instance, ptr: Ptr, gen: nat) {
    && h < |s.handles| && s.handles[h] == Handle(ptr, gen)
    && h in s.registry && s.registry[h] == Held(ptr, gen)
    && s.generation == gen && s.wasm == Some(i)
  }

  /** The actions that end a handle's life. */
  predicate Ends(a: Action, h: nat) {
    a.Reinstantiate? || (a.Free? && a.h == h) || (a.Finalize? && a.h == h)
  }

  lemma StepKeepsMinted(s: State, a: Action, h: nat, i: Instance, ptr: Ptr, gen: nat)
    requires AsMinted(s, h, i, ptr, gen) && !Ends(a, h)
    ensures AsMinted(Step(s, a).state, h, i, ptr, gen)
  {
  }

  lemma {:induction false} RunKeepsMinted(s: State, actions: seq<Action>, h: nat, i: Instance, ptr: Ptr, gen: nat)
    requires AsMinted(s, h, i, ptr, gen) && forall a <- actions :: !Ends(a, h)
    ensures AsMinted(Run(s, actions), h, i, ptr, gen)
    decreases actions
  {
    if actions != [] {
      StepKeepsMinted(s, actions[0], h, i, ptr, gen);
      RunKeepsMinted(Step(s, actions[0]).state, actions[1..], h, i, ptr, gen);
    }
  }

  lemma AsMintedWorks(s: State, h: nat, i: Instance, ptr: Ptr, gen: nat, trap: bool)
    requires Invariant(s) && AsMinted(s, h, i, ptr, gen)
    ensures i < |s.heaps| && ptr in s.heaps[i]
    ensures var given := s.heaps[i := s.heaps[i] - {ptr}];
            var collected := Step(s, Collect(h)).state;
            && (Reachable(s, h) ==>
                  && Step(s, Method(h, trap)).reply == (if trap then Trapped(i, ptr) else WasmCall(i, ptr))
                  && Step(s, Free(h, false)).reply == WasmCall(i, ptr)
                  && Step(s, Free(h, false)).state.heaps == given)
            && Step(collected, Finalize(h, false)).reply == WasmCall(i, ptr)
            && Step(collected, Finalize(h, false)).state.heaps == given
  {
    assert Live(s, h);
  }

  /** A handle just minted works, whatever the generation: until it is freed, called back or its
      instance discarded, and whatever else happens meanwhile, its methods hand its pointer to the
      instance that allocated it, and a `free()`, or a finalizer once it is collected, gives that
      instance the object back. */
  lemma MintedHandleWorks(before: seq<Action>, ptr: Ptr, after: seq<Action>, trap: bool)
    requires Allocatable(Run(INITIAL, before), ptr)
    requires forall a <- after :: !Ends(a, |Run(INITIAL, before).handles|)
    ensures var s := Run(INITIAL, before);
            var i, h, t := s.wasm.value, |s.handles|, Run(Step(s, Mint(Some(ptr))).state, after);
            var collected := Step(t, Collect(h)).state;
            && i < |t.heaps| && ptr in t.heaps[i]
            && (Collect(h) !in after ==> h !in t.collected)
            && (h !in t.collected ==>
                  && Step(t, Method(h, trap)).reply == (if trap then Trapped(i, ptr) else WasmCall(i, ptr))
                  && Step(t, Free(h, false)).reply == WasmCall(i, ptr)
                  && Step(t, Free(h, false)).state.heaps == t.heaps[i := t.heaps[i] - {ptr}])
            && Step(collected, Finalize(h, false)).reply == WasmCall(i, ptr)
            && Step(collected, Finalize(h, false)).state.heaps == t.heaps[i := t.heaps[i] - {ptr}]
  {
    hide Invariant, StampsMatch, Step;
    UncollectedBeyond(INITIAL, before);
    var s := Run(INITIAL, before);
    StaysUncollected(s, Mint(Some(ptr)), |s.handles|);
    if Collect(|s.handles|) !in after {
      RunStaysUncollected(Step(s, Mint(Some(ptr))).state, after, |s.handles|);
    }
    var minted := Step(s, Mint(Some(ptr))).state;
    ReachableInvariant(before);
    StepKeepsInvariant(s, Mint(Some(ptr)));
    MintMakes(s, ptr);
    RunKeepsInvariant(minted, after);
    RunKeepsMinted(minted, after, |s.handles|, s.wasm.value, ptr, s.generation);
    AsMintedWorks(Run(minted, after), |s.handles|, s.wasm.value, ptr, s.generation, trap);
  }

  lemma StaysUncollected(s: State, a: Action, h: nat)
    requires h !in s.collected && a != Collect(h)
    ensures h !in Step(s, a).state.collected
  {
  }

  lemma {:induction false} RunStaysUncollected(s: State, actions: seq<Action>, h: nat)
    requires h !in s.collected && Collect(h) !in actions
    ensures h !in Run(s, actions).collected
    decreases actions
  {
    if actions != [] {
      StaysUncollected(s, actions[0], h);
      RunStaysUncollected(Step(s, actions[0]).state, actions[1..], h);
    }
  }

  /** Only handles already minted are collected. */
  lemma {:induction false} UncollectedBeyond(s: State, actions: seq<Action>)
    requires forall h <- s.collected :: h < |s.handles|
    ensures forall h <- Run(s, actions).collected :: h < |Run(s, actions).handles|
    decreases actions
  {
    if actions != [] {
      StepCollects(s, actions[0]);
      UncollectedBeyond(Step(s, actions[0]).state, actions[1..]);
    }
  }

  lemma StepCollects(s: State, a: Action)
    requires forall h <- s.collected :: h < |s.handles|
    ensures forall h <- Step(s, a).state.collected :: h < |Step(s, a).state.handles|
  {
  }

  lemma MintMakes(s: State, ptr: Ptr)
    requires Allocatable(s, ptr)
    ensures AsMinted(Step(s, Mint(Some(ptr))).state, |s.handles|, s.wasm.value, ptr, s.generation)
  {
  }

  // ----- after a reinstantiate -----

  /** The handles minted so far keep their stamps, and the generation never goes back. */
  lemma StampsStay(s: State, a: Action, h: nat)
    requires h < |s.handles|
    ensures var s' := Step(s, a).state;
            h < |s'.handles| && s'.handles[h].gen == s.handles[h].gen && s'.generation >= s.generation
  {
  }

  lemma {:induction false} StaleStays(s: State, actions: seq<Action>, h: nat)
    requires h < |s.handles| && s.handles[h].gen < s.generation
    ensures var s' := Run(s, actions); h < |s'.handles| && s'.handles[h].gen < s'.generation
    decreases actions
  {
    if actions != [] {
      StampsStay(s, actions[0], h);
      StaleStays(Step(s, actions[0]).state, actions[1..], h);
    }
  }

  lemma {:induction false} RunAppends(s: State, before: seq<Action>, after: seq<Action>)
    ensures Run(s, before + after) == Run(Run(s, before), after)
    decreases before
  {
    if before == [] {
      assert before + after == after;
    } else {
      assert (before + after)[1..] == before[1..] + after;
      RunAppends(Step(s, before[0]).state, before[1..], after);
    }
  }

  /** Recovery from a poisoned instance, for good: once it is discarded, whether or not the fresh
      one came up, no cleanup of its handles calls into any instance or throws, and every method of
      theirs throws, however the run goes on and whatever traps. */
  lemma DiscardedForGood(before: seq<Action>, ok: bool, after: seq<Action>, h: nat, trap: bool)
    requires Run(INITIAL, before).wasm.Some? && h < |Run(INITIAL, before).handles|
    ensures var s := Run(INITIAL, before + [Reinstantiate(ok)] + after);
            && Step(s, Free(h, trap)).reply == Quiet
            && Step(s, Finalize(h, trap)).reply == Quiet
            && (Reachable(s, h) ==> Step(s, Method(h, trap)).reply == Threw)
  {
    var s := Run(INITIAL, before);
    var s' := Step(s, Reinstantiate(ok)).state;
    ReachableInvariant(before);
    StampsStay(s, Reinstantiate(ok), h);
    assert [Reinstantiate(ok)][1..] == [];
    assert Run(s, [Reinstantiate(ok)]) == Run(s', []);
    RunAppends(INITIAL, before, [Reinstantiate(ok)]);
    RunAppends(INITIAL, before + [Reinstantiate(ok)], after);
    StaleStays(s', after, h);
    ReachableInvariant(before + [Reinstantiate(ok)] + after);
  }

  /** However many inits overlap, one generation sees at most one instance. */
  lemma OneInstancePerGeneration(actions: seq<Action>, i: nat, j: nat)
    requires i < |Run(INITIAL, actions).installs| && j < |Run(INITIAL, actions).installs|
    requires Run(INITIAL, actions).installs[i].gen == Run(INITIAL, actions).installs[j].gen
    ensures i == j
  {
    ReachableInvariant(actions);
    assert Logged(Run(INITIAL, actions));
  }

  /** Only `reinstantiate` takes an installed instance away, and the one it puts in its place runs
      the code already compiled. */
  lemma ReplacedOnlyByReinstantiate(actions: seq<Action>, a: Action)
    requires Run(INITIAL, actions).wasm.Some?
    ensures var s, s' := Run(INITIAL, actions), Step(Run(INITIAL, actions), a).state;
            && (s'.wasm != s.wasm ==> a.Reinstantiate? && s'.generation == s.generation + 1)
            && s'.wasmModule == s.wasmModule
  {
    ReachableInvariant(actions);
  }

  // ----- without the re-check -----

  /** `__wbg_init` as wasm-bindgen emits it: nothing is tested after the load. */
  function UncheckedStep(s: State, a: Action): Outcome {
    if a.FinishInit? && a.load in s.loading && a.ok then
      Outcome(Installed(s.(loading := s.loading - {a.load}), a.code), Quiet)
    else Step(s, a)
  }

  function UncheckedRun(s: State, actions: seq<Action>): State
    decreases actions
  {
    if actions == [] then s else UncheckedRun(UncheckedStep(s, actions[0]).state, actions[1..])
  }

  const OVERLAP: seq<Action> := [BeginInit, InitSync(1, true), Mint(Some(8)), FinishInit(0, 1, true)]

  /** An `initSync` landing during an async init: unchecked, generation 0 gets two instances and a
      handle of the first passes the generation test into the second. The patched glue survives
      the same schedule. */
  lemma RecheckIsNeeded()
    ensures var s := UncheckedRun(INITIAL, OVERLAP);
            && s.installs == [Install(0, 0, 1), Install(0, 1, 1)]
            && UncheckedStep(s, Method(0, false)).reply == WasmCall(1, 8)
            && |s.heaps| == 2 && 8 !in s.heaps[1]
    ensures Run(INITIAL, OVERLAP).installs == [Install(0, 0, 1)]
    ensures Step(Run(INITIAL, OVERLAP), Method(0, false)).reply == WasmCall(0, 8)
  {
    var s1 := UncheckedStep(INITIAL, OVERLAP[0]).state;
    var s2 := UncheckedStep(s1, OVERLAP[1]).state;
    var s3 := UncheckedStep(s2, OVERLAP[2]).state;
    var s4 := UncheckedStep(s3, OVERLAP[3]).state;
    assert UncheckedRun(s3, OVERLAP[3..]) == s4;
    assert UncheckedRun(s2, OVERLAP[2..]) == s4;
    assert UncheckedRun(s1, OVERLAP[1..]) == s4;
    var t4 := Step(s3, OVERLAP[3]).state;
    assert Run(s3, OVERLAP[3..]) == t4;
    assert Run(s2, OVERLAP[2..]) == t4;
    assert Run(s1, OVERLAP[1..]) == t4;
  }
}
