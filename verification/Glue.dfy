/** The patched WASM glue: instance generations, guarded handles, the async-init re-check and
    `reinstantiate`. The engine behind it (instances, their heaps, the garbage collector, which
    loads finish and how) is the environment: every choice it makes is an argument of an action. */
module Glue {
  import opened Wrappers

  /** The instances ever created, numbered from 0. */
  type Instance = nat

  /** A pointer into one instance's linear memory; 0 is null. */
  type Ptr = nat

  /** A compiled module. */
  type Code = nat

  /** `__wbg_ptr` and `__tsv_gen` of a handle object. */
  datatype Handle = Handle(ptr: Ptr, gen: nat)

  /** The finalization registry's held value. */
  datatype Held = Held(ptr: Ptr, gen: nat)

  /** One assignment of the glue's `wasm` binding to a fresh instance. */
  datatype Install = Install(gen: nat, instance: Instance, code: Code)

  datatype State = State(
    wasm: Option<Instance>,
    wasmModule: Option<Code>,
    generation: nat,
    handles: seq<Handle>,
    registry: map<nat, Held>,     // by handle; an entry leaves when freed or called back
    collected: set<nat>,          // handles no program can reach any more
    loading: set<nat>,            // async inits suspended at their load
    loads: nat,                   // async inits ever suspended
    heaps: seq<set<Ptr>>,         // per instance: the objects allocated in it
    home: seq<Instance>,          // per handle: the instance that minted it
    installs: seq<Install>        // every instance the binding ever held
  )

  const INITIAL := State(None, None, 0, [], map[], {}, {}, 0, [], [], [])

  datatype Action =
    | InitSync(code: Code, ok: bool)
    | BeginInit
    | FinishInit(load: nat, code: Code, ok: bool)
    | Reinstantiate(ok: bool)
    | Mint(address: Option<Ptr>)
    | Method(h: nat, trap: bool)
    | Free(h: nat, trap: bool)
    | Collect(h: nat)
    | Finalize(h: nat, trap: bool)

  datatype Reply =
    | Quiet
    | Threw
    | Suspended(load: nat)
    | WasmCall(instance: Instance, ptr: Ptr)
    | Trapped(instance: Instance, ptr: Ptr)    // the call was made and threw

  datatype Outcome = Outcome(state: State, reply: Reply)

  /** `__wbg_finalize_init` over a fresh instance. */
  function Installed(s: State, code: Code): State {
    s.(wasm := Some(|s.heaps|),
       wasmModule := Some(code),
       heaps := s.heaps + [{}],
       installs := s.installs + [Install(s.generation, |s.heaps|, code)])
  }

  function InitSyncStep(s: State, code: Code, ok: bool): Outcome {
    if s.wasm.Some? then Outcome(s, Quiet)
    else if !ok then Outcome(s, Threw)
    else Outcome(Installed(s, code), Quiet)
  }

  function FinishInitStep(s: State, load: nat, code: Code, ok: bool): Outcome {
    var s' := s.(loading := s.loading - {load});
    if load !in s.loading then Outcome(s, Quiet)
    else if !ok then Outcome(s', Threw)
    else if s'.wasm.Some? then Outcome(s'.(heaps := s'.heaps + [{}]), Quiet)  // the late instance is dropped
    else Outcome(Installed(s', code), Quiet)
  }

  function ReinstantiateStep(s: State, ok: bool): Outcome {
    if s.wasm.None? then Outcome(s, Threw)
    else
      var s' := s.(wasm := None, generation := s.generation + 1);
      if s.wasmModule.None? then Outcome(s', Threw) else InitSyncStep(s', s.wasmModule.value, ok)
  }

  /** The allocator's contract: a fresh object is neither null nor one it already handed out. */
  predicate Allocatable(s: State, ptr: Ptr) {
    s.wasm.Some? && s.wasm.value < |s.heaps| && ptr != 0 && ptr !in s.heaps[s.wasm.value]
  }

  function MintStep(s: State, address: Option<Ptr>): Outcome {
    if s.wasm.None? || address.None? then Outcome(s, Threw)
    else if !Allocatable(s, address.value) then Outcome(s, Quiet)
    else
      var i, ptr, h := s.wasm.value, address.value, |s.handles|;
      Outcome(s.(heaps := s.heaps[i := s.heaps[i] + {ptr}],
                 handles := s.handles + [Handle(ptr, s.generation)],
                 registry := s.registry[h := Held(ptr, s.generation)],
                 home := s.home + [i]),
              Quiet)
  }

  predicate Reachable(s: State, h: nat) {
    h < |s.handles| && h !in s.collected
  }

  /** What a call handing `ptr` to the live instance comes to. */
  function Called(i: Instance, ptr: Ptr, trap: bool): Reply {
    if trap then Trapped(i, ptr) else WasmCall(i, ptr)
  }

  function MethodStep(s: State, h: nat, trap: bool): Outcome {
    if !Reachable(s, h) then Outcome(s, Quiet)
    else if s.handles[h].gen != s.generation || s.wasm.None? then Outcome(s, Threw)
    else Outcome(s, Called(s.wasm.value, s.handles[h].ptr, trap))
  }

  /** The instance takes `ptr` back. */
  function Released(s: State, i: Instance, ptr: Ptr): State {
    if i < |s.heaps| then s.(heaps := s.heaps[i := s.heaps[i] - {ptr}]) else s
  }

  function FreeStep(s: State, h: nat, trap: bool): Outcome {
    if !Reachable(s, h) then Outcome(s, Quiet)
    else
      var Handle(ptr, gen) := s.handles[h];
      var s' := s.(handles := s.handles[h := Handle(0, gen)], registry := s.registry - {h});
      if gen != s.generation then Outcome(s', Quiet)
      else if s.wasm.None? then Outcome(s', Threw)
      else Outcome(if trap then s' else Released(s', s.wasm.value, ptr), Called(s.wasm.value, ptr, trap))
  }

  function FinalizeStep(s: State, h: nat, trap: bool): Outcome {
    if h !in s.collected || h !in s.registry then Outcome(s, Quiet)
    else
      var Held(ptr, gen) := s.registry[h];
      var s' := s.(registry := s.registry - {h});
      if gen != s.generation then Outcome(s', Quiet)
      else if s.wasm.None? then Outcome(s', Threw)
      else Outcome(if trap then s' else Released(s', s.wasm.value, ptr), Called(s.wasm.value, ptr, trap))
  }

  /** One uninterrupted stretch of JavaScript. An action that cannot happen in `s` changes
      nothing. */
  function Step(s: State, a: Action): Outcome {
    match a
    case InitSync(code, ok) => InitSyncStep(s, code, ok)
    case BeginInit =>
      if s.wasm.Some? then Outcome(s, Quiet)
      else Outcome(s.(loading := s.loading + {s.loads}, loads := s.loads + 1), Suspended(s.loads))
    case FinishInit(load, code, ok) => FinishInitStep(s, load, code, ok)
    case Reinstantiate(ok) => ReinstantiateStep(s, ok)
    case Mint(address) => MintStep(s, address)
    case Method(h, trap) => MethodStep(s, h, trap)
    case Free(h, trap) => FreeStep(s, h, trap)
    case Collect(h) => Outcome(if h < |s.handles| then s.(collected := s.collected + {h}) else s, Quiet)
    case Finalize(h, trap) => FinalizeStep(s, h, trap)
  }

  function Run(s: State, actions: seq<Action>): State
    decreases actions
  {
    if actions == [] then s else Run(Step(s, actions[0]).state, actions[1..])
  }

  // ----- the glue itself -----

  class JsHandle {
    var wbgPtr: Ptr
    var tsvGen: nat

    constructor (ptr: Ptr, gen: nat)
      ensures wbgPtr == ptr && tsvGen == gen
    {
      wbgPtr, tsvGen := ptr, gen;
    }
  }

  class GlueModule {
    var wasm: Option<Instance>
    var wasmModule: Option<Code>
    var generation: nat
    var handles: seq<JsHandle>
    var registry: map<nat, Held>
    var collected: set<nat>
    var loading: set<nat>
    var loads: nat
    var heaps: seq<set<Ptr>>
    ghost var home: seq<Instance>
    ghost var installs: seq<Install>

    ghost predicate Valid()
      reads this
    {
      && (forall i, j :: 0 <= i < j < |handles| ==> handles[i] != handles[j])
      && (wasm.Some? ==> wasm.value < |heaps|)
    }

    ghost function HandleValues(): seq<Handle>
      reads this, handles
    {
      seq(|handles|, i requires 0 <= i < |handles| reads this, handles => Handle(handles[i].wbgPtr, handles[i].tsvGen))
    }

    ghost function Abstract(): State
      reads this, handles
    {
      State(wasm, wasmModule, generation, HandleValues(), registry, collected, loading, loads, heaps, home, installs)
    }

    constructor ()
      ensures Valid() && Abstract() == INITIAL
    {
      wasm, wasmModule, generation := None, None, 0;
      handles, registry, collected := [], map[], {};
      loading, loads, heaps := {}, 0, [];
      home, installs := [], [];
    }

    /** `__wbg_finalize_init` */
    method Finish(code: Code)
      requires Valid()
      modifies this
      ensures Valid() && handles == old(handles)
      ensures Abstract() == Installed(old(Abstract()), code)
    {
      installs := installs + [Install(generation, |heaps|, code)];
      wasm, wasmModule := Some(|heaps|), Some(code);
      heaps := heaps + [{}];
    }

    method InitSync(code: Code, ok: bool) returns (reply: Reply)
      requires Valid()
      modifies this
      ensures Valid() && handles == old(handles)
      ensures Outcome(Abstract(), reply) == Step(old(Abstract()), Action.InitSync(code, ok))
    {
      if wasm.Some? {
        return Quiet;
      }
      if !ok {
        return Threw;
      }
      Finish(code);
      return Quiet;
    }

    /** `__wbg_init` up to its `await`. */
    method BeginInit() returns (reply: Reply)
      requires Valid()
      modifies this
      ensures Valid() && handles == old(handles)
      ensures Outcome(Abstract(), reply) == Step(old(Abstract()), Action.BeginInit)
    {
      if wasm.Some? {
        return Quiet;
      }
      reply := Suspended(loads);
      loading, loads := loading + {loads}, loads + 1;
    }

    /** `__wbg_init` from its `await` on, with the re-check. */
    method FinishInit(load: nat, code: Code, ok: bool) returns (reply: Reply)
      requires Valid() && load in loading
      modifies this
      ensures Valid() && handles == old(handles)
      ensures Outcome(Abstract(), reply) == Step(old(Abstract()), Action.FinishInit(load, code, ok))
    {
      loading := loading - {load};
      if !ok {
        return Threw;
      }
      if wasm.Some? {
        heaps := heaps + [{}];
        return Quiet;
      }
      Finish(code);
      return Quiet;
    }

    method Reinstantiate(ok: bool) returns (reply: Reply)
      requires Valid()
      modifies this
      ensures Valid() && handles == old(handles)
      ensures Outcome(Abstract(), reply) == Step(old(Abstract()), Action.Reinstantiate(ok))
    {
      if wasm.None? {
        return Threw;
      }
      var code := wasmModule;
      wasm := None;
      generation := generation + 1;
      if code.None? {
        return Threw;
      }
      reply := InitSync(code.value, ok);
    }

    /** A class constructor: allocate, stamp, register. */
    method Mint(address: Option<Ptr>) returns (reply: Reply)
      requires Valid()
      requires address.Some? && wasm.Some? ==> Allocatable(Abstract(), address.value)
      modifies this
      ensures Valid()
      ensures Outcome(Abstract(), reply) == Step(old(Abstract()), Action.Mint(address))
      ensures handles == old(handles) || (|handles| == |old(handles)| + 1 && old(handles) <= handles && fresh(handles[|old(handles)|]))
    {
      if wasm.None? || address.None? {
        return Threw;
      }
      ghost var before := Abstract();
      var i, ptr, h := wasm.value, address.value, |handles|;
      heaps := heaps[i := heaps[i] + {ptr}];
      var handle := new JsHandle(ptr, generation);
      registry := registry[h := Held(ptr, generation)];
      handles := handles + [handle];
      home := home + [i];
      assert HandleValues() == before.handles + [Handle(ptr, generation)];
      return Quiet;
    }

    /** An exported method's receiver, routed through `__tsv_live`. */
    method Method(h: nat, trap: bool) returns (reply: Reply)
      requires Valid() && Reachable(Abstract(), h)
      ensures Outcome(Abstract(), reply) == Step(Abstract(), Action.Method(h, trap))
    {
      if handles[h].tsvGen != generation || wasm.None? {
        return Threw;
      }
      return Called(wasm.value, handles[h].wbgPtr, trap);
    }

    method Free(h: nat, trap: bool) returns (reply: Reply)
      requires Valid() && Reachable(Abstract(), h)
      modifies this, handles[h]
      ensures Valid() && handles == old(handles)
      ensures Outcome(Abstract(), reply) == Step(old(Abstract()), Action.Free(h, trap))
    {
      ghost var before := Abstract();
      var handle := handles[h];
      var ptr := handle.wbgPtr;
      handle.wbgPtr := 0;
      registry := registry - {h};
      assert HandleValues() == before.handles[h := Handle(0, handle.tsvGen)];
      if handle.tsvGen != generation {
        return Quiet;
      }
      if wasm.None? {
        return Threw;
      }
      Release(ptr, trap);
      return Called(wasm.value, ptr, trap);
    }

    /** The engine's side of a free. */
    method Release(ptr: Ptr, trap: bool)
      requires wasm.Some? && wasm.value < |heaps|
      modifies this`heaps
      ensures heaps == if trap then old(heaps) else old(heaps)[wasm.value := old(heaps)[wasm.value] - {ptr}]
    {
      if !trap {
        heaps := heaps[wasm.value := heaps[wasm.value] - {ptr}];
      }
    }

    /** The patched registry callback. */
    method Finalize(h: nat, trap: bool) returns (reply: Reply)
      requires Valid() && h in collected && h in registry
      modifies this
      ensures Valid() && handles == old(handles)
      ensures Outcome(Abstract(), reply) == Step(old(Abstract()), Action.Finalize(h, trap))
    {
      var Held(ptr, gen) := registry[h];
      registry := registry - {h};
      if gen != generation {
        return Quiet;
      }
      if wasm.None? {
        return Threw;
      }
      Release(ptr, trap);
      return Called(wasm.value, ptr, trap);
    }
  }
}
