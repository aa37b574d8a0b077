/** The native packages' publish step: refuse a partial set, then platform packages first and the
    loader last, skipping what is already live. */
module NapiPublish {
  import opened Wrappers

  /** One `optionalDependencies` entry. */
  datatype Pin = Pin(name: string, version: string)

  /** What a platform package's directory holds. `executable` says whether the re-armed x-bit took
      (always, where there is no mode to fix). */
  datatype Dir = Dir(addon: bool, cli: bool, name: string, version: string, executable: bool)

  /** The staged set: the loader's manifest and each pinned package's directory. */
  datatype Staging = Staging(loader: string, version: string, pins: seq<Pin>, dirs: map<string, Dir>)

  /** What went live under a name and version: for a loader, the packages it depends on. */
  datatype Manifest = Manifest(needs: seq<Pin>)

  type Registry = map<Pin, Manifest>

  /** `npm view`, then `npm publish`, for one package. A view reads the registry right, fails, or
      answers oddly, which the script takes for "not published"; a publish may take effect and
      still report failure. */
  datatype View = Reads | Odd | ViewFails

  datatype Answer = Answer(view: View, ok: bool, landed: bool)

  type Answers = nat -> Answer

  /** The directory passes every completeness check for its pin. */
  predicate Staged(s: Staging, pin: Pin) {
    && pin.name in s.dirs
    && var d := s.dirs[pin.name];
       && d.addon && d.cli && d.executable
       && d.name == pin.name && d.version == s.version && pin.version == s.version
  }

  predicate Complete(s: Staging) {
    forall pin <- s.pins :: Staged(s, pin)
  }

  function ToPublish(s: Staging): seq<Pin> {
    seq(|s.pins|, i requires 0 <= i < |s.pins| => Pin(s.pins[i].name, s.version)) + [Pin(s.loader, s.version)]
  }

  function ManifestOf(s: Staging, k: nat): Manifest {
    if k == |s.pins| then Manifest(s.pins) else Manifest([])
  }

  /** What one package's turn leaves live, and whether the loop goes on. npm itself refuses a
      version that is already live. */
  function Turn(registry: Registry, pkg: Pin, manifest: Manifest, answer: Answer): (Registry, bool) {
    if answer.view.ViewFails? then (registry, false)
    else if pkg in registry then (registry, answer.view.Reads?)
    else (if answer.ok || answer.landed then registry[pkg := manifest] else registry, answer.ok)
  }

  function PublishFrom(registry: Registry, s: Staging, k: nat, answers: Answers): (Registry, bool)
    decreases |ToPublish(s)| - k
  {
    if k >= |ToPublish(s)| then (registry, true)
    else
      var (after, goes) := Turn(registry, ToPublish(s)[k], ManifestOf(s, k), answers(k));
      if goes then PublishFrom(after, s, k + 1, answers) else (after, false)
  }

  /** One run of the script; a dry run leaves the registry alone. */
  function RunOf(registry: Registry, s: Staging, expectTag: Option<string>, dryRun: bool, answers: Answers): (Registry, bool) {
    if s.pins == [] || (expectTag.Some? && expectTag.value != "v" + s.version) || !Complete(s) then (registry, false)
    else if dryRun then (registry, forall k :: 0 <= k < |ToPublish(s)| ==> answers(k).ok || ToPublish(s)[k] in registry)
    else PublishFrom(registry, s, 0, answers)
  }

  class Publisher {
    var registry: Registry

    /** The staging checks: which platform packages publish, and whether any is missing. */
    method Collect(s: Staging) returns (platforms: seq<Pin>, incomplete: bool)
      ensures incomplete <==> !Complete(s)
      ensures !incomplete ==> platforms + [Pin(s.loader, s.version)] == ToPublish(s)
    {
      platforms, incomplete := [], false;
      for i := 0 to |s.pins|
        invariant incomplete <==> exists j :: 0 <= j < i && !Staged(s, s.pins[j])
        invariant !incomplete ==> |platforms| == i && forall j :: 0 <= j < i ==> platforms[j] == Pin(s.pins[j].name, s.version)
      {
        var Pin(name, pin) := s.pins[i];
        if name !in s.dirs || !s.dirs[name].addon || !s.dirs[name].cli {
          incomplete := true;
          continue;
        }
        var dir := s.dirs[name];
        if dir.name != name || dir.version != s.version || pin != s.version {
          incomplete := true;
          continue;
        }
        if !dir.executable {
          incomplete := true;
          continue;
        }
        platforms := platforms + [Pin(name, s.version)];
      }
    }

    method Publish(s: Staging, expectTag: Option<string>, dryRun: bool, answers: Answers)
      returns (ok: bool, published: nat, skipped: nat)
      modifies this
      ensures (registry, ok) == RunOf(old(registry), s, expectTag, dryRun, answers)
      ensures ok ==> published + skipped == |ToPublish(s)|
      ensures ok && !dryRun ==> |registry| == |old(registry)| + published
    {
      published, skipped := 0, 0;
      if s.pins == [] || (expectTag.Some? && expectTag.value != "v" + s.version) {
        return false, 0, 0;
      }
      var platforms, incomplete := Collect(s);
      if incomplete {
        return false, 0, 0;
      }
      var toPublish := platforms + [Pin(s.loader, s.version)];
      for k := 0 to |toPublish|
        invariant published + skipped == k
        invariant dryRun ==> registry == old(registry)
        invariant dryRun ==> forall j :: 0 <= j < k ==> answers(j).ok || toPublish[j] in registry
        invariant !dryRun ==> |registry| == |old(registry)| + published
        invariant !dryRun ==> PublishFrom(registry, s, k, answers) == PublishFrom(old(registry), s, 0, answers)
      {
        var pkg, answer := toPublish[k], answers(k);
        if !dryRun {
          if answer.view.ViewFails? {
            return false, published, skipped;
          }
          if answer.view.Reads? && pkg in registry {
            skipped := skipped + 1;
            continue;
          }
        }
        var refused := pkg in registry;
        if !dryRun && !refused && (answer.ok || answer.landed) {
          registry := registry[pkg := ManifestOf(s, k)];
        }
        if dryRun && !answer.ok && refused {
          skipped := skipped + 1;
          continue;
        }
        if !answer.ok || (!dryRun && refused) {
          return false, published, skipped;
        }
        published := published + 1;
      }
      return true, published, skipped;
    }
  }

  // ----- loader last -----

  /** Every live package's dependencies are live. */
  ghost predicate Closed(registry: Registry) {
    forall pkg <- registry :: forall need <- registry[pkg].needs :: need in registry
  }

  lemma TurnKeepsClosed(registry: Registry, pkg: Pin, manifest: Manifest, answer: Answer)
    requires Closed(registry) && forall need <- manifest.needs :: need in registry
    ensures Closed(Turn(registry, pkg, manifest, answer).0)
    ensures Turn(registry, pkg, manifest, answer).1 ==> pkg in Turn(registry, pkg, manifest, answer).0
    ensures registry.Keys <= Turn(registry, pkg, manifest, answer).0.Keys
  {
  }

  lemma {:induction false} PublishKeepsClosed(registry: Registry, s: Staging, k: nat, answers: Answers)
    requires Closed(registry) && Complete(s)
    requires forall j :: 0 <= j < k && j < |s.pins| ==> s.pins[j] in registry
    ensures Closed(PublishFrom(registry, s, k, answers).0)
    ensures registry.Keys <= PublishFrom(registry, s, k, answers).0.Keys
    ensures PublishFrom(registry, s, k, answers).1 ==>
              forall j :: k <= j < |ToPublish(s)| ==> ToPublish(s)[j] in PublishFrom(registry, s, k, answers).0
    decreases |ToPublish(s)| - k
  {
    if k < |ToPublish(s)| {
      var pkg, manifest := ToPublish(s)[k], ManifestOf(s, k);
      if k < |s.pins| {
        assert Staged(s, s.pins[k]);
        assert pkg == s.pins[k];
      }
      TurnKeepsClosed(registry, pkg, manifest, answers(k));
      var (after, goes) := Turn(registry, pkg, manifest, answers(k));
      if goes {
        PublishKeepsClosed(after, s, k + 1, answers);
      }
    }
  }

  /** One call of the script. Runs need not share a staging: a re-run matrix stages anew, and one
      registry holds every version. */
  datatype Attempt = Attempt(staging: Staging, expectTag: Option<string>, dryRun: bool, answers: Answers)

  function After(registry: Registry, attempts: seq<Attempt>): Registry
    decreases attempts
  {
    if attempts == [] then registry
    else
      var a := attempts[0];
      After(RunOf(registry, a.staging, a.expectTag, a.dryRun, a.answers).0, attempts[1..])
  }

  /** After any runs, however each failed: no live package depends on one that is not live. */
  lemma {:induction false} LoaderLast(registry: Registry, attempts: seq<Attempt>)
    requires Closed(registry)
    ensures Closed(After(registry, attempts)) && registry.Keys <= After(registry, attempts).Keys
    decreases attempts
  {
    if attempts != [] {
      var a := attempts[0];
      if Complete(a.staging) {
        PublishKeepsClosed(registry, a.staging, 0, a.answers);
      }
      LoaderLast(RunOf(registry, a.staging, a.expectTag, a.dryRun, a.answers).0, attempts[1..]);
    }
  }

  /** A run that stages an incomplete set, or whose tag disagrees, changes nothing and fails; a
      dry run changes nothing; a run that reports success leaves its whole set live. */
  lemma RunContract(registry: Registry, s: Staging, expectTag: Option<string>, dryRun: bool, answers: Answers)
    requires Closed(registry)
    ensures var (after, ok) := RunOf(registry, s, expectTag, dryRun, answers);
            && (!Complete(s) || s.pins == [] || (expectTag.Some? && expectTag.value != "v" + s.version) ==>
                  after == registry && !ok)
            && (dryRun ==> after == registry)
            && (ok && !dryRun ==>
                  Pin(s.loader, s.version) in after && forall pin <- s.pins :: pin in after)
  {
    var (after, ok) := RunOf(registry, s, expectTag, dryRun, answers);
    if ok && !dryRun {
      PublishKeepsClosed(registry, s, 0, answers);
      forall pin | pin in s.pins
        ensures pin in after
      {
        var j :| 0 <= j < |s.pins| && s.pins[j] == pin;
        assert Staged(s, pin);
        assert ToPublish(s)[j] == pin;
      }
      assert ToPublish(s)[|s.pins|] == Pin(s.loader, s.version);
    }
  }

  /** The set may go out: pins there are, the tag is the version's, and each pin names the loader's
      version and has both its binaries staged, executable, under its own name and that version. */
  ghost predicate Publishable(s: Staging, expectTag: Option<string>) {
    && s.pins != [] && (expectTag.Some? ==> expectTag.value == "v" + s.version)
    && forall k :: 0 <= k < |s.pins| ==>
         && s.pins[k].version == s.version && s.pins[k].name in s.dirs
         && var d := s.dirs[s.pins[k].name]; d.addon && d.cli && d.executable && d.name == s.pins[k].name && d.version == s.version
  }

  lemma PublishableMeans(s: Staging, expectTag: Option<string>)
    ensures Publishable(s, expectTag) <==>
            s.pins != [] && !(expectTag.Some? && expectTag.value != "v" + s.version) && Complete(s)
  {
    if Publishable(s, expectTag) {
      forall pin <- s.pins
        ensures Staged(s, pin)
      {
        var k :| 0 <= k < |s.pins| && s.pins[k] == pin;
      }
    }
    if Complete(s) {
      forall k | 0 <= k < |s.pins|
        ensures Staged(s, s.pins[k])
      {
        assert s.pins[k] in s.pins;
      }
    }
  }

  /** The `k`th package's turn lets the run go on: npm answered, and the package is either read as
      live already or published now. */
  predicate TurnsOut(registry: Registry, s: Staging, k: nat, answers: Answers)
    requires k < |ToPublish(s)|
  {
    && !answers(k).view.ViewFails?
    && if ToPublish(s)[k] in registry || ToPublish(s)[k] in ToPublish(s)[..k] then answers(k).view.Reads? else answers(k).ok
  }

  /** The run from package `k` on, with everything before it live. */
  lemma {:induction false} PublishExactly(start: Registry, registry: Registry, s: Staging, k: nat, answers: Answers, j: nat)
    requires k <= |ToPublish(s)| && j < |ToPublish(s)|
    requires forall pkg :: pkg in registry <==> pkg in start || pkg in ToPublish(s)[..k]
    ensures var (after, ok) := PublishFrom(registry, s, k, answers);
            && (ok <==> forall i :: k <= i < |ToPublish(s)| ==> TurnsOut(start, s, i, answers))
            && (forall pkg <- registry :: pkg in after && after[pkg] == registry[pkg])
            && (k <= j && ToPublish(s)[j] !in start && ToPublish(s)[j] !in ToPublish(s)[..j] ==>
                  && (ToPublish(s)[j] in after <==>
                        && (forall i :: k <= i < j ==> TurnsOut(start, s, i, answers))
                        && !answers(j).view.ViewFails? && (answers(j).ok || answers(j).landed))
                  && (ToPublish(s)[j] in after ==> after[ToPublish(s)[j]] == ManifestOf(s, j)))
    decreases |ToPublish(s)| - k
  {
    hide ManifestOf, ToPublish;
    var all := ToPublish(s);
    if k < |all| {
      var (next, goes) := Turn(registry, all[k], ManifestOf(s, k), answers(k));
      assert all[..k + 1] == all[..k] + [all[k]];
      assert goes <==> TurnsOut(start, s, k, answers);
      if goes {
        assert all[k] in next;
        PublishExactly(start, next, s, k + 1, answers, j);
        if k == j && all[j] !in start && all[j] !in all[..j] {
          assert next[all[j]] == ManifestOf(s, j);
        }
      } else {
        assert !TurnsOut(start, s, k, answers);
        if k < j && all[j] !in all[..j] {
          assert all[k] == all[..j][k];
          assert all[k] != all[j] && forall i :: 0 <= i < k ==> all[..k][i] == all[..j][i];
        }
      }
    }
  }

  /** What one real run does, package by package in order. It succeeds exactly when the set may go
      out and every turn does; a package not live before is live after exactly when every turn
      before its own went on and its publish succeeded or landed; the loader then names the pins
      as its dependencies, all of them live; and nothing live before changes. */
  lemma RunExactly(registry: Registry, s: Staging, expectTag: Option<string>, answers: Answers, j: nat)
    requires Publishable(s, expectTag) && j <= |s.pins|
    ensures var all := ToPublish(s);
            && |all| == |s.pins| + 1 && all[|s.pins|] == Pin(s.loader, s.version)
            && (forall i :: 0 <= i < |s.pins| ==> all[i] == s.pins[i])
            && var (after, ok) := RunOf(registry, s, expectTag, false, answers);
               && (ok <==> forall i :: 0 <= i <= |s.pins| ==> TurnsOut(registry, s, i, answers))
               && (forall pkg <- registry :: pkg in after && after[pkg] == registry[pkg])
               && (all[j] !in registry && all[j] !in all[..j] ==>
                     && (all[j] in after <==>
                           && (forall i :: 0 <= i < j ==> TurnsOut(registry, s, i, answers))
                           && !answers(j).view.ViewFails? && (answers(j).ok || answers(j).landed))
                     && (all[j] in after && j == |s.pins| ==>
                           after[all[j]].needs == s.pins && forall pin <- s.pins :: pin in after))
  {
    PublishableMeans(s, expectTag);
    var all := ToPublish(s);
    PublishExactly(registry, registry, s, 0, answers, j);
    var after := RunOf(registry, s, expectTag, false, answers).0;
    if j == |s.pins| && all[j] !in registry && all[j] !in all[..j] && all[j] in after {
      forall pin <- s.pins
        ensures pin in after
      {
        var i :| 0 <= i < |s.pins| && s.pins[i] == pin;
        FirstIsLive(registry, s, answers, i, j);
      }
    }
  }

  /** With every turn before the last one going on, each of those packages is live. */
  lemma {:induction false} FirstIsLive(registry: Registry, s: Staging, answers: Answers, i: nat, j: nat)
    requires i < j < |ToPublish(s)| && forall k :: 0 <= k < j ==> TurnsOut(registry, s, k, answers)
    ensures ToPublish(s)[i] in PublishFrom(registry, s, 0, answers).0
    decreases i
  {
    var all := ToPublish(s);
    PublishExactly(registry, registry, s, 0, answers, i);
    assert TurnsOut(registry, s, i, answers);
    if all[i] !in registry && all[i] in all[..i] {
      var k :| 0 <= k < i && all[k] == all[i];
      FirstIsLive(registry, s, answers, k, j);
    }
  }

  /** A dry run of a set that may go out passes exactly when npm packs every package, its refusal of
      one already live counting as a pass. */
  lemma DryRunExactly(registry: Registry, s: Staging, expectTag: Option<string>, answers: Answers)
    requires Publishable(s, expectTag)
    ensures RunOf(registry, s, expectTag, true, answers) ==
            (registry, forall k :: 0 <= k <= |s.pins| ==> answers(k).ok || ToPublish(s)[k] in registry)
  {
    PublishableMeans(s, expectTag);
  }

  /** A set that may not go out leaves the registry alone and fails the run, a dry one included. */
  lemma NothingPartial(registry: Registry, s: Staging, expectTag: Option<string>, dryRun: bool, answers: Answers)
    requires !Publishable(s, expectTag)
    ensures RunOf(registry, s, expectTag, dryRun, answers) == (registry, false)
  {
    PublishableMeans(s, expectTag);
  }

  /** Publishing in the other order would not do: a loader sent first goes live alone when the
      next package's publish fails. */
  lemma LoaderFirstFails(loader: string, pin: Pin)
    requires Pin(loader, pin.version) != pin
    ensures !Closed(Turn(map[], Pin(loader, pin.version), Manifest([pin]), Answer(Reads, true, true)).0)
  {
    var after := Turn(map[], Pin(loader, pin.version), Manifest([pin]), Answer(Reads, true, true)).0;
    assert pin in after[Pin(loader, pin.version)].needs;
  }
}
