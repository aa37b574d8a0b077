/** What one wetrun does to any world at all, however it was left: what it needs in order to
    finish, what it can change on the way, and what nothing gets past. */
module ReleaseGuards {
  import opened Wrappers
  import opened ChangelogText
  import opened Release
  import opened ReleaseRecovery

  /** The version a wetrun would release. */
  function Target(w: World, bump: Option<Level>): Option<Version> {
    ReleaseVersion(PlanOf(w, bump))
  }

  /** Nothing is published, committed, tagged or pushed. */
  predicate Unmoved(w: World, w': World) {
    && w'.registry == w.registry && w'.published == w.published
    && w'.main == w.main && w'.originMain == w.originMain
    && w'.localTags == w.localTags && w'.originTags == w.originTags
  }

  // ----- the gates -----

  predicate BeforePublish(st: Stage) {
    Early(st) || st.BumpLockfile? || st.BumpChangelog? || st.Gates?
  }

  lemma {:induction false} FailedGatesStop(w: World, run: Run, st: Stage, fates: Fates)
    requires BeforePublish(st) && !run.allPublished && !fates(Gates).Done?
    ensures var end := RunFrom(w, run, st, fates); !end.completed && Unmoved(w, end.world)
    decreases Remaining(st)
  {
    hide Stamp;
    if !st.Gates? {
      FailedGatesStop(Effect(w, run, st, fates(st)), run, Next(run, st).value, fates);
    }
  }

  /** No world lets a release past its gates: unless every package is out already, a run whose
      gates fail publishes, commits, tags and pushes nothing, and does not complete. */
  lemma GatesGuard(w: World, bump: Option<Level>, toolsOk: bool, fates: Fates)
    requires !fates(Gates).Done?
    requires Target(w, bump).Some? ==> !(Shipped(Target(w, bump).value) <= w.registry)
    ensures var end := WetrunOf(w, bump, toolsOk, fates); !end.completed && Unmoved(w, end.world)
  {
    if toolsOk && Accepts(w, bump) {
      FailedGatesStop(w, RunOf(w, bump), FirstStage(w, bump), fates);
    }
  }

  // ----- what a run can change -----

  /** What `w'` adds to `w` belongs to the release of `v`. */
  ghost predicate AddsOnly(v: Version, w: World, w': World) {
    && w.registry <= w'.registry <= w.registry + Shipped(v)
    && w.published <= w'.published
    && (forall j :: |w.published| <= j < |w'.published| ==> w'.published[j] in Shipped(v))
    && w.main <= w'.main
    && (forall i :: |w.main| <= i < |w'.main| ==> w'.main[i].subject == Publish(v))
    && (w'.originMain == w.originMain || (w.originMain <= w'.originMain <= w'.main))
    && TagsOnly(v, w, w')
  }

  /** No tag moves; the one tag made is `v`'s, on a commit of main; and what reaches origin's tags is
      a local tag of a commit of main, as it stands here. */
  ghost predicate TagsOnly(v: Version, w: World, w': World) {
    && (forall t <- w.localTags :: t in w'.localTags && w'.localTags[t] == w.localTags[t])
    && (forall t <- w'.localTags :: t !in w.localTags ==> t == v && w.main <= w'.localTags[t] <= w'.main)
    && (forall t <- w.originTags :: t in w'.originTags && w'.originTags[t] == w.originTags[t])
    && (forall t <- w'.originTags :: t !in w.originTags ==>
          t in w'.localTags && w'.originTags[t] == w'.localTags[t] <= w'.main)
  }

  lemma AddsTwice(v: Version, w: World, w': World, w'': World)
    requires AddsOnly(v, w, w') && AddsOnly(v, w', w'')
    ensures AddsOnly(v, w, w'')
  {
    hide TagsOnly;
    TagsTwice(v, w, w', w'');
    assert forall i :: |w.main| <= i < |w'.main| ==> w''.main[i] == w'.main[i];
    assert forall j :: |w.published| <= j < |w'.published| ==> w''.published[j] == w'.published[j];
  }

  lemma TagsTwice(v: Version, w: World, w': World, w'': World)
    requires TagsOnly(v, w, w') && TagsOnly(v, w', w'') && w.main <= w'.main <= w''.main
    ensures TagsOnly(v, w, w'')
  {
  }

  lemma StepAddsOnly(w: World, run: Run, st: Stage, fate: Fate)
    ensures AddsOnly(run.v, w, Effect(w, run, st, fate))
    ensures Live(w, run.v) ==> Effect(w, run, st, fate).published == w.published
  {
    hide Stamp, TagsOnly;
    StepTagsOnly(w, run, st, fate);
  }

  lemma StepTagsOnly(w: World, run: Run, st: Stage, fate: Fate)
    ensures TagsOnly(run.v, w, Effect(w, run, st, fate))
  {
    hide Stamp;
  }

  lemma LiveStays(v: Version, w: World, w': World)
    requires AddsOnly(v, w, w')
    ensures Live(w, v) ==> Live(w', v)
  {
  }

  lemma {:induction false} RunAddsOnly(w: World, run: Run, st: Stage, fates: Fates)
    ensures var end := RunFrom(w, run, st, fates);
            AddsOnly(run.v, w, end.world) && (Live(w, run.v) ==> end.world.published == w.published)
    decreases Remaining(st)
  {
    hide Effect, AddsOnly, Live;
    var w' := Effect(w, run, st, fates(st));
    StepAddsOnly(w, run, st, fates(st));
    LiveStays(run.v, w, w');
    if GoesOn(w, run, st, fates(st)) && Next(run, st).Some? {
      RunAddsOnly(w', run, Next(run, st).value, fates);
      AddsTwice(run.v, w, w', RunFrom(w', run, Next(run, st).value, fates).world);
    }
  }

  lemma SharedPrefix(a: seq<Commit>, b: seq<Commit>)
    requires Shared(a, b) == |b|
    ensures b <= a
  {
    SharedTake(a, b);
    assert b[..|b|] == b;
  }

  lemma {:induction false} SharedTake(a: seq<Commit>, b: seq<Commit>)
    ensures a[..Shared(a, b)] == b[..Shared(a, b)]
  {
    if a != [] && b != [] && a[0] == b[0] {
      var n := Shared(a[1..], b[1..]);
      SharedTake(a[1..], b[1..]);
      assert a[..n + 1] == [a[0]] + a[1..][..n] && b[..n + 1] == [b[0]] + b[1..][..n];
    }
  }

  /** A checkout a release of `v` may change: on main, clean but for a resume's own edits, ahead
      of origin by at most a resume's own commit, with no tag of `v` elsewhere, and for a fresh
      release nothing of `v` on the registry. */
  ghost predicate SafeToRun(w: World, v: Version) {
    var resumed := w.sentinel == Some(v) && w.files.cargo == v;
    && w.onMain && !w.stray
    && w.originMain <= w.main && |w.main| <= |w.originMain| + 1
    && (forall i :: |w.originMain| <= i < |w.main| ==> resumed && w.main[i].subject == Publish(v))
    && (v in w.localTags ==> resumed && w.localTags[v] == w.main)
    && (v in w.originTags ==> resumed && w.originTags[v] == w.main)
    && (!resumed ==> w.registry !! Shipped(v) && w.files == w.main[|w.main| - 1].files)
  }

  lemma AcceptedIsSafe(w: World, bump: Option<Level>)
    requires Accepts(w, bump)
    ensures Target(w, bump).Some? && SafeToRun(w, Target(w, bump).value)
  {
    hide Problems;
    SharedPrefix(w.main, w.originMain);
    if |w.originMain| < |w.main| {
      assert w.main[|w.originMain|] == Head(w);
    }
  }

  lemma PushedIsItsOwn(w: World, v: Version, w': World)
    requires SafeToRun(w, v) && AddsOnly(v, w, w')
    ensures forall i :: |w.originMain| <= i < |w'.originMain| ==> w'.originMain[i].subject == Publish(v)
  {
    forall i | |w.originMain| <= i < |w'.originMain|
      ensures w'.originMain[i].subject == Publish(v)
    {
      assert w'.originMain[i] == w'.main[i];
      assert i < |w.main| ==> w'.main[i] == w.main[i];
    }
  }

  /** A run that changes anything found the checkout safe to release from, and all it adds to the
      registry, to main and to origin is its own release. */
  lemma ChangesOnlyItsOwn(w: World, bump: Option<Level>, toolsOk: bool, fates: Fates)
    requires WetrunOf(w, bump, toolsOk, fates).world != w
    ensures toolsOk && Target(w, bump).Some?
    ensures var v, w' := Target(w, bump).value, WetrunOf(w, bump, toolsOk, fates).world;
            && SafeToRun(w, v) && AddsOnly(v, w, w')
            && (forall i :: |w.originMain| <= i < |w'.originMain| ==> w'.originMain[i].subject == Publish(v))
  {
    hide Accepts, SafeToRun, AddsOnly, RunFrom;
    AcceptedIsSafe(w, bump);
    RunAddsOnly(w, RunOf(w, bump), FirstStage(w, bump), fates);
    PushedIsItsOwn(w, Target(w, bump).value, WetrunOf(w, bump, toolsOk, fates).world);
  }

  /** Over any sequence of runs, every publish that took effect belongs to one whose own gates
      passed, and that was let through to release that very version. */
  lemma {:induction false} EveryPublishIsGated(w: World, attempts: seq<Attempt>, j: nat) returns (k: nat)
    requires |w.published| <= j < |ReleaseRecovery.After(w, attempts).published|
    ensures k < |attempts|
    ensures var before, a := ReleaseRecovery.After(w, attempts[..k]), attempts[k];
            && |before.published| <= j < |Attempted(before, a).published|
            && ReleaseRecovery.After(w, attempts).published[j] == Attempted(before, a).published[j]
            && a.fates(Gates).Done? && a.toolsOk && Accepts(before, a.bump)
            && Attempted(before, a).published[j] in Shipped(Target(before, a.bump).value)
    decreases attempts
  {
    var a, rest := attempts[0], attempts[1..];
    var next := Attempted(w, a);
    PublishedGrows(next, rest);
    if j < |next.published| {
      k := 0;
      PublishIsGated(w, a, j);
    } else {
      k := EveryPublishIsGated(next, rest, j);
      assert attempts[..k + 1][1..] == rest[..k] && attempts[..k + 1][0] == a;
      k := k + 1;
    }
  }

  lemma PublishIsGated(w: World, a: Attempt, j: nat)
    requires |w.published| <= j < |Attempted(w, a).published|
    ensures a.fates(Gates).Done? && a.toolsOk && Accepts(w, a.bump)
    ensures Attempted(w, a).published[j] in Shipped(Target(w, a.bump).value)
  {
    assert Attempted(w, a) != w;
    RunAddsOnly(w, RunOf(w, a.bump), FirstStage(w, a.bump), a.fates);
    if !a.fates(Gates).Done? {
      GatesGuard(w, a.bump, a.toolsOk, a.fates);
    }
  }

  lemma {:induction false} PublishedGrows(w: World, attempts: seq<Attempt>)
    ensures w.published <= ReleaseRecovery.After(w, attempts).published
    decreases attempts
  {
    if attempts != [] {
      var a := attempts[0];
      if a.toolsOk && Accepts(w, a.bump) {
        RunAddsOnly(w, RunOf(w, a.bump), FirstStage(w, a.bump), a.fates);
      }
      PublishedGrows(Attempted(w, a), attempts[1..]);
    }
  }

  // ----- when a run completes -----

  /** Every step from the lockfile on is done, of those the run needs. */
  predicate RestDone(w: World, run: Run, fates: Fates) {
    && fates(BumpLockfile).Done? && fates(BumpChangelog).Done?
    && (!run.allPublished ==> fates(Gates).Done? && forall i :: 0 <= i <= 2 ==> fates(PublishNext(i)).Done?)
    && fates(CommitFiles).Done? && (run.v !in w.localTags ==> fates(TagCommit).Done?)
    && fates(Push).Done? && fates(RemoveSentinel).Done?
  }

  /** The release of `v` is out, from this checkout: every package on the registry, the files in the last
      commit, that commit on origin, the tag there too, and no sentinel. */
  ghost predicate Finished(v: Version, w: World) {
    && Shipped(v) <= w.registry && w.sentinel == None
    && w.files == w.main[|w.main| - 1].files
    && w.originMain == w.main
    && v in w.localTags && v in w.originTags
  }

  lemma CommitThenTag(w: World, run: Run, fates: Fates)
    ensures var committed := Effect(w, run, CommitFiles, fates(CommitFiles));
            var tagged := Effect(committed, run, TagCommit, fates(TagCommit));
            RunFrom(w, run, CommitFiles, fates) ==
            if !fates(CommitFiles).Done? then Ending(committed, false)
            else if run.v !in w.localTags && !fates(TagCommit).Done? then Ending(tagged, false)
            else RunFrom(tagged, run, Push, fates)
  {
    hide Effect;
    var committed := Effect(w, run, CommitFiles, fates(CommitFiles));
    assert committed.localTags == w.localTags by {
      CommitKeepsTags(w, run, fates(CommitFiles));
    }
    if fates(CommitFiles).Done? {
      assert RunFrom(w, run, CommitFiles, fates) == RunFrom(committed, run, TagCommit, fates);
    }
  }

  lemma CommitKeepsTags(w: World, run: Run, fate: Fate)
    ensures var w' := Effect(w, run, CommitFiles, fate);
            && w'.localTags == w.localTags && w'.files == w.files && w'.registry == w.registry
            && w.main <= w'.main && w'.originMain == w.originMain
            && (fate.Done? ==> w'.files == w'.main[|w'.main| - 1].files)
  {
  }

  lemma TagKeepsRest(w: World, run: Run, fate: Fate)
    requires run.v in w.localTags ==> w.localTags[run.v] <= w.main
    ensures var w' := Effect(w, run, TagCommit, fate);
            && w' == w.(localTags := w'.localTags)
            && (run.v in w'.localTags ==> w'.localTags[run.v] <= w'.main)
            && (run.v in w.localTags || fate.Done? ==> run.v in w'.localTags)
  {
  }

  lemma GitCompletes(w: World, run: Run, fates: Fates)
    requires w.originMain <= w.main && Live(w, run.v)
    requires run.v in w.localTags ==> w.localTags[run.v] <= w.main
    ensures var end := RunFrom(w, run, CommitFiles, fates);
            && (end.completed <==>
                  && fates(CommitFiles).Done? && (run.v !in w.localTags ==> fates(TagCommit).Done?)
                  && fates(Push).Done? && fates(RemoveSentinel).Done?)
            && (end.completed ==> Finished(run.v, end.world) && end.world.files == w.files)
  {
    hide Effect, RunFrom, Live;
    var committed := Effect(w, run, CommitFiles, fates(CommitFiles));
    var tagged := Effect(committed, run, TagCommit, fates(TagCommit));
    LiveMeans(w, run.v);
    CommitThenTag(w, run, fates);
    CommitKeepsTags(w, run, fates(CommitFiles));
    TagKeepsRest(committed, run, fates(TagCommit));
    TailCompletes(tagged, run, fates);
  }

  lemma TailCompletes(w: World, run: Run, fates: Fates)
    requires w.originMain <= w.main
    ensures var end := RunFrom(w, run, Push, fates);
            && (end.completed <==> fates(Push).Done? && fates(RemoveSentinel).Done?)
            && (end.completed ==>
                  end.world == w.(originMain := w.main, originTags := Reached(w.localTags, w.main) + w.originTags, sentinel := None))
  {
  }

  lemma PublishTurn(w: World, run: Run, i: nat, fates: Fates)
    requires i < |PACKAGES|
    ensures var w' := Effect(w, run, PublishNext(i), fates(PublishNext(i)));
            && w' == w.(registry := w'.registry, published := w'.published)
            && w.registry <= w'.registry
            && (fates(PublishNext(i)).Done? ==> (PACKAGES[i], run.v) in w'.registry)
            && RunFrom(w, run, PublishNext(i), fates) ==
               if fates(PublishNext(i)).Done? then RunFrom(w', run, PublishNext(i + 1), fates) else Ending(w', false)
  {
  }

  lemma PublishEnds(w: World, run: Run, fates: Fates)
    ensures RunFrom(w, run, PublishNext(|PACKAGES|), fates) == RunFrom(w, run, CommitFiles, fates)
  {
  }

  lemma {:induction false} PublishCompletes(w: World, run: Run, i: nat, fates: Fates)
    requires i <= |PACKAGES| && forall k :: 0 <= k < i ==> (PACKAGES[k], run.v) in w.registry
    requires w.originMain <= w.main && (run.v in w.localTags ==> w.localTags[run.v] <= w.main)
    ensures var end := RunFrom(w, run, PublishNext(i), fates);
            && (end.completed <==>
                  && (forall k :: i <= k < |PACKAGES| ==> fates(PublishNext(k)).Done?)
                  && fates(CommitFiles).Done? && (run.v !in w.localTags ==> fates(TagCommit).Done?)
                  && fates(Push).Done? && fates(RemoveSentinel).Done?)
            && (end.completed ==> Finished(run.v, end.world) && end.world.files == w.files)
    decreases |PACKAGES| - i
  {
    hide Finished, RunFrom, Effect;
    if i == |PACKAGES| {
      PublishEnds(w, run, fates);
      GitCompletes(w, run, fates);
    } else {
      PublishTurn(w, run, i, fates);
    }
    if i < |PACKAGES| && fates(PublishNext(i)).Done? {
      PublishCompletes(Effect(w, run, PublishNext(i), fates(PublishNext(i))), run, i + 1, fates);
    }
  }

  /** From the gates on. */
  lemma GatedCompletes(w: World, run: Run, fates: Fates)
    requires w.originMain <= w.main && (run.v in w.localTags ==> w.localTags[run.v] <= w.main)
    requires run.allPublished ==> Live(w, run.v)
    ensures var end := RunFrom(w, run, if run.allPublished then CommitFiles else Gates, fates);
            && (end.completed <==>
                  && (!run.allPublished ==> fates(Gates).Done? && forall k :: 0 <= k <= 2 ==> fates(PublishNext(k)).Done?)
                  && fates(CommitFiles).Done? && (run.v !in w.localTags ==> fates(TagCommit).Done?)
                  && fates(Push).Done? && fates(RemoveSentinel).Done?)
            && (end.completed ==> Finished(run.v, end.world) && end.world.files == w.files)
  {
    hide Finished;
    if run.allPublished {
      GitCompletes(w, run, fates);
    } else {
      PublishCompletes(w, run, 0, fates);
    }
  }

  /** The files a release of `v` commits. */
  function BumpedFiles(files: Files, v: Version): Files {
    Files(v, v, Stamp(files.changelog, Spelled(v)).1)
  }

  lemma RestCompletes(w: World, run: Run, fates: Fates)
    requires w.originMain <= w.main && (run.v in w.localTags ==> w.localTags[run.v] <= w.main)
    requires run.allPublished ==> Live(w, run.v)
    requires w.files.cargo == run.v
    ensures var end := RunFrom(w, run, BumpLockfile, fates);
            && (end.completed <==>
                  RestDone(w, run, fates) && Stamp(w.files.changelog, Spelled(run.v)).0 != NoUnreleased)
            && (end.completed ==> Finished(run.v, end.world) && end.world.files == BumpedFiles(w.files, run.v))
  {
    hide Finished, Stamp, Live;
    var locked := w.(files := w.files.(lock := run.v));
    var stamped := locked.(files := BumpedFiles(w.files, run.v));
    BumpThenStamp(w, run, fates);
    assert Live(w, run.v) ==> Live(stamped, run.v) by {
      SameRegistry(w, stamped, run.v);
    }
    GatedCompletes(stamped, run, fates);
  }

  lemma SameRegistry(w: World, w': World, v: Version)
    requires w.registry == w'.registry
    ensures Live(w, v) <==> Live(w', v)
  {
  }

  lemma BumpThenStamp(w: World, run: Run, fates: Fates)
    requires w.files.cargo == run.v
    ensures var end := RunFrom(w, run, BumpLockfile, fates);
            if fates(BumpLockfile).Done? && fates(BumpChangelog).Done? &&
               Stamp(w.files.changelog, Spelled(run.v)).0 != NoUnreleased
            then end == RunFrom(w.(files := BumpedFiles(w.files, run.v)), run, if run.allPublished then CommitFiles else Gates, fates)
            else !end.completed
  {
    hide Stamp;
    var locked := w.(files := w.files.(lock := run.v));
    if fates(BumpLockfile).Done? {
      assert RunFrom(w, run, BumpLockfile, fates) == RunFrom(locked, run, BumpChangelog, fates);
    }
  }

  lemma EarlyCompletes(w: World, run: Run, fates: Fates)
    ensures var end, st := RunFrom(w, run, if w.sentinel.Some? then RemoveStale else BumpCargo, fates), fates;
            var marked := w.(files := w.files.(cargo := run.v), sentinel := Some(run.v));
            if (w.sentinel.Some? ==> fates(RemoveStale).Done?) && fates(BumpCargo).Done? && fates(WriteSentinel).Done?
            then end == RunFrom(marked, run, BumpLockfile, fates)
            else !end.completed
  {
    hide Stamp;
    var unstaled := w.(sentinel := None);
    BumpThenMark(w, run, unstaled, fates);
    if w.sentinel.Some? && fates(RemoveStale).Done? {
      assert RunFrom(w, run, RemoveStale, fates) == RunFrom(unstaled, run, BumpCargo, fates);
    }
  }

  /** A wetrun completes exactly when it is let through and every step it needs is done; then the
      release is out. Failing at any step it needs, it does not complete. */
  lemma CompletesIff(w: World, bump: Option<Level>, toolsOk: bool, fates: Fates)
    ensures var end := WetrunOf(w, bump, toolsOk, fates);
            end.completed <==>
            && toolsOk && Accepts(w, bump)
            && (w.sentinel != Some(w.files.cargo) ==>
                  && (w.sentinel.Some? ==> fates(RemoveStale).Done?)
                  && fates(BumpCargo).Done? && fates(WriteSentinel).Done?)
            && RestDone(w, Run(Target(w, bump).value, Shipped(Target(w, bump).value) <= w.registry), fates)
            && (Section(w.files.changelog, Spelled(Target(w, bump).value)).Some? ||
                Section(w.files.changelog, UNRELEASED).Some?)
    ensures var end := WetrunOf(w, bump, toolsOk, fates);
            end.completed ==>
              Finished(Target(w, bump).value, end.world) &&
              end.world.files == BumpedFiles(w.files, Target(w, bump).value)
  {
    hide Accepts, Finished, RunFrom, Live, Stamp, SafeToRun;
    if toolsOk && Accepts(w, bump) {
      var run := RunOf(w, bump);
      AcceptedIsSafe(w, bump);
      SafeTags(w, run.v);
      LiveMeans(w, run.v);
      StampFails(w.files.changelog, Spelled(run.v));
      if w.sentinel == Some(w.files.cargo) {
        RestCompletes(w, run, fates);
      } else {
        var marked := w.(files := w.files.(cargo := run.v), sentinel := Some(run.v));
        EarlyCompletes(w, run, fates);
        SameRegistry(w, marked, run.v);
        RestCompletes(marked, run, fates);
      }
    }
  }

  lemma LiveMeans(w: World, v: Version)
    ensures Live(w, v) <==> Shipped(v) <= w.registry
  {
  }

  lemma SafeTags(w: World, v: Version)
    requires SafeToRun(w, v)
    ensures w.originMain <= w.main && (v in w.localTags ==> w.localTags[v] <= w.main)
  {
  }

  // ----- the version released -----

  /** A bump goes to the least newer version that changes the component it names, or one above. */
  lemma BumpIsLeast(v: Version, level: Level, other: Version)
    ensures Newer(Release.Bumped(v, level), v)
    ensures other.major > v.major ||
            (!level.Major? && other.major == v.major && other.minor > v.minor) ||
            (level.Patch? && Newer(other, v)) ==>
              other == Release.Bumped(v, level) || Newer(other, Release.Bumped(v, level))
    ensures var next := Release.Bumped(v, level);
            match level
            case Major => next.major > v.major
            case Minor => next.major == v.major && next.minor > v.minor
            case Patch => next.major == v.major && next.minor == v.minor
  {
  }
}
