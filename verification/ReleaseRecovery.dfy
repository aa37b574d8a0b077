/** A release that fails anywhere, any number of times, and is run again. `w0` is the world the
    fresh wetrun was accepted in and `v` the version it releases; nothing else touches the
    checkout, the registry or origin meanwhile. */
module ReleaseRecovery {
  import opened Wrappers
  import opened ChangelogText
  import opened Release

  /** A fresh release of `v` may start in `w0`. */
  ghost predicate Starts(w0: World, bump: Option<Level>, v: Version) {
    Accepts(w0, bump) && PlanOf(w0, bump).Fresh? && PlanOf(w0, bump).target == Some(v)
  }

  ghost function FinalFiles(w0: World, v: Version): Files {
    Files(v, v, Stamp(w0.files.changelog, Spelled(v)).1)
  }

  ghost function ReleasedMain(w0: World, v: Version): History {
    w0.main + [Commit(Publish(v), FinalFiles(w0, v))]
  }

  ghost function Shipped(v: Version): set<(string, Version)> {
    set pkg <- PACKAGES :: (pkg, v)
  }

  /** The bump's files, each not yet or already written. */
  ghost predicate FilesMoving(w0: World, v: Version, f: Files) {
    && f.cargo == v
    && (f.lock == w0.files.lock || f.lock == v)
    && (f.changelog == w0.files.changelog || f.changelog == FinalFiles(w0, v).changelog)
  }

  /** Nothing is committed, tagged or pushed. */
  ghost predicate Uncommitted(w0: World, v: Version, w: World) {
    w.main == w.originMain == w0.main && v !in w.localTags && v !in w.originTags
  }

  /** The one release commit exists; its tag and the pushes may. */
  ghost predicate Committed(w0: World, v: Version, w: World) {
    && w.main == ReleasedMain(w0, v) && w.files == FinalFiles(w0, v) && Live(w, v)
    && (w.originMain == w0.main || w.originMain == w.main)
    && (v in w.localTags ==> w.localTags[v] == w.main)
    && (v in w.originTags ==> v in w.localTags && w.originTags[v] == w.main)
  }

  ghost predicate Bumping(w0: World, v: Version, w: World) {
    && w.onMain && !w.stray
    && FilesMoving(w0, v, w.files)
    && w0.registry <= w.registry <= w0.registry + Shipped(v)
    && w.localTags.Keys <= w0.localTags.Keys + {v}
    && w.originTags.Keys <= w0.originTags.Keys + w.localTags.Keys
    && (Uncommitted(w0, v, w) || Committed(w0, v, w))
  }

  // ----- where a run can leave the world -----

  /** Nothing happened yet, but for a stale sentinel's removal. */
  ghost predicate Pristine(w0: World, w: World) {
    w == w0 || w == w0.(sentinel := None)
  }

  /** Between the version write and the sentinel write. */
  ghost predicate Stranded(w0: World, v: Version, w: World) {
    w == w0.(files := w0.files.(cargo := v), sentinel := None)
  }

  ghost predicate Underway(w0: World, v: Version, w: World) {
    Bumping(w0, v, w) && w.sentinel == Some(v)
  }

  ghost predicate Released(w0: World, v: Version, w: World) {
    && Bumping(w0, v, w) && w.sentinel == None
    && w.main == w.originMain == ReleasedMain(w0, v)
    && w.files == FinalFiles(w0, v)
    && Live(w, v)
    && v in w.localTags && v in w.originTags && w.localTags[v] == w.originTags[v] == w.main
  }

  ghost predicate Expected(w0: World, v: Version, w: World) {
    Pristine(w0, w) || Stranded(w0, v, w) || Underway(w0, v, w) || Released(w0, v, w)
  }

  // ----- facts about the start -----

  lemma {:induction false} SharedWithPrefix(a: seq<Commit>, b: seq<Commit>)
    requires b <= a
    ensures Shared(a, b) == |b|
  {
    if b != [] {
      SharedWithPrefix(a[1..], b[1..]);
    }
  }

  lemma {:induction false} SharedAll(a: seq<Commit>, b: seq<Commit>)
    requires Shared(a, b) == |a| == |b|
    ensures a == b
  {
    if a != [] {
      SharedAll(a[1..], b[1..]);
      assert a == [a[0]] + a[1..] && b == [b[0]] + b[1..];
    }
  }

  lemma StartFacts(w0: World, bump: Option<Level>, v: Version)
    requires Starts(w0, bump, v)
    ensures w0.main == w0.originMain && w0.files == Head(w0).files && v != w0.files.cargo
    ensures w0.onMain && !w0.stray && v !in w0.localTags && v !in w0.originTags
    ensures w0.sentinel != Some(w0.files.cargo)
    ensures bump.Some? && DeclaredIn(w0.files.changelog) == bump
    ensures UnreleasedContent(w0.files.changelog).Some? && UnreleasedContent(w0.files.changelog) != Some("")
    ensures w0.registry !! Shipped(v)
  {
    SharedAll(w0.main, w0.originMain);
    assert |Problems(w0.files.changelog, bump)| == 0;
  }

  /** The stamp of a changelog a release may start from succeeds, and done again changes nothing.
      It moves the notes unless the version's section was there before. */
  lemma StampFacts(w0: World, bump: Option<Level>, v: Version)
    requires Starts(w0, bump, v)
    ensures var log, name, stamp := w0.files.changelog, Spelled(v), Stamp(w0.files.changelog, Spelled(v));
            && stamp.0 != NoUnreleased
            && Stamp(stamp.1, name) == (AlreadyStamped, stamp.1)
            && if Section(log, name).Some? then stamp.1 == log
               else ReleaseNotes(stamp.1, name) == UnreleasedContent(log) && UnreleasedContent(stamp.1) == Some("")
  {
    StartFacts(w0, bump, v);
    SpelledIsNoWord(v);
    if Section(w0.files.changelog, Spelled(v)).None? {
      NotesReadBack(w0.files.changelog, Spelled(v));
    }
  }

  // ----- one step -----

  /** What the script knows before each step. */
  ghost predicate At(w0: World, run: Run, w: World, st: Stage) {
    var v := run.v;
    match st
    case RemoveStale => w == w0
    case BumpCargo => w == w0.(sentinel := None)
    case WriteSentinel => Stranded(w0, v, w)
    case BumpLockfile => Underway(w0, v, w) && (run.allPublished ==> Live(w, v))
    case BumpChangelog => Underway(w0, v, w) && w.files.lock == v && (run.allPublished ==> Live(w, v))
    case Gates => Underway(w0, v, w) && w.files == FinalFiles(w0, v)
    case PublishNext(i) =>
      Underway(w0, v, w) && w.files == FinalFiles(w0, v) &&
      forall j :: 0 <= j < i && j < |PACKAGES| ==> (PACKAGES[j], v) in w.registry
    case CommitFiles => Underway(w0, v, w) && w.files == FinalFiles(w0, v) && Live(w, v)
    case TagCommit => Underway(w0, v, w) && Committed(w0, v, w)
    case Push => Underway(w0, v, w) && Committed(w0, v, w) && v in w.localTags
    case RemoveSentinel =>
      Underway(w0, v, w) && Committed(w0, v, w) && v in w.localTags && v in w.originTags && w.originMain == w.main
  }

  ghost predicate StepLands(w0: World, run: Run, w: World, st: Stage, fate: Fate) {
    var w' := Effect(w, run, st, fate);
    && Expected(w0, run.v, w')
    && (GoesOn(w, run, st, fate) ==>
          match Next(run, st)
          case None => Released(w0, run.v, w')
          case Some(next) => At(w0, run, w', next))
    && (fate.Done? ==> GoesOn(w, run, st, fate))
    && (!Early(st) ==> Underway(w0, run.v, w') || Released(w0, run.v, w'))
  }

  /** The steps up to the sentinel write. */
  predicate Early(st: Stage) {
    st.RemoveStale? || st.BumpCargo? || st.WriteSentinel?
  }

  lemma EarlyStep(w0: World, bump: Option<Level>, run: Run, w: World, st: Stage, fate: Fate)
    requires Starts(w0, bump, run.v) && !run.allPublished
    requires Early(st) && At(w0, run, w, st)
    ensures StepLands(w0, run, w, st, fate)
  {
    hide Accepts, Stamp;
    StartFacts(w0, bump, run.v);
  }

  lemma LockfileStep(w0: World, run: Run, w: World, fate: Fate)
    requires At(w0, run, w, BumpLockfile)
    ensures StepLands(w0, run, w, BumpLockfile, fate)
  {
    hide Stamp;
  }

  lemma ChangelogStep(w0: World, bump: Option<Level>, run: Run, w: World, fate: Fate)
    requires Starts(w0, bump, run.v) && At(w0, run, w, BumpChangelog)
    ensures StepLands(w0, run, w, BumpChangelog, fate)
  {
    hide Accepts, Stamp;
    StampFacts(w0, bump, run.v);
  }

  lemma GatesStep(w0: World, run: Run, w: World, fate: Fate)
    requires At(w0, run, w, Gates)
    ensures StepLands(w0, run, w, Gates, fate)
  {
    hide Stamp;
  }

  lemma PublishStep(w0: World, run: Run, w: World, i: nat, fate: Fate)
    requires At(w0, run, w, PublishNext(i))
    ensures StepLands(w0, run, w, PublishNext(i), fate)
  {
    var w' := Effect(w, run, PublishNext(i), fate);
    if i < |PACKAGES| {
      assert (PACKAGES[i], run.v) in Shipped(run.v);
      assert w.registry <= w'.registry;
    }
  }

  /** The commit already there is the release commit, whose files are the checkout's. */
  lemma CommittedStep(w0: World, run: Run, w: World, fate: Fate)
    requires At(w0, run, w, CommitFiles) && Committed(w0, run.v, w)
    ensures StepLands(w0, run, w, CommitFiles, fate)
  {
    hide Stamp;
  }

  lemma CommitStep(w0: World, bump: Option<Level>, run: Run, w: World, fate: Fate)
    requires Starts(w0, bump, run.v) && At(w0, run, w, CommitFiles) && Uncommitted(w0, run.v, w)
    ensures StepLands(w0, run, w, CommitFiles, fate)
  {
    hide Accepts, Stamp;
    StartFacts(w0, bump, run.v);
    assert w.files != Head(w).files;
    assert Lands(fate) ==> Effect(w, run, CommitFiles, fate).main == ReleasedMain(w0, run.v);
  }

  lemma TagStep(w0: World, run: Run, w: World, fate: Fate)
    requires At(w0, run, w, TagCommit)
    ensures StepLands(w0, run, w, TagCommit, fate)
  {
  }

  lemma PushStep(w0: World, run: Run, w: World, fate: Fate)
    requires At(w0, run, w, Push)
    ensures StepLands(w0, run, w, Push, fate)
  {
    assert w.originMain <= w.main;
    assert run.v in Reached(w.localTags, w.main);
  }

  lemma ForgetStep(w0: World, run: Run, w: World, fate: Fate)
    requires At(w0, run, w, RemoveSentinel)
    ensures StepLands(w0, run, w, RemoveSentinel, fate)
  {
  }

  /** Whatever happens to a step, the world it leaves is an expected one, and once the sentinel is
      written a resumable or released one. */
  lemma Step(w0: World, bump: Option<Level>, run: Run, w: World, st: Stage, fate: Fate)
    requires Starts(w0, bump, run.v) && At(w0, run, w, st)
    requires Early(st) ==> !run.allPublished
    ensures StepLands(w0, run, w, st, fate)
  {
    hide Starts, At, StepLands, Committed, Uncommitted;
    match st
    case BumpLockfile => LockfileStep(w0, run, w, fate);
    case BumpChangelog => ChangelogStep(w0, bump, run, w, fate);
    case Gates => GatesStep(w0, run, w, fate);
    case PublishNext(i) => PublishStep(w0, run, w, i, fate);
    case CommitFiles => AnyCommitStep(w0, bump, run, w, fate);
    case TagCommit => TagStep(w0, run, w, fate);
    case Push => PushStep(w0, run, w, fate);
    case RemoveSentinel => ForgetStep(w0, run, w, fate);
    case _ => EarlyStep(w0, bump, run, w, st, fate);
  }

  lemma AnyCommitStep(w0: World, bump: Option<Level>, run: Run, w: World, fate: Fate)
    requires Starts(w0, bump, run.v) && At(w0, run, w, CommitFiles)
    ensures StepLands(w0, run, w, CommitFiles, fate)
  {
    hide Starts, StepLands, Committed, Uncommitted;
    if Committed(w0, run.v, w) {
      CommittedStep(w0, run, w, fate);
    } else {
      CommitStep(w0, bump, run, w, fate);
    }
  }

  // ----- one run -----

  ghost predicate AllDone(fates: Fates) {
    forall st :: fates(st).Done?
  }

  lemma {:induction false} RunLands(w0: World, bump: Option<Level>, run: Run, w: World, st: Stage, fates: Fates)
    requires Starts(w0, bump, run.v) && At(w0, run, w, st)
    requires Early(st) ==> !run.allPublished
    ensures var end := RunFrom(w, run, st, fates);
            && Expected(w0, run.v, end.world)
            && (end.completed ==> Released(w0, run.v, end.world))
            && (AllDone(fates) ==> end.completed)
            && (!Early(st) ==> Underway(w0, run.v, end.world) || Released(w0, run.v, end.world))
    decreases Remaining(st)
  {
    hide Starts, At, Expected, Underway, Released, Effect;
    Step(w0, bump, run, w, st, fates(st));
    if GoesOn(w, run, st, fates(st)) && Next(run, st).Some? {
      RunLands(w0, bump, run, Effect(w, run, st, fates(st)), Next(run, st).value, fates);
    }
  }

  /** Every state a failed run leaves behind the sentinel passes the resume checks. */
  lemma UnderwayIsAccepted(w0: World, start: Option<Level>, v: Version, w: World, bump: Option<Level>)
    requires Starts(w0, start, v) && Underway(w0, v, w)
    ensures Accepts(w, bump) && PlanOf(w, bump) == Resume(v)
  {
    StartFacts(w0, start, v);
    SharedWithPrefix(w.main, w.originMain);
  }

  /** Without the sentinel the bumped checkout reads as a dirty fresh release: refused, for good. */
  lemma StrandedIsRefused(w0: World, start: Option<Level>, v: Version, w: World, bump: Option<Level>)
    requires Starts(w0, start, v) && Stranded(w0, v, w)
    ensures !Accepts(w, bump)
  {
    StartFacts(w0, start, v);
  }

  /** An untouched checkout takes the level it started with, and no other. */
  lemma PristineAccepts(w0: World, start: Option<Level>, v: Version, w: World, bump: Option<Level>)
    requires Starts(w0, start, v) && Pristine(w0, w)
    ensures Accepts(w, bump) <==> bump == start
    ensures Starts(w, start, v)
  {
    StartFacts(w0, start, v);
    if Accepts(w, bump) {
      assert |Problems(w.files.changelog, bump)| == 0;
    }
  }

  /** The version after the one just released, by the marker still under `## Unreleased`. */
  ghost function NextTarget(w: World): Option<Version> {
    var declared := DeclaredIn(w.files.changelog);
    if declared.Some? then Some(Bumped(w.files.cargo, declared.value)) else None
  }

  ghost predicate Taken(w: World, v: Version) {
    v in w.localTags || v in w.originTags || exists pkg <- PACKAGES :: (pkg, v) in w.registry
  }

  /** A finished release refuses another wetrun until new notes arrive, unless its version's
      section was in the changelog beforehand: then the stamp left the notes under
      `## Unreleased`, and the next wetrun releases them again as soon as its version is free. */
  lemma ReleasedRefusesIff(w0: World, start: Option<Level>, v: Version, w: World)
    requires Starts(w0, start, v) && Released(w0, v, w)
    ensures (forall bump :: !Accepts(w, bump)) <==>
            (Section(w0.files.changelog, Spelled(v)).None? || NextTarget(w).None? || Taken(w, NextTarget(w).value))
  {
    hide Stamp, Section, UnreleasedContent, DeclaredIn;
    StartFacts(w0, start, v);
    StampFacts(w0, start, v);
    SharedWithPrefix(w.main, w.originMain);
    var log := w.files.changelog;
    assert w.files == Head(w).files;
    forall bump | Accepts(w, bump)
      ensures Section(w0.files.changelog, Spelled(v)).Some? && NextTarget(w) == PlanOf(w, bump).target
    {
      assert |Problems(log, bump)| == 0;
    }
    if Section(w0.files.changelog, Spelled(v)).Some? {
      assert log == w0.files.changelog;
      assert Problems(log, start) == [];
      assert PlanOf(w, start) == Fresh(NextTarget(w), [], false);
    }
  }

  lemma FirstRunLands(w0: World, start: Option<Level>, v: Version, w: World, toolsOk: bool, fates: Fates)
    requires Pristine(w0, w) && Starts(w0, start, v)
    ensures var end := WetrunOf(w, start, toolsOk, fates);
            && Expected(w0, v, end.world)
            && (end.completed ==> Released(w0, v, end.world))
            && (toolsOk && AllDone(fates) ==> end.completed)
  {
    StartFacts(w0, start, v);
    PristineAccepts(w0, start, v, w, start);
    if toolsOk {
      var run := RunOf(w, start);
      assert !run.allPublished by {
        assert (PACKAGES[0], v) in Shipped(v);
      }
      RunLands(w0, start, run, w, FirstStage(w, start), fates);
    }
  }

  lemma ResumedRunLands(w0: World, start: Option<Level>, v: Version, w: World,
                        bump: Option<Level>, toolsOk: bool, fates: Fates)
    requires Starts(w0, start, v) && Underway(w0, v, w)
    ensures var end := WetrunOf(w, bump, toolsOk, fates);
            && (Underway(w0, v, end.world) || Released(w0, v, end.world))
            && (end.completed ==> Released(w0, v, end.world))
            && (toolsOk && AllDone(fates) ==> end.completed)
  {
    UnderwayIsAccepted(w0, start, v, w, bump);
    if toolsOk {
      RunLands(w0, start, RunOf(w, bump), w, BumpLockfile, fates);
    }
  }

  // ----- any number of runs -----

  datatype Attempt = Attempt(bump: Option<Level>, toolsOk: bool, fates: Fates)

  function Attempted(w: World, a: Attempt): World {
    WetrunOf(w, a.bump, a.toolsOk, a.fates).world
  }

  function After(w: World, attempts: seq<Attempt>): World
    decreases attempts
  {
    if attempts == [] then w else After(Attempted(w, attempts[0]), attempts[1..])
  }

  // ----- the window -----

  /** A run that lands the version write and neither its sentinel nor anything after. */
  predicate DiesInWindow(w: World, start: Option<Level>, a: Attempt) {
    && a.toolsOk && a.bump == start
    && (w.sentinel.Some? ==> a.fates(RemoveStale).Done?)
    && Lands(a.fates(BumpCargo))
    && (!a.fates(BumpCargo).Done? || !Lands(a.fates(WriteSentinel)))
  }

  /** A first run strands the checkout exactly by dying there. */
  lemma StrandedExactly(w0: World, start: Option<Level>, v: Version, w: World, a: Attempt)
    requires Starts(w0, start, v) && Pristine(w0, w)
    ensures Stranded(w0, v, Attempted(w, a)) <==> DiesInWindow(w, start, a)
  {
    hide Stamp, Effect, RunFrom;
    StartFacts(w0, start, v);
    PristineAccepts(w0, start, v, w, a.bump);
    if a.toolsOk && a.bump == start {
      var run := RunOf(w, start);
      assert !run.allPublished by {
        assert (PACKAGES[0], v) in Shipped(v);
      }
      EarlyRun(w0, start, run, w0.(sentinel := None), a.fates);
      StaleRun(w0, run, w, a.fates);
    }
  }

  lemma StaleRun(w0: World, run: Run, w: World, fates: Fates)
    requires Pristine(w0, w) && w0.files.cargo != run.v
    ensures RunFrom(w, run, RemoveStale, fates).world ==
            if fates(RemoveStale).Done? then RunFrom(w0.(sentinel := None), run, BumpCargo, fates).world
            else if Lands(fates(RemoveStale)) then w0.(sentinel := None) else w
  {
  }

  lemma EarlyRun(w0: World, start: Option<Level>, run: Run, w: World, fates: Fates)
    requires Starts(w0, start, run.v) && !run.allPublished && w == w0.(sentinel := None)
    ensures Stranded(w0, run.v, RunFrom(w, run, BumpCargo, fates).world) <==>
            Lands(fates(BumpCargo)) && (!fates(BumpCargo).Done? || !Lands(fates(WriteSentinel)))
  {
    hide Starts, Stamp, At, Released, Underway, RunFrom;
    StartFacts(w0, start, run.v);
    BumpThenMark(w0, run, w, fates);
    if fates(BumpCargo).Done? && fates(WriteSentinel).Done? {
      var marked := w0.(files := w0.files.(cargo := run.v), sentinel := Some(run.v));
      MarkedIsUnderway(w0, start, run, marked);
      RunLands(w0, start, run, marked, BumpLockfile, fates);
      ForwardIsNotStranded(w0, run.v, RunFrom(marked, run, BumpLockfile, fates).world);
    }
  }

  lemma BumpThenMark(w0: World, run: Run, w: World, fates: Fates)
    requires w == w0.(sentinel := None)
    ensures var bumped := w.(files := w.files.(cargo := run.v));
            var marked := bumped.(sentinel := Some(run.v));
            RunFrom(w, run, BumpCargo, fates).world ==
            if !fates(BumpCargo).Done? then (if Lands(fates(BumpCargo)) then bumped else w)
            else if !fates(WriteSentinel).Done? then (if Lands(fates(WriteSentinel)) then marked else bumped)
            else RunFrom(marked, run, BumpLockfile, fates).world
  {
    var bumped := w.(files := w.files.(cargo := run.v));
    if fates(BumpCargo).Done? {
      assert RunFrom(w, run, BumpCargo, fates) == RunFrom(bumped, run, WriteSentinel, fates);
    }
  }

  lemma MarkedIsUnderway(w0: World, start: Option<Level>, run: Run, w: World)
    requires Starts(w0, start, run.v) && !run.allPublished
    requires w == w0.(files := w0.files.(cargo := run.v), sentinel := Some(run.v))
    ensures At(w0, run, w, BumpLockfile)
  {
    hide Stamp;
    StartFacts(w0, start, run.v);
  }

  lemma ForwardIsNotStranded(w0: World, v: Version, w: World)
    requires Underway(w0, v, w) || Released(w0, v, w)
    ensures !Stranded(w0, v, w)
  {
  }

  // ----- once released -----

  predicate Newer(a: Version, b: Version) {
    || a.major > b.major
    || (a.major == b.major && (a.minor > b.minor || (a.minor == b.minor && a.patch > b.patch)))
  }

  /** The release of `v` is out and stays as it is: live, tagged on origin on its one commit, and
      whatever is released from here on is newer. */
  ghost predicate Stands(w0: World, v: Version, w: World) {
    && Live(w, v)
    && v in w.originTags && w.originTags[v] == ReleasedMain(w0, v)
    && ReleasedMain(w0, v) <= w.main
    && OneCommit(w0, v, w)
    && (Newer(w.files.cargo, v) || (w.files.cargo == v && w.sentinel != Some(v)))
  }

  /** No commit after the release's own is named for `v`. */
  ghost predicate OneCommit(w0: World, v: Version, w: World) {
    forall i :: |w0.main| < i < |w.main| ==> w.main[i].subject != Publish(v)
  }

  lemma StepKeepsStanding(w0: World, v: Version, w: World, run: Run, st: Stage, fate: Fate)
    requires Stands(w0, v, w) && Newer(run.v, v)
    ensures Stands(w0, v, Effect(w, run, st, fate))
  {
    hide Stamp;
    if st.PublishNext? {
      assert w.registry <= Effect(w, run, st, fate).registry;
    }
  }

  lemma {:induction false} RunKeepsStanding(w0: World, v: Version, w: World, run: Run, st: Stage, fates: Fates)
    requires Stands(w0, v, w) && Newer(run.v, v)
    ensures Stands(w0, v, RunFrom(w, run, st, fates).world)
    decreases Remaining(st)
  {
    hide Stands, Effect;
    StepKeepsStanding(w0, v, w, run, st, fates(st));
    if GoesOn(w, run, st, fates(st)) && Release.Next(run, st).Some? {
      RunKeepsStanding(w0, v, Effect(w, run, st, fates(st)), run, Release.Next(run, st).value, fates);
    }
  }

  lemma AttemptKeepsStanding(w0: World, v: Version, w: World, a: Attempt)
    requires Stands(w0, v, w)
    ensures Stands(w0, v, Attempted(w, a))
  {
    if a.toolsOk && Accepts(w, a.bump) {
      RunKeepsStanding(w0, v, w, RunOf(w, a.bump), FirstStage(w, a.bump), a.fates);
    }
  }

  lemma ReleasedStands(w0: World, v: Version, w: World)
    requires Released(w0, v, w)
    ensures Stands(w0, v, w) && !Stranded(w0, v, w) && !Pristine(w0, w)
  {
  }

  /** The release completes at some point of the sequence. */
  ghost predicate ReleasedAlong(w0: World, v: Version, w: World, attempts: seq<Attempt>)
    decreases attempts
  {
    Released(w0, v, w) || (attempts != [] && ReleasedAlong(w0, v, Attempted(w, attempts[0]), attempts[1..]))
  }

  /** Some run of the sequence finds the checkout untouched and dies in the window. */
  ghost predicate DiesAlong(w0: World, start: Option<Level>, w: World, attempts: seq<Attempt>)
    decreases attempts
  {
    attempts != [] &&
    ((Pristine(w0, w) && DiesInWindow(w, start, attempts[0])) ||
     DiesAlong(w0, start, Attempted(w, attempts[0]), attempts[1..]))
  }

  lemma {:induction false} StandsAfter(w0: World, start: Option<Level>, v: Version, w: World, attempts: seq<Attempt>)
    requires Stands(w0, v, w)
    ensures Stands(w0, v, After(w, attempts)) && !Stranded(w0, v, After(w, attempts))
    ensures !DiesAlong(w0, start, w, attempts)
    decreases attempts
  {
    assert |w.main| > |w0.main|;
    if attempts != [] {
      AttemptKeepsStanding(w0, v, w, attempts[0]);
      StandsAfter(w0, start, v, Attempted(w, attempts[0]), attempts[1..]);
    }
  }

  lemma {:induction false} StrandedAfter(w0: World, start: Option<Level>, v: Version, w: World, attempts: seq<Attempt>)
    requires Starts(w0, start, v) && Stranded(w0, v, w)
    ensures After(w, attempts) == w && !ReleasedAlong(w0, v, w, attempts)
    decreases attempts
  {
    if attempts != [] {
      StrandedIsRefused(w0, start, v, w, attempts[0].bump);
      StrandedAfter(w0, start, v, w, attempts[1..]);
    }
  }

  /** One run, from a world the release has not left for good. */
  lemma AttemptLands(w0: World, start: Option<Level>, v: Version, w: World, a: Attempt)
    requires Starts(w0, start, v) && (Pristine(w0, w) || Underway(w0, v, w))
    ensures Expected(w0, v, Attempted(w, a))
    ensures Stranded(w0, v, Attempted(w, a)) <==> Pristine(w0, w) && DiesInWindow(w, start, a)
  {
    hide Starts, Accepts, Underway, RunFrom;
    StartFacts(w0, start, v);
    if Pristine(w0, w) {
      PristineAccepts(w0, start, v, w, a.bump);
      StrandedExactly(w0, start, v, w, a);
      FirstRunLands(w0, start, v, w, a.toolsOk, a.fates);
    } else {
      ResumedRunLands(w0, start, v, w, a.bump, a.toolsOk, a.fates);
      ForwardIsNotStranded(w0, v, Attempted(w, a));
    }
  }

  /** Until the release completes the world is an expected one, and stranded exactly when a run
      died in the window; from then on it stands. */
  lemma {:induction false} AttemptsLand(w0: World, start: Option<Level>, v: Version, w: World, attempts: seq<Attempt>)
    requires Starts(w0, start, v) && (Pristine(w0, w) || Underway(w0, v, w))
    ensures var end := After(w, attempts);
            && (ReleasedAlong(w0, v, w, attempts) ==> Stands(w0, v, end))
            && (!ReleasedAlong(w0, v, w, attempts) ==> Pristine(w0, end) || Stranded(w0, v, end) || Underway(w0, v, end))
            && (Stranded(w0, v, end) <==> DiesAlong(w0, start, w, attempts))
    decreases attempts
  {
    hide Starts, Underway, Released, Stands, Stranded, Pristine, DiesInWindow, Attempted;
    if attempts == [] {
      UnreleasedYet(w0, start, v, w);
    } else {
      var a, rest := attempts[0], attempts[1..];
      var next := Attempted(w, a);
      AttemptLands(w0, start, v, w, a);
      UnreleasedYet(w0, start, v, w);
      if Stranded(w0, v, next) {
        StrandedAfter(w0, start, v, next, rest);
      } else if Released(w0, v, next) {
        ReleasedStands(w0, v, next);
        assert ReleasedAlong(w0, v, next, rest);
        StandsAfter(w0, start, v, next, rest);
      } else {
        AttemptsLand(w0, start, v, next, rest);
      }
    }
  }

  lemma UnreleasedYet(w0: World, start: Option<Level>, v: Version, w: World)
    requires Starts(w0, start, v) && (Pristine(w0, w) || Underway(w0, v, w))
    ensures !Released(w0, v, w) && !Stranded(w0, v, w)
  {
    StartFacts(w0, start, v);
  }

  /** Over every sequence of runs, each failing anywhere or nowhere. Until the release completes
      the world is untouched, stranded in the one window, or resumable, and a resumable world
      finishes in one run in which nothing fails. Once it completes it stands, whatever is released
      after it. At every point a tag on origin means every package is live and the tag is on the
      single release commit. */
  lemma CrashRecovery(w0: World, start: Option<Level>, v: Version, attempts: seq<Attempt>, last: Attempt)
    requires Starts(w0, start, v)
    ensures var w := After(w0, attempts);
            && (if ReleasedAlong(w0, v, w0, attempts) then Stands(w0, v, w)
                else Pristine(w0, w) || Stranded(w0, v, w) || Underway(w0, v, w))
            && (w.main == w0.main || (ReleasedMain(w0, v) <= w.main && OneCommit(w0, v, w) && Shipped(v) <= w.registry))
            && (v in w.originTags ==> Shipped(v) <= w.registry && w.originTags[v] == ReleasedMain(w0, v))
            && (Underway(w0, v, w) ==> Accepts(w, last.bump))
            && (Underway(w0, v, w) && last.toolsOk && AllDone(last.fates) ==> Released(w0, v, Attempted(w, last)))
  {
    AttemptsLand(w0, start, v, w0, attempts);
    StartFacts(w0, start, v);
    var w := After(w0, attempts);
    if Underway(w0, v, w) {
      UnderwayIsAccepted(w0, start, v, w, last.bump);
      ResumedRunLands(w0, start, v, w, last.bump, last.toolsOk, last.fates);
    }
  }

  /** An unfinished release can never be finished, no wetrun being accepted any more, exactly when
      a run died between the version write and the sentinel write. */
  lemma OnlyTheWindowStrands(w0: World, start: Option<Level>, v: Version, attempts: seq<Attempt>)
    requires Starts(w0, start, v) && !ReleasedAlong(w0, v, w0, attempts)
    ensures (forall bump :: !Accepts(After(w0, attempts), bump)) <==> DiesAlong(w0, start, w0, attempts)
  {
    AttemptsLand(w0, start, v, w0, attempts);
    var w := After(w0, attempts);
    if Stranded(w0, v, w) {
      forall bump
        ensures !Accepts(w, bump)
      {
        StrandedIsRefused(w0, start, v, w, bump);
      }
    } else if Underway(w0, v, w) {
      UnderwayIsAccepted(w0, start, v, w, start);
    } else {
      PristineAccepts(w0, start, v, w, start);
    }
  }

  lemma {:induction false} ReleasedStays(w0: World, start: Option<Level>, v: Version, w: World, attempts: seq<Attempt>)
    requires Starts(w0, start, v) && Section(w0.files.changelog, Spelled(v)).None? && Released(w0, v, w)
    ensures After(w, attempts) == w
    decreases attempts
  {
    if attempts != [] {
      ReleasedRefusesIff(w0, start, v, w);
      ReleasedStays(w0, start, v, w, attempts[1..]);
    }
  }

  /** With no section for its version beforehand, a finished release is where every sequence of
      runs ends. */
  lemma {:induction false} ReleasedIsFinal(w0: World, start: Option<Level>, v: Version, w: World, attempts: seq<Attempt>)
    requires Starts(w0, start, v) && Section(w0.files.changelog, Spelled(v)).None? && Expected(w0, v, w)
    ensures Expected(w0, v, After(w, attempts))
    ensures ReleasedAlong(w0, v, w, attempts) <==> Released(w0, v, After(w, attempts))
    decreases attempts
  {
    if Released(w0, v, w) {
      ReleasedStays(w0, start, v, w, attempts);
    } else if Stranded(w0, v, w) {
      StrandedAfter(w0, start, v, w, attempts);
    } else if attempts != [] {
      AttemptLands(w0, start, v, w, attempts[0]);
      ReleasedIsFinal(w0, start, v, Attempted(w, attempts[0]), attempts[1..]);
    }
  }

  // ----- no version is published twice -----

  /** Every publish that took effect is on the registry, and none repeats another. */
  ghost predicate PublishedOnce(w: World) {
    && (forall i, j :: 0 <= i < j < |w.published| ==> w.published[i] != w.published[j])
    && (forall p <- w.published :: p in w.registry)
  }

  lemma StepPublishesOnce(w: World, run: Run, st: Stage, fate: Fate)
    requires PublishedOnce(w)
    ensures PublishedOnce(Effect(w, run, st, fate))
  {
    hide Stamp;
  }

  lemma {:induction false} RunPublishesOnce(w: World, run: Run, st: Stage, fates: Fates)
    requires PublishedOnce(w)
    ensures PublishedOnce(RunFrom(w, run, st, fates).world)
    decreases Remaining(st)
  {
    hide PublishedOnce, Effect;
    StepPublishesOnce(w, run, st, fates(st));
    if GoesOn(w, run, st, fates(st)) && Next(run, st).Some? {
      RunPublishesOnce(Effect(w, run, st, fates(st)), run, Next(run, st).value, fates);
    }
  }

  /** No sequence of runs, from any world, publishes one package version twice. */
  lemma {:induction false} NeverPublishedTwice(w: World, attempts: seq<Attempt>)
    requires PublishedOnce(w)
    ensures PublishedOnce(After(w, attempts))
    decreases attempts
  {
    if attempts != [] {
      var a := attempts[0];
      if a.toolsOk && Accepts(w, a.bump) {
        RunPublishesOnce(w, RunOf(w, a.bump), FirstStage(w, a.bump), a.fates);
      }
      NeverPublishedTwice(Attempted(w, a), attempts[1..]);
    }
  }

  // ----- the notes -----

  /** The notes read back for the release are what stood under `## Unreleased`, which is empty
      now, exactly when the changelog held no section for its version; with one, the release
      carries that section's notes and the new ones stay where they were. Every other version's
      notes stand as they did. */
  lemma NotesAreTheUnreleased(w0: World, start: Option<Level>, v: Version, w: World, other: Version)
    requires Starts(w0, start, v) && Released(w0, v, w) && other != v
    ensures var before, after := w0.files.changelog, w.files.changelog;
            && ((ReleaseNotes(after, Spelled(v)) == UnreleasedContent(before) && UnreleasedContent(after) == Some("")) <==>
                Section(before, Spelled(v)).None?)
            && (Section(before, Spelled(v)).Some? ==> after == before)
            && ReleaseNotes(after, Spelled(other)) == ReleaseNotes(before, Spelled(other))
  {
    hide ReleaseNotes, UnreleasedContent, Stamp;
    StartFacts(w0, start, v);
    StampFacts(w0, start, v);
    SpelledIsNoWord(other);
    if Spelled(other) == Spelled(v) {
      SpelledInjective(other, v);
    }
    OtherNotesStay(w0.files.changelog, Spelled(v), Spelled(other));
  }
}
