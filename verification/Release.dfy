/** The npm release script: its plan, its preflight, and the steps of a wetrun. Commands that
    reach outside the checkout (npm, git, the gates) either succeed or stop the run, and a run
    that stops may have had its command's effect. */
module Release {
  import opened Wrappers
  import opened ChangelogText

  datatype Version = Version(major: nat, minor: nat, patch: nat)

  function Bumped(v: Version, level: Level): Version {
    match level
    case Major => Version(v.major + 1, 0, 0)
    case Minor => Version(v.major, v.minor + 1, 0)
    case Patch => Version(v.major, v.minor, v.patch + 1)
  }

  const DIGITS := "0123456789"

  function Decimal(n: nat): string {
    if n < 10 then [DIGITS[n]] else Decimal(n / 10) + [DIGITS[n % 10]]
  }

  /** The version as the files, the tag and the changelog spell it. */
  function Spelled(v: Version): string {
    Decimal(v.major) + "." + Decimal(v.minor) + "." + Decimal(v.patch)
  }

  lemma {:induction false} DecimalDigits(n: nat)
    ensures Decimal(n) != "" && forall i :: 0 <= i < |Decimal(n)| ==> '0' <= Decimal(n)[i] <= '9'
  {
    if n >= 10 {
      DecimalDigits(n / 10);
    }
  }

  lemma {:induction false} DecimalInjective(m: nat, n: nat)
    requires Decimal(m) == Decimal(n)
    ensures m == n
  {
    if m >= 10 {
      DecimalDigits(m / 10);
    }
    if n >= 10 {
      DecimalDigits(n / 10);
    }
    if m >= 10 && n >= 10 {
      var text := Decimal(m);
      assert text[..|text| - 1] == Decimal(m / 10) == Decimal(n / 10);
      assert text[|text| - 1] == DIGITS[m % 10] == DIGITS[n % 10];
      DecimalInjective(m / 10, n / 10);
    }
  }

  lemma SplitAtDot(a: string, b: string, c: string, d: string)
    requires a + "." + b == c + "." + d
    requires (forall i :: 0 <= i < |a| ==> a[i] != '.') && (forall i :: 0 <= i < |c| ==> c[i] != '.')
    ensures a == c && b == d
  {
    var text := a + "." + b;
    assert text[|a|] == '.' && text[|c|] == '.';
    assert forall i :: 0 <= i < |a| ==> text[i] == a[i];
    assert forall i :: 0 <= i < |c| ==> text[i] == c[i];
    assert text[..|a|] == a && text[..|c|] == c && text[|a| + 1..] == b && text[|c| + 1..] == d;
  }

  /** Comparing versions as triples is comparing the texts the source compares. */
  lemma SpelledInjective(v: Version, w: Version)
    requires Spelled(v) == Spelled(w)
    ensures v == w
  {
    DecimalDigits(v.major);
    DecimalDigits(w.major);
    DecimalDigits(v.minor);
    DecimalDigits(w.minor);
    var vRest, wRest := Decimal(v.minor) + "." + Decimal(v.patch), Decimal(w.minor) + "." + Decimal(w.patch);
    assert Spelled(v) == Decimal(v.major) + "." + vRest && Spelled(w) == Decimal(w.major) + "." + wRest;
    SplitAtDot(Decimal(v.major), vRest, Decimal(w.major), wRest);
    SplitAtDot(Decimal(v.minor), Decimal(v.patch), Decimal(w.minor), Decimal(w.patch));
    DecimalInjective(v.major, w.major);
    DecimalInjective(v.minor, w.minor);
    DecimalInjective(v.patch, w.patch);
  }

  lemma SpelledIsNoWord(v: Version)
    ensures Spelled(v) != UNRELEASED
  {
    DecimalDigits(v.major);
    assert Spelled(v)[0] == Decimal(v.major)[0] && UNRELEASED[0] == 'U';
  }

  /** The files a release commit holds. */
  datatype Files = Files(cargo: Version, lock: Version, changelog: Lines)

  datatype Subject = Publish(v: Version) | Subject(text: string)

  datatype Commit = Commit(subject: Subject, files: Files)

  /** A branch's commits, oldest first; a commit is named by its history up to itself. */
  type History = h: seq<Commit> | |h| > 0 witness [Commit(Subject(""), Files(Version(0, 0, 0), Version(0, 0, 0), []))]

  const PACKAGES := ["@fuzdev/tsv-format-wasm", "@fuzdev/tsv-parse-wasm", "@fuzdev/tsv-wasm"]

  datatype World = World(
    files: Files,
    stray: bool,                       // an uncommitted change outside the release files
    sentinel: Option<Version>,
    onMain: bool,
    main: History,
    originMain: History,
    localTags: map<Version, History>,
    originTags: map<Version, History>,
    registry: set<(string, Version)>,
    published: seq<(string, Version)>  // every publish that took effect, in order
  )

  predicate Live(w: World, v: Version) {
    forall pkg <- PACKAGES :: (pkg, v) in w.registry
  }

  // ----- the plan and the preflight -----

  datatype Problem = NoSection | EmptySection | NoMarker | NoBump | LevelsDisagree

  datatype Plan =
    | Resume(v: Version)
    | Fresh(target: Option<Version>, problems: seq<Problem>, stale: bool)

  function Problems(log: Lines, bump: Option<Level>): seq<Problem> {
    (if UnreleasedContent(log).None? then [NoSection] else
     (if UnreleasedContent(log) == Some("") then [EmptySection] else []) +
     (if DeclaredIn(log).None? then [NoMarker] else [])) +
    (if bump.None? then [NoBump]
     else if DeclaredIn(log).Some? && DeclaredIn(log) != bump then [LevelsDisagree] else [])
  }

  /** `release_plan` */
  function PlanOf(w: World, bump: Option<Level>): Plan {
    if w.sentinel == Some(w.files.cargo) then Resume(w.files.cargo)
    else
      var agreed := bump.Some? && (DeclaredIn(w.files.changelog).None? || bump == DeclaredIn(w.files.changelog));
      Fresh(if agreed then Some(Bumped(w.files.cargo, bump.value)) else None,
            Problems(w.files.changelog, bump), w.sentinel.Some?)
  }

  function ReleaseVersion(plan: Plan): Option<Version> {
    match plan
    case Resume(v) => Some(v)
    case Fresh(target, _, _) => target
  }

  function Shared(a: seq<Commit>, b: seq<Commit>): (n: nat)
    ensures n <= |a| && n <= |b|
  {
    if a == [] || b == [] || a[0] != b[0] then 0 else 1 + Shared(a[1..], b[1..])
  }

  function Ahead(w: World): nat { |w.main| - Shared(w.main, w.originMain) }

  function Behind(w: World): nat { |w.originMain| - Shared(w.main, w.originMain) }

  function Head(w: World): Commit { w.main[|w.main| - 1] }

  predicate InSync(w: World, plan: Plan) {
    || (Ahead(w) == 0 && Behind(w) == 0)
    || (plan.Resume? && Behind(w) == 0 && Ahead(w) == 1 && Head(w).subject == Publish(plan.v))
  }

  predicate Clean(w: World, plan: Plan) {
    !w.stray && (plan.Fresh? ==> w.files == Head(w).files)
  }

  /** No tag yet for a fresh release; a resumed one's only on HEAD. */
  predicate TagFree(w: World, plan: Plan, tags: map<Version, History>) {
    var v := ReleaseVersion(plan);
    v.Some? && v.value in tags ==> plan.Resume? && tags[v.value] == w.main
  }

  predicate Unpublished(w: World, plan: Plan) {
    plan.Fresh? && plan.target.Some? ==> forall pkg <- PACKAGES :: (pkg, plan.target.value) !in w.registry
  }

  /** Step 1 lets a wetrun through. */
  predicate Accepts(w: World, bump: Option<Level>) {
    var plan := PlanOf(w, bump);
    && (plan.Fresh? ==> plan.problems == [] && plan.target.Some?)
    && w.onMain
    && InSync(w, plan)
    && Clean(w, plan)
    && TagFree(w, plan, w.localTags) && TagFree(w, plan, w.originTags)
    && Unpublished(w, plan)
  }

  // ----- the steps -----

  datatype Stage =
    | RemoveStale
    | BumpCargo
    | WriteSentinel
    | BumpLockfile
    | BumpChangelog
    | Gates
    | PublishNext(i: nat)
    | CommitFiles
    | TagCommit
    | Push
    | RemoveSentinel

  /** A step's command succeeds, or the run ends there with its effect having landed or not; a
      push may land the branch, the tag, both or neither. */
  datatype Fate = Done | Stop(landed: bool, tagLanded: bool)

  predicate Lands(fate: Fate) {
    fate.Done? || fate.landed
  }

  /** What one run decided before its first step. */
  datatype Run = Run(v: Version, allPublished: bool)

  function Reached(tags: map<Version, History>, main: History): map<Version, History> {
    map v | v in tags && tags[v] <= main :: tags[v]
  }

  /** `git push --follow-tags origin main`; a diverged origin rejects it whole. */
  function Pushed(w: World, fate: Fate): World {
    if !(w.originMain <= w.main) then w
    else w.(originMain := if Lands(fate) then w.main else w.originMain,
            originTags := if fate.Done? || fate.tagLanded then Reached(w.localTags, w.main) + w.originTags else w.originTags)
  }

  function Effect(w: World, run: Run, st: Stage, fate: Fate): World {
    match st
    case RemoveStale => if Lands(fate) then w.(sentinel := None) else w
    case BumpCargo => if Lands(fate) then w.(files := w.files.(cargo := run.v)) else w
    case WriteSentinel => if Lands(fate) then w.(sentinel := Some(run.v)) else w
    case BumpLockfile => if Lands(fate) then w.(files := w.files.(lock := w.files.cargo)) else w
    case BumpChangelog =>
      if Lands(fate) then w.(files := w.files.(changelog := Stamp(w.files.changelog, Spelled(run.v)).1)) else w
    case Gates => w
    case PublishNext(i) =>
      if i >= |PACKAGES| || (PACKAGES[i], run.v) in w.registry || !Lands(fate) then w
      else w.(registry := w.registry + {(PACKAGES[i], run.v)}, published := w.published + [(PACKAGES[i], run.v)])
    case CommitFiles =>
      if w.files == Head(w).files || !Lands(fate) then w
      else w.(main := w.main + [Commit(Publish(run.v), w.files)])
    case TagCommit => if run.v in w.localTags || !Lands(fate) then w else w.(localTags := w.localTags[run.v := w.main])
    case Push => Pushed(w, fate)
    case RemoveSentinel => if Lands(fate) then w.(sentinel := None) else w
  }

  /** The run goes on past this step. */
  predicate GoesOn(w: World, run: Run, st: Stage, fate: Fate) {
    match st
    case BumpChangelog => fate.Done? && Stamp(w.files.changelog, Spelled(run.v)).0 != NoUnreleased
    case Push => fate.Done? && w.originMain <= w.main
    case PublishNext(i) => i >= |PACKAGES| || fate.Done?
    case CommitFiles => fate.Done?
    case TagCommit => run.v in w.localTags || fate.Done?
    case _ => fate.Done?
  }

  function Next(run: Run, st: Stage): Option<Stage> {
    match st
    case RemoveStale => Some(BumpCargo)
    case BumpCargo => Some(WriteSentinel)
    case WriteSentinel => Some(BumpLockfile)
    case BumpLockfile => Some(BumpChangelog)
    case BumpChangelog => Some(if run.allPublished then CommitFiles else Gates)
    case Gates => Some(PublishNext(0))
    case PublishNext(i) => Some(if i >= |PACKAGES| then CommitFiles else PublishNext(i + 1))
    case CommitFiles => Some(TagCommit)
    case TagCommit => Some(Push)
    case Push => Some(RemoveSentinel)
    case RemoveSentinel => None
  }

  function Remaining(st: Stage): nat {
    match st
    case RemoveStale => 20
    case BumpCargo => 19
    case WriteSentinel => 18
    case BumpLockfile => 17
    case BumpChangelog => 16
    case Gates => 15
    case PublishNext(i) => if i >= |PACKAGES| then 5 else 6 + |PACKAGES| - i
    case CommitFiles => 4
    case TagCommit => 3
    case Push => 2
    case RemoveSentinel => 1
  }

  datatype Ending = Ending(world: World, completed: bool)

  type Fates = Stage -> Fate

  function RunFrom(w: World, run: Run, st: Stage, fates: Fates): Ending
    decreases Remaining(st)
  {
    var w' := Effect(w, run, st, fates(st));
    if !GoesOn(w, run, st, fates(st)) then Ending(w', false)
    else
      match Next(run, st)
      case None => Ending(w', true)
      case Some(next) => RunFrom(w', run, next, fates)
  }

  function RunOf(w: World, bump: Option<Level>): Run
    requires Accepts(w, bump)
  {
    var v := ReleaseVersion(PlanOf(w, bump)).value;
    Run(v, Live(w, v))
  }

  function FirstStage(w: World, bump: Option<Level>): Stage {
    match PlanOf(w, bump)
    case Resume(_) => BumpLockfile
    case Fresh(_, _, stale) => if stale then RemoveStale else BumpCargo
  }

  /** One `--wetrun`: refused, by the preflight or by a tool or lookup it needs, or run from its
      first step. */
  function WetrunOf(w: World, bump: Option<Level>, toolsOk: bool, fates: Fates): Ending {
    if !toolsOk || !Accepts(w, bump) then Ending(w, false)
    else RunFrom(w, RunOf(w, bump), FirstStage(w, bump), fates)
  }

  // ----- the script -----

  class Script {
    var files: Files
    var stray: bool
    var sentinel: Option<Version>
    var onMain: bool
    var main: History
    var originMain: History
    var localTags: map<Version, History>
    var originTags: map<Version, History>
    var registry: set<(string, Version)>
    var published: seq<(string, Version)>

    function Abstract(): World
      reads this
    {
      World(files, stray, sentinel, onMain, main, originMain, localTags, originTags, registry, published)
    }

    /** Step 2 of a fresh release. */
    method BumpFresh(run: Run, stale: bool, fates: Fates) returns (go: bool)
      modifies this
      ensures RunFrom(old(Abstract()), run, if stale then RemoveStale else BumpCargo, fates) ==
              if go then RunFrom(Abstract(), run, BumpLockfile, fates) else Ending(Abstract(), false)
    {
      if stale {
        if Lands(fates(RemoveStale)) {
          sentinel := None;
        }
        if !fates(RemoveStale).Done? {
          return false;
        }
      }
      ghost var unstaled := Abstract();
      if Lands(fates(BumpCargo)) {
        files := files.(cargo := run.v);
      }
      if !fates(BumpCargo).Done? {
        return false;
      }
      ghost var bumped := Abstract();
      assert RunFrom(unstaled, run, BumpCargo, fates) == RunFrom(bumped, run, WriteSentinel, fates);
      if Lands(fates(WriteSentinel)) {
        sentinel := Some(run.v);
      }
      return fates(WriteSentinel).Done?;
    }

    /** The idempotent half of step 2. */
    method BumpRest(run: Run, fates: Fates) returns (go: bool)
      modifies this
      ensures RunFrom(old(Abstract()), run, BumpLockfile, fates) ==
              if go then RunFrom(Abstract(), run, if run.allPublished then CommitFiles else Gates, fates)
              else Ending(Abstract(), false)
    {
      if Lands(fates(BumpLockfile)) {
        files := files.(lock := files.cargo);
      }
      if !fates(BumpLockfile).Done? {
        return false;
      }
      ghost var locked := Abstract();
      var (outcome, log) := Stamp(files.changelog, Spelled(run.v));
      if Lands(fates(BumpChangelog)) {
        files := files.(changelog := log);
      }
      return fates(BumpChangelog).Done? && outcome != NoUnreleased;
    }

    /** Step 7. */
    method PublishAll(run: Run, fates: Fates) returns (go: bool)
      modifies this
      ensures RunFrom(old(Abstract()), run, PublishNext(0), fates) ==
              if go then RunFrom(Abstract(), run, CommitFiles, fates) else Ending(Abstract(), false)
    {
      ghost var all := RunFrom(Abstract(), run, PublishNext(0), fates);
      for i := 0 to |PACKAGES|
        invariant RunFrom(Abstract(), run, PublishNext(i), fates) == all
      {
        var pkg, fate := PACKAGES[i], fates(PublishNext(i));
        if (pkg, run.v) !in registry && Lands(fate) {
          registry := registry + {(pkg, run.v)};
          published := published + [(pkg, run.v)];
        }
        if !fate.Done? {
          return false;
        }
      }
      return true;
    }

    method CommitAndTag(run: Run, fates: Fates) returns (go: bool)
      modifies this
      ensures RunFrom(old(Abstract()), run, CommitFiles, fates) ==
              if go then RunFrom(Abstract(), run, Push, fates) else Ending(Abstract(), false)
    {
      if files != main[|main| - 1].files && Lands(fates(CommitFiles)) {
        main := main + [Commit(Publish(run.v), files)];
      }
      if !fates(CommitFiles).Done? {
        return false;
      }
      ghost var committed := Abstract();
      if run.v !in localTags {
        if Lands(fates(TagCommit)) {
          localTags := localTags[run.v := main];
        }
        if !fates(TagCommit).Done? {
          return false;
        }
      }
      assert RunFrom(committed, run, TagCommit, fates) == RunFrom(Abstract(), run, Push, fates);
      return true;
    }

    /** Step 8. */
    method FinalizeGit(run: Run, fates: Fates) returns (completed: bool)
      modifies this
      ensures RunFrom(old(Abstract()), run, CommitFiles, fates) == Ending(Abstract(), completed)
    {
      var go := CommitAndTag(run, fates);
      if !go {
        return false;
      }
      var pushed := Pushed(Abstract(), fates(Push));
      var rejected := !(originMain <= main);
      ghost var tagged := Abstract();
      originMain, originTags := pushed.originMain, pushed.originTags;
      if rejected || !fates(Push).Done? {
        return false;
      }
      assert RunFrom(tagged, run, Push, fates) == RunFrom(Abstract(), run, RemoveSentinel, fates);
      if Lands(fates(RemoveSentinel)) {
        sentinel := None;
      }
      return fates(RemoveSentinel).Done?;
    }

    method Wetrun(bump: Option<Level>, toolsOk: bool, fates: Fates) returns (completed: bool)
      modifies this
      ensures Ending(Abstract(), completed) == WetrunOf(old(Abstract()), bump, toolsOk, fates)
    {
      if !toolsOk || !Accepts(Abstract(), bump) {
        return false;
      }
      var plan, run := PlanOf(Abstract(), bump), RunOf(Abstract(), bump);
      if plan.Fresh? {
        var go := BumpFresh(run, plan.stale, fates);
        if !go {
          return false;
        }
      }
      var go := BumpRest(run, fates);
      if !go {
        return false;
      }
      if !run.allPublished {
        if !fates(Gates).Done? {
          return false;
        }
        go := PublishAll(run, fates);
        if !go {
          return false;
        }
      }
      completed := FinalizeGit(run, fates);
    }
  }
}
