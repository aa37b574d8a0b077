# Verified models of the tsv tooling

A Dafny model of the decision-making code in tsv's TypeScript tooling: the scripts that choose what to
type-check, patch the WASM glue, release the packages, grade performance and account for benchmark coverage.
Each module holds the operation in the form the script has (a class whose methods update fields, a loop over
mutable sets, a pure rule), a specification function it is proved against, and the properties of that function.

| file | models |
|---|---|
| `FieldSlots.dfy` | the recursive walk that collects a wire tree's field slots |
| `GreedyCover.dfy` | the greedy weighted cover over those slots, and what it can cost |
| `Glue.dfy`, `GlueSafety.dfy` | the patched WASM glue: instances, generations, handles, finalizers, overlapping inits |
| `LazyEntry.dfy` | `browser.js`: `init`, `init_sync` and the shared promise, over that glue |
| `Release.dfy`, `ReleaseRecovery.dfy`, `ReleaseGuards.dfy`, `ReleaseExamples.dfy` | the npm release: plan, preflight, steps, every way of failing and resuming, and what no run from any world gets past |
| `ChangelogText.dfy` | the changelog grammar: what a release stamps and what is read back |
| `NapiPublish.dfy` | the native packages' publish loop |
| `Statistics.dfy`, `PerfVerdict.dfy`, `PerfRounds.dfy` | medians, row verdicts, and the adaptive rounds loop |
| `Preflight.dfy`, `PerfLedger.dfy` | the untimed pass, the timed file lists, the per-source split, and the omit ledger |
| `ReadmeLines.dfy`, `ReadmeFences.dfy` | the README fence and marker scanner |
| `WorkerPool.dfy` | the parity workers over one shared counter |
| `JsStrings.dfy`, `FiniteSets.dfy`, `Wrappers.dfy` | string operations, set sizes, `Option`, `Result` |

Everything outside the scripts (npm, git, the gates, the WASM engine, the garbage collector, a benchmarked
tool, a driver run) is an argument: an action's or a run's parameters say what it answered, and the theorems
hold for every answer. A command may report failure after taking effect; a run may end at any step.

## Where the code does less than its comments say

Each of these is proved beside the general result, as an exact condition or at an input that shows it.

- A lazy entry whose `reinstantiate()` threw is ready without an instance. `init()` and `init_sync()` are
  no-ops once ready and `reinstantiate()` refuses, so it recovers if and only if a load is still pending
  (`LazyEntry.RecoversIffLoadPending`, `LazyEntry.DeadEndIsReachable`).
- A release dying between the version write and the sentinel write leaves a checkout no wetrun accepts; no
  other point does (`ReleaseRecovery.OnlyTheWindowStrands`, `ReleaseExamples.WindowExample`).
- A changelog already holding the target's section is not stamped: the released version's notes stay the old
  ones and `## Unreleased` keeps the new ones, so the next wetrun releases them again if its version is free
  (`ReleaseRecovery.NotesAreTheUnreleased`, `ReleaseRecovery.ReleasedRefusesIff`,
  `ReleaseExamples.PriorSectionExample`).
- With no marker under the first `## Unreleased` and one under a later one, the stamp rewrites the later one
  (`ChangelogText.LaterMarkedSectionIsStamped`, `ChangelogText.LaterMarkedExample`); the plan refuses such a
  changelog first.
- Adding a timed task narrows the shared file list unless it is the first timed task
  (`Preflight.TimedTaskOnlyNarrows`).
- The fence language table is a plain object, so a fence spelling `constructor` and the like is graded
  (`ReadmeFences.OnlyLanguagesIff`, `ReadmeFences.InheritedWordExample`).
- The cover's tie-break needs distinct paths (`GreedyCover.SharedPathOrderMatters`).

## Model

| member | source | states |
|---|---|---|
| `FieldSlots.WireFieldSlots` | scripts/check_ast_types.ts:412-448 | The shared-set walk collects exactly the slots the specification function gives a tree. |
| `FieldSlots.SlotCollector.VisitProperty` | scripts/check_ast_types.ts:434-444 | One property adds its own slots and everything below it, and nothing else. |
| `FieldSlots.SlotsExact` | scripts/check_ast_types.ts:382-448 | A slot is collected if and only if some object reachable in the tree has that string type, that key and a child of that shape, and neither name is opaque; nodes above it may be opaque. |
| `FieldSlots.SlotsDeclared` | scripts/check_ast_types.ts:412-448 | The same read off the tree: the first `type` key, `#obj`, `#scalar` and `#empty` where a child has none, and the slot spelled `Parent.key->Child`. |
| `FieldSlots.TypingARegionAddsItsSlots` | scripts/check_ast_types.ts:405-410 | Shrinking the opaque set never loses a slot. |
| `FieldSlots.SlotsOrderIndependent` | scripts/check_ast_types.ts:426-445 | Permuting keys or array elements at any depth leaves the slot set unchanged. |
| `GreedyCover.Cover` | scripts/check_ast_types.ts:502-530 | The loop with its running best, score, gain and deletions computes the specified selection, and terminates. |
| `GreedyCover.BestIsBest` | scripts/check_ast_types.ts:506-523 | Of the wires holding an uncovered slot, none has more of them per byte than the one a scan settles on, nor as many per byte and more of them, nor both alike and an earlier path; a file under one byte counts as one. |
| `GreedyCover.EveryPickIsBest` | scripts/check_ast_types.ts:505-527 | Every pick is such a one for what no earlier pick holds. |
| `JsStrings.LessMeans` | scripts/check_ast_types.ts:515-519 | Paths compare by their first difference, a proper beginning coming first. |
| `GreedyCover.PicksCover` | scripts/check_ast_types.ts:505-527 | The picks hold exactly those wanted slots that any wire holds. |
| `GreedyCover.EveryPickGains` | scripts/check_ast_types.ts:511-526 | Each pick brings a wanted slot no earlier pick held. |
| `GreedyCover.CoverCorrect` | scripts/check_ast_types.ts:502-530 | The result consists of corpus wires sorted by path, and its slots are exactly the corpus union when that is what was wanted. |
| `GreedyCover.CoverOrderIndependent` | scripts/check_ast_types.ts:496-519 | With distinct paths, every permutation of the corpus gives the same selection. |
| `GreedyCover.SharedPathOrderMatters` | scripts/check_ast_types.ts:515-519 | Two fixtures sharing path, size and gain are picked by walk order. |
| `GreedyCover.GreedyCharged` | scripts/check_ast_types.ts:496-530 | Chvatal's bound: the cost of the picks is at most the sum, over any family covering the wanted slots, of H(its wanted slots) times its own cost. |
| `GreedyCover.GreedyBound` | scripts/check_ast_types.ts:496-530 | The selection costs at most H(number wanted) times any covering family of corpus wires. |
| `GreedyCover.GreedyBytes` | scripts/check_ast_types.ts:496-530 | The same in bytes: at most H(number wanted) times the bytes of any covering family. |
| `GreedyCover.GreedyLogarithmic` | scripts/check_ast_types.ts:496-530 | With at most 2^k slots wanted, at most k + 1 times those bytes. |
| `GreedyCover.SelectionHoldsEverySlot` | scripts/check_ast_types.ts:583-600 | Every gradable slot of every document is gradable in some selected document. |
| `Glue.GlueModule.FinishInit` | scripts/patch_npm_package.ts:278-285 | After its await the async init installs its instance only if none is there, and otherwise drops it. |
| `Glue.GlueModule.Reinstantiate` | scripts/patch_npm_package.ts:371-379 | The new glue state for each way it goes: refused, failed with the binding empty, or replaced under the next generation. |
| `Glue.GlueModule.Mint` | scripts/patch_npm_package.ts:307-313 | A constructed handle and its registry entry carry the current generation and the pointer the live instance allocated. |
| `Glue.GlueModule.Method` | scripts/patch_npm_package.ts:325-328 | A receiver reaches the live instance only under the current generation, and what that call does, trap included, is the reply. |
| `Glue.GlueModule.Free` | scripts/patch_npm_package.ts:314-324 | The handle is nulled and unregistered; the live instance is handed its pointer only under the current generation, and frees it unless it traps, which the reply shows. |
| `Glue.GlueModule.Finalize` | scripts/patch_npm_package.ts:296-306 | The registry callback hands over only a pointer of the current generation; a trap frees nothing and shows in the reply. |
| `GlueSafety.StepKeepsInvariant` | scripts/patch_npm_package.ts:253-285 | Every action keeps the glue's invariant on stamps, ownership, registry and install log. |
| `GlueSafety.MemorySafe` | scripts/patch_npm_package.ts:253-276 | After any run, what an action hands to wasm, whether or not the call traps, goes to the live instance, comes from a handle that instance minted, and is null or still allocated there. |
| `GlueSafety.HandleContract` | scripts/patch_npm_package.ts:345-359 | Stale handles throw in methods and free nothing; current ones reach the live instance and, short of a trap, give their object back. |
| `GlueSafety.CleanupThrowsIff` | scripts/patch_npm_package.ts:345-351 | A free or a finalizer throws if and only if its stamp is current and the engine traps; a stale one never does; either way the handle is unregistered. |
| `GlueSafety.FinalizerContract` | scripts/patch_npm_package.ts:253-264 | A collected handle's object is released exactly when its generation is current and the engine does not trap. |
| `GlueSafety.MintedHandleWorks` | scripts/patch_npm_package.ts:259-264 | A handle minted in any generation works until it is freed, called back or its instance discarded, whatever else happens: methods hand its pointer to the instance that allocated it, and a free, or a finalizer once it is collected, gives that instance the object back. |
| `GlueSafety.DiscardedForGood` | scripts/patch_npm_package.ts:361-379 | From a reinstantiate on, whatever follows and whatever traps, handles minted before it clean up silently without reaching any instance, and their methods throw. |
| `GlueSafety.OneInstancePerGeneration` | scripts/patch_npm_package.ts:278-284 | In any interleaving of inits, one generation value sees at most one installed instance. |
| `GlueSafety.ReplacedOnlyByReinstantiate` | scripts/patch_npm_package.ts:361-379 | An installed instance leaves the binding only through reinstantiate, which keeps the compiled module. |
| `GlueSafety.RecheckIsNeeded` | scripts/patch_npm_package.ts:278-284 | Without the re-check a concrete schedule installs two instances in one generation and hands one's pointer to the other; with it the same schedule is safe. |
| `LazyEntry.BrowserEntry.Init` | scripts/patch_npm_package.ts:689-702 | One call's synchronous half: return, join the shared flight, or start one. |
| `LazyEntry.BrowserEntry.InitSync` | scripts/patch_npm_package.ts:705-709 | Ready is set exactly when the glue's own init did not throw. |
| `LazyEntry.BrowserEntry.React` | scripts/patch_npm_package.ts:691-701 | What each reaction does to the flag, the shared promise and its outcome. |
| `LazyEntry.InitContract` | scripts/patch_npm_package.ts:669-702 | In every run: one flight at a time; a resolved or returned init finds the entry ready; the shared promise is never a rejected one. |
| `LazyEntry.ReadyHasInstance` | scripts/patch_npm_package.ts:669-709 | Ready implies a live instance in every run in which no reinstantiate threw. |
| `LazyEntry.FailureContract` | scripts/patch_npm_package.ts:695-700 | A failed flight is swallowed if an init_sync landed, and otherwise rejects and leaves the next init to start a new flight. |
| `LazyEntry.SuccessContract` | scripts/patch_npm_package.ts:691-694 | A flight that succeeds resolves, and so does every call awaiting it; the entry is ready and later inits return at once. |
| `LazyEntry.LoadedResolves` | scripts/patch_npm_package.ts:689-702 | A pending load that is answered well leaves an instance, a ready entry and a resolved promise. |
| `LazyEntry.CallsContract` | scripts/patch_npm_package.ts:689-709 | In any reachable state: a ready entry is left alone; init_sync readies the entry with an instance or throws and changes nothing; init waits for the one flight. |
| `LazyEntry.RejectedExactly` | scripts/patch_npm_package.ts:695-700 | Over whole runs a promise is rejected exactly when its reaction ran on a failed load with the entry not ready, and a load fails only by being settled so. |
| `LazyEntry.RecoversIffLoadPending` | scripts/patch_npm_package.ts:689-709 | A ready entry without an instance gets one back, through its own calls, if and only if a load is pending. |
| `LazyEntry.DeadEndIsReachable` | scripts/patch_npm_package.ts:371-379 | One init and one throwing reinstantiate reach that state. |
| `Release.Script.Wetrun` | scripts/publish.ts:160-732 | The script's straight-line run, under every fate of every step, ends in the world and completion the step function gives. |
| `Release.Script.PublishAll` | scripts/publish.ts:687-728 | The publish loop skips what is live, stops at the first failure, and lands what the step function says. |
| `Release.Script.FinalizeGit` | scripts/publish.ts:846-864 | Commit, tag, push and sentinel removal, each a no-op when already done. |
| `ReleaseGuards.GatesGuard` | scripts/publish.ts:452-680 | From any world, unless every package is out already, a run whose gates fail publishes, commits, tags and pushes nothing, and does not complete. |
| `ReleaseGuards.EveryPublishIsGated` | scripts/publish.ts:684-705 | Over any sequence of runs, every publish that took effect belongs to a run whose own gates passed and that was let through for that version. |
| `ReleaseGuards.CompletesIff` | scripts/publish.ts:160-732 | A run completes exactly when it is let through and every step it needs is done; then the packages are out, the files committed, commit and tag on origin, and the sentinel gone. |
| `ReleaseGuards.ChangesOnlyItsOwn` | scripts/publish.ts:227-284 | A run that changes anything found main checked out, clean but for a resume's own edits, ahead of origin by its own commit at most and its tag nowhere else; all it adds to registry, main, origin and tags is its own release. |
| `ReleaseGuards.BumpIsLeast` | scripts/release/version.ts:112-125 | A bump goes to the least newer version that changes the component it names or one above, and changes none above. |
| `ReleaseRecovery.Step` | scripts/publish.ts:398-449 | Whatever happens to one step, the world it leaves is untouched, stranded, resumable or released, past the sentinel write only the last two, and the next step's knowledge holds when the run goes on. |
| `ReleaseRecovery.UnderwayIsAccepted` | scripts/publish.ts:227-284 | Every resumable world passes the preflight as a resume of the same version, whatever bump is passed. |
| `ReleaseRecovery.StrandedIsRefused` | scripts/publish.ts:404-416 | A bumped checkout without its sentinel is refused whatever bump is passed. |
| `ReleaseRecovery.ReleasedRefusesIff` | scripts/release/plan.ts:58-111 | A finished release refuses further wetruns exactly unless its section pre-existed and the next version is free. |
| `ReleaseRecovery.ResumedRunLands` | scripts/publish.ts:57-64 | A resumed run leaves a resumable or released world, is released if it completes, and completes if nothing fails. |
| `ReleaseRecovery.CrashRecovery` | scripts/publish.ts:57-64 | For every changelog and every sequence of failing runs: until the release completes the world is untouched, stranded or resumable, and a resumable one finishes in one clean run; once complete it stands, later releases included; at most one commit is named for the version; a tag on origin means every package is live and the tag is on that commit. |
| `ReleaseRecovery.ReleasedIsFinal` | scripts/release/plan.ts:58-111 | With no section for the version beforehand, a completed release is where every sequence of runs ends. |
| `ReleaseRecovery.StrandedExactly` | scripts/publish.ts:404-416 | A first run strands the checkout exactly when it lands the version write and not the sentinel write. |
| `ReleaseRecovery.OnlyTheWindowStrands` | scripts/publish.ts:409-416 | An unfinished release is refused by every further wetrun exactly when some run of the sequence died there. |
| `ReleaseExamples.WindowExample` | scripts/publish.ts:409-416 | A concrete run whose sentinel write fails. |
| `ReleaseRecovery.NeverPublishedTwice` | scripts/publish.ts:684-705 | No sequence of runs publishes a package version twice. |
| `ReleaseRecovery.NotesAreTheUnreleased` | scripts/release/changelog.ts:103-124 | The notes read back for the released version are those under Unreleased, which is emptied, exactly when the changelog held no section for it; every other version's notes stay. |
| `ReleaseExamples.PriorSectionExample` | scripts/release/changelog.ts:104-106 | A clean run that releases an older section's notes, after which the same wetrun is accepted for the next version. |
| `Release.SpelledInjective` | scripts/release/version.ts:103-128 | Two versions spelled alike are the same version. |
| `ChangelogText.NotesReadBack` | scripts/release/changelog.ts:82-124 | For every changelog with a declared marker, the notes read back are what stood under Unreleased, which is then empty and marked patch; stamping again changes nothing. |
| `ChangelogText.SectionExactly` | scripts/release/changelog.ts:52-61 | A section is found exactly as the lines between the first line that is its heading and the next heading or the end. |
| `ChangelogText.TrimmedMeans` | scripts/release/changelog.ts:63-90 | Trimming takes the whitespace off both ends of a section's text, and nothing else. |
| `ChangelogText.MarkersAreSpelled` | scripts/release/changelog.ts:17-25 | A line declares a level exactly when it is that level's marker comment. |
| `ChangelogText.StampFails` | scripts/release/changelog.ts:103-124 | A stamp finds nothing to do exactly when neither the version's section nor an unreleased one is there. |
| `ChangelogText.OtherNotesStay` | scripts/release/changelog.ts:103-124 | Stamping one version changes no other version's notes. |
| `ChangelogText.MarkedReads` | scripts/release/changelog.ts:17-41 | A marker the reader accepts is one the stamper strips: the section it rewrites is the one that was read. |
| `ChangelogText.LaterMarkedSectionIsStamped` | scripts/release/changelog.ts:111-121 | A stamp leaves a declared marker behind exactly when one was declared or no `## Unreleased` was marked; otherwise the first section, which readers read, stays as it was. |
| `ChangelogText.LaterMarkedExample` | scripts/release/changelog.ts:111-121 | A five-line changelog it happens to. |
| `NapiPublish.Publisher.Collect` | scripts/publish_napi.ts:85-138 | The set is reported incomplete exactly when some pin fails a check, and otherwise yields the platforms in pin order. |
| `NapiPublish.Publisher.Publish` | scripts/publish_napi.ts:66-214 | The run's registry and verdict are the specified ones, and its two counts add up to the set. |
| `NapiPublish.LoaderLast` | scripts/publish_napi.ts:23-32 | Over any runs, any stagings and any failures, whatever a live package needs is live. |
| `NapiPublish.RunContract` | scripts/publish_napi.ts:66-138 | An incomplete or mistagged set and every dry run publish nothing; success means the whole set is live. |
| `NapiPublish.RunExactly` | scripts/publish_napi.ts:173-214 | A real run succeeds exactly when every package's turn does; a package not live before goes live exactly when every earlier turn went on and its own publish succeeded or landed; a loader gone live names the staged pins, all of them live; nothing live before changes. |
| `NapiPublish.NothingPartial` | scripts/publish_napi.ts:68-138 | A set lacking a pin, a binary, an executable bit or an agreeing name or version, or tagged otherwise, fails the run and leaves the registry alone. |
| `NapiPublish.DryRunExactly` | scripts/publish_napi.ts:177-205 | A dry run changes nothing and passes exactly when npm packs every package not already live. |
| `NapiPublish.LoaderFirstFails` | scripts/publish_napi.ts:173-174 | Sending the loader first breaks that after one failure. |
| `Statistics.MedianWithMajority` | scripts/perf_ab_verdict.ts:127-134 | The median lies in any range that holds a strict majority of the values. |
| `Statistics.MedianIsMiddle` | scripts/perf_ab_verdict.ts:127-134 | The median is what stands in the middle of the values in any ascending order of them, halfway between the middle two of an even number. |
| `Statistics.SpreadOfMajority` | scripts/perf_ab_verdict.ts:136-143 | The spread lies wherever a strict majority of the distances from the median lie. |
| `Statistics.MadWithMajority` | scripts/perf_ab_verdict.ts:136-143 | The spread is at most the width of any such range. |
| `Statistics.MedianBreakdown` | scripts/perf_ab_verdict.ts:127-143 | Replacing fewer than half of the values keeps median and spread within the untouched values' range. |
| `Statistics.HalfBreaks` | scripts/perf_ab_verdict.ts:127-134 | For any values and any bound, replacing half of them, rounded up, can move the median past it. |
| `PerfVerdict.AbRow` | scripts/perf_ab_verdict.ts:206-251 | The checks throw in their order, and otherwise the row is the specified fold of the samples. |
| `PerfVerdict.PublishedRule` | scripts/perf_ab_verdict.ts:6-18 | Each verdict holds exactly under the condition the rule states in prose. |
| `PerfVerdict.FlipsExactly` | scripts/perf_ab_verdict.ts:304-319 | The flip test holds exactly when the two sides of the wall threshold get opposite answers, and when it fails no wall matters. |
| `PerfVerdict.SignOffContract` | scripts/perf_ab_verdict.ts:253-271 | A sign-off row is over the line by at most both margins, and re-measuring its wall yields only a warning or a failure. |
| `PerfVerdict.MajorityCannotFail` | scripts/perf_ab_verdict.ts:225-234 | A strict majority of deltas within the threshold, and instructions within their gate, cannot fail. |
| `PerfVerdict.SlowMajorityVerdict` | scripts/perf_ab_verdict.ts:155-234 | From samples alone: more than 1.5% slower in a strict majority of rounds fails, or reads as layout when the candidate's instruction median is within half a percent of the base's. |
| `PerfVerdict.SteadyMajorityVerdict` | scripts/perf_ab_verdict.ts:155-234 | No more than 1.5% slower in a strict majority of rounds passes, unless the instruction median rose: half a percent warns, over 1.5% fails. |
| `PerfVerdict.RisenInstructionsFail` | scripts/perf_ab_verdict.ts:160-174 | An instruction median over 1.015 times the base's fails whatever the walls. |
| `PerfVerdict.DeltaFromSamples` | scripts/perf_ab_verdict.ts:155-226 | The paired delta lies in a range of percents when a strict majority of rounds do, candidate against base. |
| `PerfVerdict.SignOffExactly` | scripts/perf_ab_verdict.ts:253-271 | A row is signed off exactly when it fails, would only warn with its wall at the threshold, and exceeds its instructions by at most 1.5. |
| `PerfVerdict.FewRoundsCannotDecide` | scripts/perf_ab_verdict.ts:206-251 | Replacing fewer than half of the rounds keeps delta and spread in the untouched rounds' range and cannot make a within-threshold row fail by its walls. |
| `PerfVerdict.DriftCancels` | scripts/perf_ab_verdict.ts:28-30 | Scaling both sides of each round by any positive factor changes neither delta, spread, verdict nor sign-off. |
| `PerfVerdict.PhaseInstructionsExact` | scripts/perf_ab_verdict.ts:105-120 | The subtraction recovers each phase's per-iteration count, for format and strip drivers alike. |
| `PerfRounds.WithinErrorMeans` | scripts/perf_ab_verdict.ts:297-302 | For every graded row the squared comparison is the comparison with the standard error. |
| `PerfRounds.AmbiguousExactly` | scripts/perf_ab_verdict.ts:287-331 | A graded row is ambiguous exactly when the two sides of the threshold get opposite answers and its wall is within its standard error of it; settleable exactly when ten rounds are ahead and would take it out of that. |
| `PerfRounds.SettleableExactly` | scripts/perf_ab_verdict.ts:323-331 | An ambiguous row is settleable exactly when the cap would find it unambiguous, and more rounds at the same spread never make a row ambiguous. |
| `PerfRounds.SamplesPairByRound` | scripts/perf_ab_verdict.ts:176-184 | Sample r of either side is its round r, whichever side went first. |
| `PerfRounds.AlternationBalances` | scripts/perf_ab.ts:724-727 | Over an even number of rounds each side goes first in exactly half. |
| `PerfRounds.LogAt` | scripts/perf_ab.ts:724-729 | The driver runs in closed form: each round each language's two sides back to back, the base first in even rounds. |
| `PerfRounds.RowsAt` | scripts/perf_ab.ts:765-785 | The rows are two per language, in order: parse, then format or strip, each from that phase's samples. |
| `PerfRounds.SlowdownFails` | scripts/perf_ab.ts:765-908 | End to end from the drivers' readings: a phase more than 1.5% slower in a strict majority of rounds, nothing counted, is a failing row of that language. |
| `PerfRounds.PerfRun.RunRound` | scripts/perf_ab.ts:714-763 | A round runs every language with the right side first and records it, or stops in that order exactly when some run's files or bytes moved. |
| `PerfRounds.PerfRun.Grade` | scripts/perf_ab.ts:765-785 | The rows are those of every recorded round, or the first row error. |
| `PerfRounds.PerfRun.MeasureAll` | scripts/perf_ab.ts:893-908 | It terminates. Finishing, the rounds are even and within bounds, recorded in order over an unmoved corpus, each pair past the asked ones wanted by the rows before it, and no ambiguous row is left that another pair could settle; a row error is one of rounds so measured; a moved corpus was found in the last round run, the first to differ. |
| `Preflight.RunTask` | benches/js/bench_preflight.ts:1282-1357 | One task's success, script-only, skip and digest records and totals, for any tool. |
| `Preflight.RecordMeans` | benches/js/bench_preflight.ts:1291-1333 | A path is a success exactly when the tool takes a file of it, directly or at a permitted Script-goal retry, script-only exactly in the latter case, and skipped exactly when it refuses one. |
| `Preflight.ErrorRecorded` | benches/js/bench_preflight.ts:1296-1330 | The recorded error is the first call's, even when the retry failed too, or says the output was empty. |
| `Preflight.DigestRecorded` | benches/js/bench_preflight.ts:1334-1337 | The digest kept is that of the last file under the path the tool took with one. |
| `Preflight.BytesAreKept` | benches/js/bench_preflight.ts:1333 | With distinct paths, a task's bytes are those of the files its own successes keep. |
| `Preflight.LastDigestStands` | benches/js/bench_preflight.ts:1334-1337 | A digested path keeps the digest of the last file accepted under it with one. |
| `Preflight.FirstErrorStands` | benches/js/bench_preflight.ts:551-559 | A skipped path keeps the first error recorded under it, the primary reading even after a failed retry. |
| `Preflight.RecordsEveryFile` | benches/js/bench_preflight.ts:1291-1347 | Successes and skips together are all paths, script-only ones are successes, and the two overlap exactly when two files share a path with opposite verdicts. |
| `Preflight.Partition` | benches/js/bench_preflight.ts:1282-1358 | With distinct paths they partition the files and their sizes add up. |
| `Preflight.Intersection` | benches/js/bench_preflight.ts:1450-1466 | The seeded, delete-while-walking loop leaves exactly the paths every timed task accepted, and none when nothing is timed. |
| `Preflight.TimedLists` | benches/js/bench_preflight.ts:1446-1480 | Exactly the timed tasks get a list: one shared list, or in union mode their own successes. |
| `Preflight.KeptExactly` | benches/js/bench_preflight.ts:1467 | The list keeps each corpus file with a kept path as often as the corpus holds it. |
| `Preflight.KeptInOrder` | benches/js/bench_preflight.ts:1467 | In corpus order: its files are those at increasing positions, exactly the ones whose path is kept. |
| `Preflight.CoverageOnlyNeverNarrows` | benches/js/bench_preflight.ts:1442-1446 | Coverage-only tasks anywhere never change the timed tasks. |
| `Preflight.TimedTaskOnlyNarrows` | benches/js/bench_preflight.ts:1450-1466 | Adding a timed task only removes paths exactly unless it is the first and accepts something. |
| `Preflight.CellsOf` | benches/js/bench_preflight.ts:1175-1195 | One task's cells exist for exactly the sources its files have, with their counts. |
| `Preflight.CellMeans` | benches/js/bench_preflight.ts:1175-1195 | A cell's counts are the numbers of its source's files, of those taken, and of those taken at Script goal. |
| `Preflight.SourcesAddUp` | benches/js/bench_preflight.ts:1152-1199 | When every file has a source, the per-source cells add up to the task's totals. |
| `PerfLedger.EnforcePerfCoverage` | benches/js/bench_preflight.ts:611-683 | The run passes if and only if every graded failure is claimed by exactly one entry and, on a full corpus, every askable entry claims some failure; it is refused if and only if some failure is not claimed once; the unlisted failures, the shared claims and the stale entries it names are exactly those. |
| `PerfLedger.StaleOmits` | benches/js/lib/perf_omit.ts:269-278 | An entry is stale exactly when it is unused and a graded task is one it speaks of. |
| `PerfLedger.ClaimsMeans` | benches/js/lib/perf_omit.ts:211-234 | An entry claims a failure exactly when the path holds its fragment and the task's key its other, if it names one. |
| `PerfLedger.EveryMatchIsCredited` | benches/js/lib/perf_omit.ts:211-234 | Overlapping entries are all credited, so none of them is on any stale list, where a first-match reading would credit only one. |
| `ReadmeLines.FenceFirst` | scripts/typecheck_packages.ts:568-580 | No fence line reads as a marker, so the order of the two tests does not matter. |
| `ReadmeLines.FenceSpelling` | scripts/typecheck_packages.ts:568-580 | How a fence line is read from its text: word, language, and bare exactly when only whitespace follows the backticks. |
| `ReadmeLines.FenceForm` | scripts/typecheck_packages.ts:568-570 | Every line starting with three backticks is spelled so. |
| `ReadmeLines.MarkerSpelling` | scripts/typecheck_packages.ts:568 | A `typecheck:` comment alone on its line, with any whitespace between and around, is a marker of its value. |
| `ReadmeLines.MarkerForm` | scripts/typecheck_packages.ts:568 | Every line read as a marker is spelled so. |
| `ReadmeFences.MarkerReading` | scripts/typecheck_packages.ts:595-606 | A marker flags the fence below it exactly when it says `node`; one saying anything else throws. |
| `ReadmeFences.GradedExactly` | scripts/typecheck_packages.ts:591-623 | A successful scan returns a block for a line in a language exactly when it comes to that line as an opening fence the table answers so. |
| `ReadmeFences.OnlyLanguagesIff` | scripts/typecheck_packages.ts:571-580 | A successful scan grades TypeScript and JavaScript alone exactly when no fence it opens a block on spells an inherited property. |
| `ReadmeFences.InheritedWordExample` | scripts/typecheck_packages.ts:571-580 | A three-line file the scanner reads as a graded block of no language. |
| `ReadmeFences.ReadmeBlocks` | scripts/typecheck_packages.ts:591-623 | The loop with its jump to the closing fence returns or throws what the recursive scan does. |
| `ReadmeFences.RoundTrip` | scripts/typecheck_packages.ts:582-623 | Rendering a fitting document and scanning it gives exactly its graded blocks, in order, with opening line, code and flag; the look-back agrees with what was passed. |
| `ReadmeFences.TextRoundTrip` | scripts/typecheck_packages.ts:591-592 | The same from the file's text. |
| `ReadmeFences.SucceedsExactly` | scripts/typecheck_packages.ts:582-590 | The scan succeeds exactly on renderings of fitting documents. |
| `ReadmeFences.ThrowsExactly` | scripts/typecheck_packages.ts:587-611 | It throws exactly when a fitting prefix leads to an unknown marker, a dangling one or an unclosed fence, naming that line. |
| `WorkerPool.Pool.Resume` | scripts/engine_parity.ts:347-369 | One wake-up grades its file and keeps every taken file graded or awaited, once. |
| `WorkerPool.Pool.Grade` | scripts/engine_parity.ts:344-373 | For every wake-up order each file is graded once, the tally is the number of differing files, and the report names the first ten of them graded, in that order, and the exact rest. |

## Left out

- `GreedyCover.Cover`: scores are exact fractions; the rounding of the script's floating-point division, which could split or merge near-ties, is not modelled.
- `PerfVerdict.AbRow`: samples are reals, so the non-finite cases of the source's checks do not arise; the printed medians' spread percentages are left out.
- `FieldSlots.SlotsExact`: a slot is its rendered string, so two triples spelling one string are one slot, as in the source; the opaque names are a parameter.
- `Glue.GlueModule.Mint`: the glue wasm-bindgen generates is not part of this repository; its constructor, `__destroy_into_raw` (null the pointer, unregister) and `initSync` are modelled from the shapes the patch asserts.
- `Release.Script.Wetrun`: `Cargo.toml`'s version is taken to be a release version with movable pins, `CHANGELOG.md` to exist; file writes are atomic; `--no-git`, `--no-check` and dry runs are not modelled; the gates, builds and the checkout fingerprint are one step that passes or ends the run.
- `ReleaseRecovery.CrashRecovery`: nobody else edits the checkout, publishes or pushes meanwhile, and registry and git reads are accurate.
- `ChangelogText.NotesReadBack`: lines end at newlines only; a carriage return or a Unicode line separator ahead of `## ` would start a line for the source's multiline patterns.
- `NapiPublish.Publisher.Publish`: an unreadable manifest, which ends the source's run, is a directory that fails its checks.
- `PerfRounds.PerfRun.MeasureAll`: the drivers' three runs per language are one reading; load reports and noise warnings are left out.
- `PerfLedger.EnforcePerfCoverage`: overlap shapes are a set; how many files share a shape is not counted.
- `Preflight.RunTask`: digests of undigestible outputs and elapsed times are not recorded; the async and sync calls of a tool are one.
- `ReadmeFences.TextRoundTrip`: labels in error messages are left out.
- Not modelled, adding only single-branch facts: `check_variant_parity`, `trees_to_evict`, `layout_reading`, `build_inputs_of`, the exclusion-cache checks, report rendering, the facade wiring of the entries, `publish_crates.ts`.
- The formatter, the parsers, the strip and the import engines in Rust.
