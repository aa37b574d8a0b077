/** Concrete releases: one that dies in the window, and one whose section was written before. */
module ReleaseExamples {
  import opened Wrappers
  import opened JsStrings
  import opened ChangelogText
  import opened Release
  import opened ReleaseRecovery

  const UNMOVED := Version(0, 0, 0)
  const TARGET := Version(0, 0, 1)

  const NEW_NOTES: Lines := [Heading(UNRELEASED), MarkerLine(Patch), "- new"]
  const OLD_SECTION: Lines := [Heading("0.0.1"), "- old"]

  /** A clean checkout, in sync, with nothing tagged or published. */
  function Checkout(log: Lines): World {
    var files := Files(UNMOVED, UNMOVED, log);
    World(files, false, None, true, [Commit(Subject(""), files)], [Commit(Subject(""), files)], map[], map[], {}, [])
  }

  lemma CheckoutStarts(log: Lines)
    requires DeclaredIn(log) == Some(Patch) && UnreleasedContent(log).Some? && UnreleasedContent(log) != Some("")
    ensures Starts(Checkout(log), Some(Patch), TARGET)
  {
    var w := Checkout(log);
    SharedWithPrefix(w.main, w.originMain);
    assert Problems(log, Some(Patch)) == [];
  }

  lemma NewNotes(rest: Lines)
    requires rest == [] || rest == OLD_SECTION
    ensures DeclaredIn(NEW_NOTES + rest) == Some(Patch) && UnreleasedContent(NEW_NOTES + rest) == Some("- new")
  {
    var log := NEW_NOTES + rest;
    OrdinaryLines(UNRELEASED);
    MarkerIsNoHeading(MarkerLine(Patch));
    SeedLines("0.0.1");
    assert Body(rest) == [];
    assert log[1..] == [MarkerLine(Patch)] + (["- new"] + rest);
    assert (["- new"] + rest)[1..] == rest;
    assert log[1..][1..] == ["- new"] + rest;
    assert Body(["- new"] + rest) == ["- new"];
    assert Body(log[1..]) == [MarkerLine(Patch), "- new"];
    assert Section(log, UNRELEASED) == Some([MarkerLine(Patch), "- new"]);
    assert [MarkerLine(Patch), "- new"][1..] == ["- new"];
    TrimmedAlready("- new");
  }

  const DIES_IN_WINDOW := Attempt(Some(Patch), true, (st: Stage) => if st.WriteSentinel? then Stop(false, false) else Done)
  const CLEAN := Attempt(Some(Patch), true, (st: Stage) => Done)

  /** A run whose sentinel write fails leaves a checkout nothing finishes. */
  lemma WindowExample(bump: Option<Level>)
    ensures Starts(Checkout(NEW_NOTES), Some(Patch), TARGET)
    ensures var w := Attempted(Checkout(NEW_NOTES), DIES_IN_WINDOW);
            Stranded(Checkout(NEW_NOTES), TARGET, w) && !Accepts(w, bump)
  {
    hide Starts, Accepts, WetrunOf;
    var w0 := Checkout(NEW_NOTES);
    assert NEW_NOTES + [] == NEW_NOTES;
    NewNotes([]);
    CheckoutStarts(NEW_NOTES);
    StrandedExactly(w0, Some(Patch), TARGET, w0, DIES_IN_WINDOW);
    StrandedIsRefused(w0, Some(Patch), TARGET, Attempted(w0, DIES_IN_WINDOW), bump);
  }

  /** With a section for its version already there, a clean run releases that section's notes, and
      the same wetrun is accepted again at once, for the next version. */
  lemma PriorSectionExample()
    ensures var w0 := Checkout(NEW_NOTES + OLD_SECTION);
            var w := Attempted(w0, CLEAN);
            && Starts(w0, Some(Patch), TARGET) && Released(w0, TARGET, w)
            && ReleaseNotes(w.files.changelog, Spelled(TARGET)) == Some("- old")
            && UnreleasedContent(w.files.changelog) == Some("- new")
            && Accepts(w, Some(Patch)) && PlanOf(w, Some(Patch)).target == Some(Version(0, 0, 2))
  {
    hide Starts, Accepts, WetrunOf, Released, Stamp, ReleaseNotes, UnreleasedContent;
    var log := NEW_NOTES + OLD_SECTION;
    var w0 := Checkout(log);
    var w := Attempted(w0, CLEAN);
    NewNotes(OLD_SECTION);
    CheckoutStarts(log);
    FirstRunLands(w0, Some(Patch), TARGET, w0, true, CLEAN.fates);
    OldNotes();
    NotesAreTheUnreleased(w0, Some(Patch), TARGET, w, UNMOVED);
    NextIsFree(w0, w);
    ReleasedRefusesIff(w0, Some(Patch), TARGET, w);
    OneLevelIsAccepted(w);
  }

  lemma OldNotes()
    ensures Section(NEW_NOTES + OLD_SECTION, Spelled(TARGET)).Some?
    ensures ReleaseNotes(NEW_NOTES + OLD_SECTION, Spelled(TARGET)) == Some("- old")
  {
    hide Spelled, Trimmed;
    var log := NEW_NOTES + OLD_SECTION;
    SpelledTarget();
    OrdinaryLines("0.0.1");
    HeadingsDiffer("0.0.1", UNRELEASED);
    SeedLines("0.0.1");
    assert log[1..] == [MarkerLine(Patch), "- new"] + OLD_SECTION && log[1..][1..] == ["- new"] + OLD_SECTION;
    assert (["- new"] + OLD_SECTION)[1..] == OLD_SECTION && OLD_SECTION[1..] == ["- old"] && ["- old"][1..] == [];
    assert ChangelogText.After(["- new"] + OLD_SECTION, "0.0.1") == Some(["- old"]);
    assert ChangelogText.After(log[1..], "0.0.1") == Some(["- old"]);
    assert log[0] == Heading(UNRELEASED) && ChangelogText.After(log, "0.0.1") == Some(["- old"]);
    assert Body(["- old"]) == ["- old"];
    assert Section(log, "0.0.1") == Some(["- old"]);
    TrimmedAlready("- old");
  }

  lemma SpelledTarget()
    ensures Spelled(TARGET) == "0.0.1"
  {
    assert Decimal(0) == "0" && Decimal(1) == "1";
  }

  lemma TrimmedAlready(line: string)
    requires line != "" && !IsSpace(line[0]) && !IsSpace(line[|line| - 1])
    ensures Trimmed([line]) == line
  {
  }

  lemma NextIsFree(w0: World, w: World)
    requires Released(w0, TARGET, w) && w0 == Checkout(NEW_NOTES + OLD_SECTION)
    requires w.files.changelog == w0.files.changelog && DeclaredIn(w0.files.changelog) == Some(Patch)
    ensures NextTarget(w) == Some(Version(0, 0, 2)) && !Taken(w, Version(0, 0, 2))
  {
  }

  lemma OneLevelIsAccepted(w: World)
    requires DeclaredIn(w.files.changelog) == Some(Patch) && exists bump :: Accepts(w, bump)
    requires w.sentinel == None && w.files.cargo == TARGET
    ensures Accepts(w, Some(Patch)) && PlanOf(w, Some(Patch)).target == Some(Version(0, 0, 2))
  {
    var bump :| Accepts(w, bump);
    assert |Problems(w.files.changelog, bump)| == 0;
  }
}
