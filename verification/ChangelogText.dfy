/** The changelog grammar over the lines of CHANGELOG.md: what a release stamps, and what its
    readers find afterwards. */
module ChangelogText {
  import opened Wrappers
  import opened JsStrings

  /** How far a release moves the version. */
  datatype Level = Patch | Minor | Major

  datatype StampOutcome = AlreadyStamped | Stamped | StampedWithoutMarker | NoUnreleased

  type Lines = seq<string>

  const UNRELEASED := "Unreleased"

  function Heading(name: string): string {
    "## " + name
  }

  predicate IsHeading(line: string) {
    "## " <= line
  }

  function MarkerLine(level: Level): string {
    match level
    case Patch => "<!-- bump: patch -->"
    case Minor => "<!-- bump: minor -->"
    case Major => "<!-- bump: major -->"
  }

  function LevelOf(line: string): Option<Level> {
    if line == MarkerLine(Patch) then Some(Patch)
    else if line == MarkerLine(Minor) then Some(Minor)
    else if line == MarkerLine(Major) then Some(Major)
    else None
  }

  // ----- the readers -----

  /** The lines after the first one that reads `## <name>`. */
  function After(lines: Lines, name: string): Option<Lines> {
    if lines == [] then None else if lines[0] == Heading(name) then Some(lines[1..]) else After(lines[1..], name)
  }

  /** The lines before the next heading. */
  function Body(lines: Lines): Lines {
    if lines == [] || IsHeading(lines[0]) then [] else [lines[0]] + Body(lines[1..])
  }

  /** `changelog_section` */
  function Section(lines: Lines, name: string): Option<Lines> {
    match After(lines, name)
    case None => None
    case Some(rest) => Some(Body(rest))
  }

  predicate StartsMarked(lines: Lines) {
    lines != [] && LevelOf(lines[0]).Some?
  }

  /** `changelog_declared_bump`: the marker directly under the first `## Unreleased`. */
  function DeclaredIn(lines: Lines): Option<Level> {
    match Section(lines, UNRELEASED)
    case None => None
    case Some(section) => if section == [] then None else LevelOf(section[0])
  }

  /** The text of some lines, without the whitespace around it. */
  function Trimmed(lines: Lines): string {
    TrimEnd(TrimStart(Join(lines)))
  }

  /** `changelog_unreleased_content` */
  function UnreleasedContent(lines: Lines): Option<string> {
    match Section(lines, UNRELEASED)
    case None => None
    case Some(section) => Some(Trimmed(if StartsMarked(section) then section[1..] else section))
  }

  /** `changelog_release_notes` */
  function ReleaseNotes(lines: Lines, version: string): Option<string> {
    match Section(lines, version)
    case None => None
    case Some(section) => Some(Trimmed(section))
  }

  /** A section is what stands between the first line that is its heading and the next line that
      is any, or the end. */
  ghost predicate SectionParts(lines: Lines, name: string, before: Lines, body: Lines, after: Lines) {
    && lines == before + [Heading(name)] + body + after
    && Heading(name) !in before
    && (forall l <- body :: !IsHeading(l))
    && (after == [] || IsHeading(after[0]))
  }

  lemma {:induction false} BodyForm(lines: Lines) returns (after: Lines)
    ensures lines == Body(lines) + after && (forall l <- Body(lines) :: !IsHeading(l))
    ensures after == [] || IsHeading(after[0])
  {
    if lines == [] || IsHeading(lines[0]) {
      after := lines;
    } else {
      after := BodyForm(lines[1..]);
    }
  }

  lemma {:induction false} BodyFound(body: Lines, after: Lines)
    requires (forall l <- body :: !IsHeading(l)) && (after == [] || IsHeading(after[0]))
    ensures Body(body + after) == body
  {
    if body == [] {
      assert body + after == after;
    } else {
      assert body[0] in body && forall l <- body[1..] :: l in body;
      assert (body + after)[1..] == body[1..] + after;
      BodyFound(body[1..], after);
    }
  }

  lemma {:induction false} AfterForm(lines: Lines, name: string) returns (before: Lines)
    requires After(lines, name).Some?
    ensures lines == before + [Heading(name)] + After(lines, name).value && Heading(name) !in before
  {
    if lines[0] == Heading(name) {
      before := [];
    } else {
      before := AfterForm(lines[1..], name);
      before := [lines[0]] + before;
    }
  }

  lemma {:induction false} AfterFound(before: Lines, name: string, rest: Lines)
    requires Heading(name) !in before
    ensures After(before + [Heading(name)] + rest, name) == Some(rest)
  {
    var lines := before + [Heading(name)] + rest;
    if before == [] {
      assert lines[1..] == rest;
    } else {
      assert before[0] in before && forall l <- before[1..] :: l in before;
      assert lines[1..] == before[1..] + [Heading(name)] + rest;
      AfterFound(before[1..], name, rest);
    }
  }

  /** `changelog_section` finds exactly that. */
  lemma SectionExactly(lines: Lines, name: string, body: Lines)
    ensures Section(lines, name) == Some(body) <==> exists before, after :: SectionParts(lines, name, before, body, after)
  {
    hide Heading, IsHeading;
    if Section(lines, name) == Some(body) {
      var before := AfterForm(lines, name);
      var after := BodyForm(After(lines, name).value);
      assert lines == before + [Heading(name)] + (body + after);
      assert SectionParts(lines, name, before, body, after);
    }
    if before, after :| SectionParts(lines, name, before, body, after) {
      assert lines == before + [Heading(name)] + (body + after);
      AfterFound(before, name, body + after);
      BodyFound(body, after);
    }
  }

  /** A line declares a level exactly when it is that level's marker. */
  lemma MarkersAreSpelled(line: string, level: Level)
    ensures LevelOf(line) == Some(level) <==>
            line == "<!-- bump: " + (if level.Patch? then "patch" else if level.Minor? then "minor" else "major") + " -->"
  {
    MarkersDiffer();
  }

  lemma MarkersDiffer()
    ensures MarkerLine(Patch) != MarkerLine(Minor) && MarkerLine(Minor) != MarkerLine(Major) && MarkerLine(Patch) != MarkerLine(Major)
  {
    assert MarkerLine(Patch)[11] == 'p' && MarkerLine(Minor)[12] == 'i' && MarkerLine(Major)[12] == 'a' && MarkerLine(Patch)[12] == 'a';
    assert MarkerLine(Minor)[11] == 'm' && MarkerLine(Major)[11] == 'm';
  }

  /** Trimming takes the whitespace off both ends of the joined lines, and nothing else. */
  lemma TrimmedMeans(lines: Lines) returns (before: string, after: string)
    ensures Join(lines) == before + Trimmed(lines) + after
    ensures AllSpace(before) && AllSpace(after) && Tight(Trimmed(lines))
  {
    hide TrimStart, TrimEnd, IsSpace, Join;
    var started := TrimStart(Join(lines));
    before := TrimStartLeaves(Join(lines));
    after := TrimEndLeaves(started);
    assert Trimmed(lines) != "" ==> Trimmed(lines)[0] == started[0];
    assert before + (Trimmed(lines) + after) == before + Trimmed(lines) + after;
  }

  // ----- the stamp -----

  /** What a stamp puts in place of the heading, and of its marker if it has one. */
  function Seeded(version: string, rest: Lines): Lines {
    [Heading(UNRELEASED), MarkerLine(Patch), "", Heading(version)] + rest
  }

  /** The first `## Unreleased` with a marker on its next line, replaced. A marker that ends the
      file leaves the new section an empty last line. */
  function StampMarked(lines: Lines, version: string): Option<Lines> {
    if lines == [] then None
    else if lines[0] == Heading(UNRELEASED) && StartsMarked(lines[1..]) then
      Some(Seeded(version, if lines[2..] == [] then [""] else lines[2..]))
    else
      match StampMarked(lines[1..], version)
      case None => None
      case Some(stamped) => Some([lines[0]] + stamped)
  }

  /** The first `## Unreleased`, replaced. */
  function StampFirst(lines: Lines, version: string): Option<Lines> {
    if lines == [] then None
    else if lines[0] == Heading(UNRELEASED) then Some(Seeded(version, lines[1..]))
    else
      match StampFirst(lines[1..], version)
      case None => None
      case Some(stamped) => Some([lines[0]] + stamped)
  }

  /** `changelog_stamp` */
  function Stamp(lines: Lines, version: string): (StampOutcome, Lines) {
    if After(lines, version).Some? then (AlreadyStamped, lines)
    else
      match StampMarked(lines, version)
      case Some(stamped) => (Stamped, stamped)
      case None =>
        match StampFirst(lines, version)
        case Some(stamped) => (StampedWithoutMarker, stamped)
        case None => (NoUnreleased, lines)
  }

  // ----- single lines -----

  lemma HeadingsDiffer(a: string, b: string)
    requires a != b
    ensures Heading(a) != Heading(b)
  {
    assert Heading(a)[3..] == a && Heading(b)[3..] == b;
  }

  lemma MarkerIsNoHeading(line: string)
    requires LevelOf(line).Some?
    ensures !IsHeading(line)
  {
    assert line[0] == '<' && "## "[0] == '#';
  }

  lemma SeedLines(name: string)
    ensures !IsHeading(MarkerLine(Patch)) && !IsHeading("") && IsHeading(Heading(name))
    ensures Heading(name) != MarkerLine(Patch) && Heading(name) != ""
  {
    MarkerIsNoHeading(MarkerLine(Patch));
    assert Heading(name)[..3] == "## ";
  }

  // ----- reading a seed -----

  lemma SeedTails(version: string, rest: Lines)
    ensures var s := Seeded(version, rest);
            && s[0] == Heading(UNRELEASED) && s[1] == MarkerLine(Patch) && s[2] == "" && s[3] == Heading(version)
            && s[1..][0] == s[1] && s[1..][1..][0] == s[2] && s[1..][1..][1..][0] == s[3]
            && s[1..][1..][1..][1..] == rest
  {
  }

  /** Under the version's heading stand the lines the stamp moved there, above it an empty section
      marked for a patch. */
  lemma SeedReads(version: string, rest: Lines)
    requires version != UNRELEASED
    ensures After(Seeded(version, rest), version) == Some(rest)
    ensures Section(Seeded(version, rest), UNRELEASED) == Some([MarkerLine(Patch), ""])
  {
    var s := Seeded(version, rest);
    SeedTails(version, rest);
    HeadingsDiffer(version, UNRELEASED);
    SeedLines(version);
    var t1 := s[1..];
    var t2 := t1[1..];
    var t3 := t2[1..];
    assert After(t3, version) == Some(rest);
    assert After(t2, version) == After(t3, version);
    assert After(t1, version) == After(t2, version);
    assert Body(t3) == [];
    assert Body(t2) == [""];
    assert Body(t1) == [MarkerLine(Patch), ""];
  }

  lemma SeedSkipped(version: string, rest: Lines, name: string)
    requires name != version && name != UNRELEASED
    ensures After(Seeded(version, rest), name) == After(rest, name)
  {
    var s := Seeded(version, rest);
    SeedTails(version, rest);
    HeadingsDiffer(name, version);
    HeadingsDiffer(name, UNRELEASED);
    SeedLines(name);
    var t1 := s[1..];
    var t2 := t1[1..];
    var t3 := t2[1..];
    assert After(t3, name) == After(rest, name);
    assert After(t2, name) == After(t3, name);
    assert After(t1, name) == After(t2, name);
  }

  lemma EmptyLineReads(name: string)
    ensures After([""], name) == None && Body([""]) == [""] && Body([]) == []
    ensures Trimmed([""]) == Trimmed([])
  {
    SeedLines(name);
    assert [""][1..] == [];
  }

  /** A seed reads as an empty section marked for a patch. */
  lemma SeedIsFresh(lines: Lines)
    requires Section(lines, UNRELEASED) == Some([MarkerLine(Patch), ""])
    ensures DeclaredIn(lines) == Some(Patch) && UnreleasedContent(lines) == Some("")
  {
    assert [MarkerLine(Patch), ""][1..] == [""];
    assert Trimmed([""]) == "";
  }

  // ----- what a release reads back -----

  /** With a declared marker, the stamped section is the one that was read. */
  lemma {:induction false} MarkedReads(lines: Lines, version: string)
    requires DeclaredIn(lines).Some? && After(lines, version).None? && version != UNRELEASED
    ensures StampMarked(lines, version).Some?
    ensures var stamped := StampMarked(lines, version).value;
            && ReleaseNotes(stamped, version) == UnreleasedContent(lines)
            && After(stamped, version).Some?
            && Section(stamped, UNRELEASED) == Some([MarkerLine(Patch), ""])
  {
    if lines[0] == Heading(UNRELEASED) {
      var tail := lines[1..];
      assert Body(tail)[0] == tail[0] && Body(tail)[1..] == Body(tail[1..]);
      assert tail[1..] == lines[2..];
      var rest := if lines[2..] == [] then [""] else lines[2..];
      SeedReads(version, rest);
      EmptyLineReads(version);
    } else {
      MarkedReads(lines[1..], version);
      var inner := StampMarked(lines[1..], version).value;
      var stamped := [lines[0]] + inner;
      assert stamped[1..] == inner;
    }
  }

  /** The section a stamp writes is the section a release reads: the notes are what stood under
      `## Unreleased`, and what stands there now is an empty section marked for a patch. Holds for
      every changelog whose marker is declared, which is every one a release accepts. */
  lemma NotesReadBack(lines: Lines, version: string)
    requires DeclaredIn(lines).Some? && After(lines, version).None? && version != UNRELEASED
    ensures var (outcome, stamped) := Stamp(lines, version);
            && outcome == Stamped
            && ReleaseNotes(stamped, version) == UnreleasedContent(lines)
            && UnreleasedContent(stamped) == Some("") && DeclaredIn(stamped) == Some(Patch)
            && Stamp(stamped, version) == (AlreadyStamped, stamped)
  {
    MarkedReads(lines, version);
    SeedIsFresh(StampMarked(lines, version).value);
  }

  // ----- the rest of the file -----

  lemma {:induction false} MarkedKeepsBody(lines: Lines, version: string)
    requires StampMarked(lines, version).Some?
    ensures Body(StampMarked(lines, version).value) == Body(lines)
  {
    SeedLines(UNRELEASED);
    if !(lines[0] == Heading(UNRELEASED) && StartsMarked(lines[1..])) {
      MarkedKeepsBody(lines[1..], version);
      var inner := StampMarked(lines[1..], version).value;
      assert ([lines[0]] + inner)[1..] == inner;
    }
  }

  lemma {:induction false} MarkedKeepsSection(lines: Lines, version: string, name: string)
    requires StampMarked(lines, version).Some? && name != version && name != UNRELEASED
    ensures Section(StampMarked(lines, version).value, name) == Section(lines, name)
  {
    HeadingsDiffer(name, UNRELEASED);
    if lines[0] == Heading(UNRELEASED) && StartsMarked(lines[1..]) {
      var rest := if lines[2..] == [] then [""] else lines[2..];
      SeedSkipped(version, rest, name);
      EmptyLineReads(name);
      MarkerIsNoHeading(lines[1]);
      SeedLines(name);
      assert lines[1..][0] == lines[1] && lines[1..][1..] == lines[2..];
      assert After(lines[1..], name) == After(lines[2..], name);
    } else {
      var inner := StampMarked(lines[1..], version).value;
      assert ([lines[0]] + inner)[1..] == inner;
      MarkedKeepsBody(lines[1..], version);
      MarkedKeepsSection(lines[1..], version, name);
    }
  }

  lemma {:induction false} FirstKeepsBody(lines: Lines, version: string)
    requires StampFirst(lines, version).Some?
    ensures Body(StampFirst(lines, version).value) == Body(lines)
  {
    SeedLines(UNRELEASED);
    if lines[0] != Heading(UNRELEASED) {
      FirstKeepsBody(lines[1..], version);
      var inner := StampFirst(lines[1..], version).value;
      assert ([lines[0]] + inner)[1..] == inner;
    }
  }

  lemma {:induction false} FirstKeepsSection(lines: Lines, version: string, name: string)
    requires StampFirst(lines, version).Some? && name != version && name != UNRELEASED
    ensures Section(StampFirst(lines, version).value, name) == Section(lines, name)
  {
    HeadingsDiffer(name, UNRELEASED);
    if lines[0] == Heading(UNRELEASED) {
      SeedSkipped(version, lines[1..], name);
    } else {
      var inner := StampFirst(lines[1..], version).value;
      assert ([lines[0]] + inner)[1..] == inner;
      FirstKeepsBody(lines[1..], version);
      FirstKeepsSection(lines[1..], version, name);
    }
  }

  /** Stamping one version leaves every other version's notes alone. */
  lemma OtherNotesStay(lines: Lines, version: string, name: string)
    requires name != version && name != UNRELEASED
    ensures ReleaseNotes(Stamp(lines, version).1, name) == ReleaseNotes(lines, name)
  {
    if After(lines, version).None? {
      if StampMarked(lines, version).Some? {
        MarkedKeepsSection(lines, version, name);
      } else if StampFirst(lines, version).Some? {
        FirstKeepsSection(lines, version, name);
      }
    }
  }

  /** A stamp finds nothing to do exactly when neither section is there. */
  lemma {:induction false} FirstExists(lines: Lines, version: string)
    ensures StampFirst(lines, version).Some? <==> Section(lines, UNRELEASED).Some?
    ensures StampMarked(lines, version).Some? ==> StampFirst(lines, version).Some?
  {
    if lines != [] {
      FirstExists(lines[1..], version);
    }
  }

  lemma StampFails(lines: Lines, version: string)
    ensures Stamp(lines, version).0 == NoUnreleased <==>
            Section(lines, version).None? && Section(lines, UNRELEASED).None?
  {
    FirstExists(lines, version);
  }

  // ----- when the marker stands elsewhere -----

  lemma DeclaredAtHead(lines: Lines)
    requires lines != [] && lines[0] == Heading(UNRELEASED) && StartsMarked(lines[1..])
    ensures DeclaredIn(lines).Some?
  {
    MarkerIsNoHeading(lines[1]);
    assert Body(lines[1..])[0] == lines[1..][0];
  }

  lemma {:induction false} UnmarkedFirstStays(lines: Lines, version: string)
    requires StampMarked(lines, version).Some? && DeclaredIn(lines).None?
    ensures Section(StampMarked(lines, version).value, UNRELEASED) == Section(lines, UNRELEASED)
  {
    var tail := lines[1..];
    if lines[0] == Heading(UNRELEASED) && StartsMarked(tail) {
      DeclaredAtHead(lines);
    }
    var inner := StampMarked(tail, version).value;
    assert ([lines[0]] + inner)[1..] == inner;
    MarkedKeepsBody(tail, version);
    if lines[0] != Heading(UNRELEASED) {
      UnmarkedFirstStays(tail, version);
    }
  }

  lemma {:induction false} FirstIsRead(lines: Lines, version: string)
    requires StampFirst(lines, version).Some? && version != UNRELEASED
    ensures Section(StampFirst(lines, version).value, UNRELEASED) == Some([MarkerLine(Patch), ""])
  {
    if lines[0] == Heading(UNRELEASED) {
      SeedReads(version, lines[1..]);
    } else {
      FirstIsRead(lines[1..], version);
      var inner := StampFirst(lines[1..], version).value;
      assert ([lines[0]] + inner)[1..] == inner;
    }
  }

  /** A stamp leaves a declared marker behind, as a fresh cycle needs, exactly when one was declared
      or no `## Unreleased` was marked at all. Otherwise a later, marked section was stamped in
      place of the first, and the first, which every reader reads, stands as it did. */
  lemma LaterMarkedSectionIsStamped(lines: Lines, version: string)
    requires After(lines, version).None? && version != UNRELEASED
    requires Stamp(lines, version).0 != NoUnreleased
    ensures var stamped := Stamp(lines, version).1;
            && (DeclaredIn(stamped).Some? <==> DeclaredIn(lines).Some? || StampMarked(lines, version).None?)
            && (DeclaredIn(stamped).None? ==> UnreleasedContent(stamped) == UnreleasedContent(lines))
  {
    if DeclaredIn(lines).Some? {
      NotesReadBack(lines, version);
    } else if StampMarked(lines, version).Some? {
      UnmarkedFirstStays(lines, version);
    } else {
      FirstIsRead(lines, version);
      SeedIsFresh(StampFirst(lines, version).value);
    }
  }

  const LATER_MARKED: Lines :=
    [Heading(UNRELEASED), "- new", Heading(UNRELEASED), MarkerLine(Patch), "- old"]

  /** Such a changelog, stamped: what stands under the first heading is left for another release,
      without a marker, and what stood under the second becomes the version's notes. */
  lemma LaterMarkedExample(version: string)
    requires version != UNRELEASED
    ensures var (outcome, stamped) := Stamp(LATER_MARKED, version);
            && outcome == Stamped
            && DeclaredIn(stamped) == None
            && Section(stamped, UNRELEASED) == Section(LATER_MARKED, UNRELEASED) == Some(["- new"])
            && Section(stamped, version) == Some(["- old"])
  {
    SeedLines(version);
    SeedLines(UNRELEASED);
    HeadingsDiffer(version, UNRELEASED);
    MarkerIsNoHeading(MarkerLine(Patch));
    OrdinaryLines(version);
    var marked, seeded := [Heading(UNRELEASED), MarkerLine(Patch), "- old"], Seeded(version, ["- old"]);
    var stamped := [Heading(UNRELEASED), "- new"] + seeded;
    assert LATER_MARKED[1..] == ["- new"] + marked && (["- new"] + marked)[1..] == marked;
    assert stamped[1..] == ["- new"] + seeded && (["- new"] + seeded)[1..] == seeded;
    assert marked[1..] == [MarkerLine(Patch), "- old"] && marked[2..] == marked[1..][1..] == ["- old"];
    assert After(marked, version) == None by {
      assert After(["- old"], version) == None;
      assert After(marked[1..], version) == None;
    }
    assert After(["- new"] + marked, version) == None;
    assert StampMarked(marked, version) == Some(seeded);
    assert StampMarked(["- new"] + marked, version) == Some(["- new"] + seeded);
    assert StampMarked(LATER_MARKED, version) == Some([Heading(UNRELEASED)] + (["- new"] + seeded));
    assert [Heading(UNRELEASED)] + (["- new"] + seeded) == stamped;
    SeedReads(version, ["- old"]);
    assert Body(["- new"] + marked) == Body(["- new"] + seeded) == ["- new"];
    assert After(["- new"] + seeded, version) == Some(["- old"]);
    assert ["- old"][1..] == [] && Body(["- old"]) == ["- old"];
  }

  lemma OrdinaryLines(name: string)
    ensures !IsHeading("- new") && !IsHeading("- old")
    ensures Heading(name) != "- new" && Heading(name) != "- old"
    ensures LevelOf("- new") == LevelOf("- old") == None
  {
    assert "- new"[0] == "- old"[0] == '-' && Heading(name)[0] == '#';
    assert MarkerLine(Patch)[0] == MarkerLine(Minor)[0] == MarkerLine(Major)[0] == '<';
  }
}
