/** The README scanner: fenced blocks, and the marker lines that may stand above them. */
module ReadmeFences {
  import opened Wrappers
  import opened JsStrings
  import opened ReadmeLines

  const NODE := "node"

  /** A graded block, with the number of the line its fence opens on. */
  datatype Block = Block(line: nat, lang: Lang, code: seq<Line>, node: bool)

  datatype Fault = UnknownMarker | DanglingMarker | UnclosedFence

  /** A thrown error and the number of the line it names. */
  datatype Thrown = Thrown(line: nat, fault: Fault)

  type Scan = Result<seq<Block>, Thrown>

  predicate IsFence(line: Line) {
    line.kind.Fence?
  }

  predicate IsBare(line: Line) {
    line.kind.Fence? && line.kind.bare
  }

  function First(lines: seq<Line>): Option<Line> {
    if lines == [] then None else Some(lines[0])
  }

  /** `graded_lang` of a line, when there is one. */
  function GradedLang(line: Option<Line>): Option<Lang> {
    if line.Some? && line.value.kind.Fence? then line.value.kind.lang else None
  }

  predicate IsMarker(line: Option<Line>) {
    line.Some? && line.value.kind.Marker?
  }

  // ----- the scan -----

  /** What closes a block: the lines before the first bare fence, the fence, and the lines after. */
  datatype Closed = Closed(body: seq<Line>, close: Line, after: seq<Line>)

  function Close(lines: seq<Line>): (c: Option<Closed>)
    ensures c.Some? ==> |lines| == |c.value.body| + 1 + |c.value.after|
    ensures c.Some? ==> IsBare(c.value.close)
  {
    if lines == [] then None
    else if IsBare(lines[0]) then Some(Closed([], lines[0], lines[1..]))
    else
      match Close(lines[1..])
      case None => None
      case Some(c) => Some(c.(body := [lines[0]] + c.body))
  }

  function Before(blocks: seq<Block>, scan: Scan): Scan {
    match scan
    case Ok(more) => Ok(blocks + more)
    case Err(e) => Err(e)
  }

  /** What a fence opening on line `at + 1` yields: a block if it is graded, flagged by a look at
      the line before it. */
  function BlockOf(before: Option<Line>, at: nat, open: Line, body: seq<Line>): seq<Block> {
    match GradedLang(Some(open))
    case None => []
    case Some(lang) => [Block(at + 1, lang, body, IsMarker(before))]
  }

  /** What the loop goes on to return from the line after the first `at`, with `lines` ahead and
      `before` just behind. */
  function ScanFrom(before: Option<Line>, at: nat, lines: seq<Line>): Scan
    decreases |lines|
  {
    if lines == [] then Ok([])
    else
      var line, rest := lines[0], lines[1..];
      match line.kind
      case Marker(value) =>
        if value != NODE then Err(Thrown(at + 1, UnknownMarker))
        else if GradedLang(First(rest)).None? then Err(Thrown(at + 1, DanglingMarker))
        else ScanFrom(Some(line), at + 1, rest)
      case Plain => ScanFrom(Some(line), at + 1, rest)
      case Fence(_, _) =>
        match Close(rest)
        case None => Err(Thrown(at + 1, UnclosedFence))
        case Some(Closed(body, close, after)) =>
          Before(BlockOf(before, at, line, body), ScanFrom(Some(close), at + |body| + 2, after))
  }

  /** The line before index `i`. */
  function Behind(lines: seq<Line>, i: nat): Option<Line>
    requires i <= |lines|
  {
    if i == 0 then None else Some(lines[i - 1])
  }

  lemma {:induction false} CloseAt(lines: seq<Line>, i: nat, close: nat)
    requires i <= close <= |lines| && forall j :: i <= j < close ==> !IsBare(lines[j])
    requires close < |lines| ==> IsBare(lines[close])
    ensures Close(lines[i..]) ==
            if close == |lines| then None else Some(Closed(lines[i..close], lines[close], lines[close + 1..]))
    decreases close - i
  {
    if i < close {
      assert lines[i..][1..] == lines[i + 1..];
      CloseAt(lines, i + 1, close);
      assert close < |lines| ==> lines[i..close] == [lines[i]] + lines[i + 1..close];
    } else if i < |lines| {
      assert lines[i..][1..] == lines[i + 1..] && lines[i..i] == [];
    }
  }

  lemma BeforeTwice(a: seq<Block>, b: seq<Block>, scan: Scan)
    ensures Before(a, Before(b, scan)) == Before(a + b, scan)
  {
    if scan.Ok? {
      assert a + (b + scan.value) == (a + b) + scan.value;
    }
  }

  lemma BeforeNothing(blocks: seq<Block>, scan: Scan)
    ensures Before([], scan) == scan
    ensures Before(blocks, Ok([])) == Ok(blocks)
  {
    assert blocks + [] == blocks;
    if scan.Ok? {
      assert [] + scan.value == scan.value;
    }
  }

  /** `lines.findIndex` from `i` on, for a bare fence. */
  method FindClose(lines: seq<Line>, i: nat) returns (close: nat)
    requires i <= |lines|
    ensures i <= close <= |lines|
    ensures Close(lines[i..]) ==
            if close == |lines| then None else Some(Closed(lines[i..close], lines[close], lines[close + 1..]))
  {
    close := i;
    while close < |lines| && !IsBare(lines[close])
      invariant i <= close <= |lines| && forall j :: i <= j < close ==> !IsBare(lines[j])
    {
      close := close + 1;
    }
    CloseAt(lines, i, close);
  }

  method ScanLines(lines: seq<Line>) returns (scan: Scan)
    ensures scan == ScanFrom(None, 0, lines)
  {
    hide Close, BlockOf;
    var blocks: seq<Block> := [];
    var i := 0;
    BeforeNothing([], ScanFrom(None, 0, lines));
    assert lines[0..] == lines;
    while i < |lines|
      invariant 0 <= i <= |lines|
      invariant Before(blocks, ScanFrom(Behind(lines, i), i, lines[i..])) == ScanFrom(None, 0, lines)
      decreases |lines| - i
    {
      var line := lines[i];
      assert lines[i..][0] == line && lines[i..][1..] == lines[i + 1..];
      if line.kind.Marker? {
        if line.kind.value != NODE {
          return Err(Thrown(i + 1, UnknownMarker));
        }
        if GradedLang(if i + 1 < |lines| then Some(lines[i + 1]) else None).None? {
          return Err(Thrown(i + 1, DanglingMarker));
        }
        i := i + 1;
        continue;
      }
      if !IsFence(line) {
        i := i + 1;
        continue;
      }
      var close := FindClose(lines, i + 1);
      if close == |lines| {
        return Err(Thrown(i + 1, UnclosedFence));
      }
      var block := BlockOf(Behind(lines, i), i, line, lines[i + 1..close]);
      BeforeTwice(blocks, block, ScanFrom(Some(lines[close]), close + 1, lines[close + 1..]));
      blocks := blocks + block;
      i := close + 1;
    }
    BeforeNothing(blocks, ScanFrom(None, 0, lines));
    return Ok(blocks);
  }

  // ----- documents -----

  datatype Item = Prose(line: Line) | Fenced(open: Line, body: seq<Line>, close: Line) | NodeMarker(line: Line)

  function LinesOf(item: Item): seq<Line> {
    match item
    case Prose(line) => [line]
    case Fenced(open, body, close) => [open] + body + [close]
    case NodeMarker(line) => [line]
  }

  function LastLine(item: Item): Line {
    if item.Fenced? then item.close else item.line
  }

  function Render(items: seq<Item>): seq<Line> {
    if items == [] then [] else LinesOf(items[0]) + Render(items[1..])
  }

  /** The line after a marker: the next item's first, or whatever follows the items. */
  function FirstLine(items: seq<Item>, next: Option<Line>): Option<Line> {
    if items == [] then next else Some(LinesOf(items[0])[0])
  }

  /** Prose holds no fence and no marker, a block's body no bare fence, and every marker is a
      `node` one directly above a graded fence. `next` is the line after the item, if any. */
  ghost predicate FitsItem(item: Item, next: Option<Line>) {
    match item
    case Prose(line) => line.kind.Plain?
    case Fenced(open, body, close) =>
      IsFence(open) && IsBare(close) && forall j :: 0 <= j < |body| ==> !IsBare(body[j])
    case NodeMarker(line) => line.kind == Marker(NODE) && GradedLang(next).Some?
  }

  ghost predicate Fits(items: seq<Item>, next: Option<Line>) {
    items == [] || (FitsItem(items[0], FirstLine(items[1..], next)) && Fits(items[1..], next))
  }

  /** The graded blocks of a document whose first line is number `at + 1`, each flagged when a
      marker item stands right before it. */
  function BlocksOf(items: seq<Item>, at: nat, marked: bool): seq<Block> {
    if items == [] then []
    else
      var rest := BlocksOf(items[1..], at + |LinesOf(items[0])|, items[0].NodeMarker?);
      if items[0].Fenced? && GradedLang(Some(items[0].open)).Some?
      then [Block(at + 1, GradedLang(Some(items[0].open)).value, items[0].body, marked)] + rest
      else rest
  }

  lemma {:induction false} CloseFound(body: seq<Line>, close: Line, tail: seq<Line>)
    requires IsBare(close) && forall j :: 0 <= j < |body| ==> !IsBare(body[j])
    ensures Close(body + [close] + tail) == Some(Closed(body, close, tail))
  {
    var lines := body + [close] + tail;
    if body == [] {
      assert lines[0] == close && lines[1..] == tail;
    } else {
      CloseFound(body[1..], close, tail);
      assert lines[0] == body[0] && lines[1..] == body[1..] + [close] + tail;
      assert body == [body[0]] + body[1..];
    }
  }

  /** The scan at a fitting fence goes on after its close. */
  lemma FenceStep(item: Item, before: Option<Line>, at: nat, tail: seq<Line>)
    requires item.Fenced? && FitsItem(item, None)
    ensures ScanFrom(before, at, LinesOf(item) + tail) ==
            Before(BlockOf(before, at, item.open, item.body), ScanFrom(Some(item.close), at + |LinesOf(item)|, tail))
  {
    var lines := LinesOf(item) + tail;
    assert lines[0] == item.open && lines[1..] == item.body + [item.close] + tail;
    CloseFound(item.body, item.close, tail);
  }

  lemma LineStep(item: Item, before: Option<Line>, at: nat, tail: seq<Line>)
    requires !item.Fenced? && FitsItem(item, First(tail))
    ensures ScanFrom(before, at, LinesOf(item) + tail) == ScanFrom(Some(item.line), at + 1, tail)
  {
    var lines := LinesOf(item) + tail;
    assert lines[0] == item.line && lines[1..] == tail;
  }

  lemma FirstOfRendered(items: seq<Item>, tail: seq<Line>)
    ensures First(Render(items) + tail) == FirstLine(items, First(tail))
  {
    if items != [] {
      assert (LinesOf(items[0]) + Render(items[1..]) + tail)[0] == LinesOf(items[0])[0];
    } else {
      assert Render(items) + tail == tail;
    }
  }

  lemma Regroup(a: seq<Line>, b: seq<Line>, c: seq<Line>)
    ensures a + b + c == a + (b + c)
  {
  }

  lemma RenderSplits(items: seq<Item>, tail: seq<Line>)
    requires items != []
    ensures Render(items) + tail == LinesOf(items[0]) + (Render(items[1..]) + tail)
    ensures |Render(items)| == |LinesOf(items[0])| + |Render(items[1..])|
  {
    hide LinesOf;
    Regroup(LinesOf(items[0]), Render(items[1..]), tail);
  }

  lemma FenceLines(open: Line, body: seq<Line>, close: Line, after: seq<Line>)
    ensures LinesOf(Fenced(open, body, close)) + after == [open] + (body + [close] + after)
  {
    Regroup([open], body, [close]);
    Regroup([open], body + [close], after);
  }

  /** The line a document ends on, or the one before it. */
  function EndLine(items: seq<Item>, before: Option<Line>): Option<Line> {
    if items == [] then before else EndLine(items[1..], Some(LastLine(items[0])))
  }

  /** Scanning steps over fitting items one by one, and its look-back agrees with what it passed:
      a fence is flagged exactly when the item before it was a marker. */
  lemma {:induction false} ScanStepsOver(items: seq<Item>, before: Option<Line>, at: nat, tail: seq<Line>)
    requires Fits(items, First(tail))
    ensures ScanFrom(before, at, Render(items) + tail) ==
            Before(BlocksOf(items, at, IsMarker(before)), ScanFrom(EndLine(items, before), at + |Render(items)|, tail))
    decreases |items|
  {
    hide ScanFrom, LinesOf, BlocksOf;
    var end := ScanFrom(EndLine(items, before), at + |Render(items)|, tail);
    if items == [] {
      assert Render(items) + tail == tail;
      BeforeNothing([], end);
      NoBlocks(at, IsMarker(before));
    } else {
      var item, rest := items[0], items[1..];
      RenderSplits(items, tail);
      ScanStepsOver(rest, Some(LastLine(item)), at + |LinesOf(item)|, tail);
      if item.Fenced? {
        ScanFence(items, before, at, tail, end);
      } else {
        ScanLine(items, before, at, tail, end);
      }
    }
  }

  lemma NoBlocks(at: nat, marked: bool)
    ensures BlocksOf([], at, marked) == []
  {
  }

  lemma ScanFence(items: seq<Item>, before: Option<Line>, at: nat, tail: seq<Line>, end: Scan)
    requires items != [] && items[0].Fenced? && Fits(items, First(tail))
    requires var after := at + |LinesOf(items[0])|;
             ScanFrom(Some(items[0].close), after, Render(items[1..]) + tail) == Before(BlocksOf(items[1..], after, false), end)
    ensures ScanFrom(before, at, Render(items) + tail) == Before(BlocksOf(items, at, IsMarker(before)), end)
  {
    hide ScanFrom, LinesOf, BlocksOf, BlockOf, Before;
    var item, rest := items[0], items[1..];
    RenderSplits(items, tail);
    FenceStep(item, before, at, Render(rest) + tail);
    BeforeTwice(BlockOf(before, at, item.open, item.body), BlocksOf(rest, at + |LinesOf(item)|, false), end);
    FenceBlocks(items, before, at);
  }

  lemma ScanLine(items: seq<Item>, before: Option<Line>, at: nat, tail: seq<Line>, end: Scan)
    requires items != [] && !items[0].Fenced? && Fits(items, First(tail))
    requires var after := at + |LinesOf(items[0])|;
             ScanFrom(Some(items[0].line), after, Render(items[1..]) + tail) ==
             Before(BlocksOf(items[1..], after, IsMarker(Some(items[0].line))), end)
    ensures ScanFrom(before, at, Render(items) + tail) == Before(BlocksOf(items, at, IsMarker(before)), end)
  {
    hide ScanFrom, Before;
    var item, rest := items[0], items[1..];
    RenderSplits(items, tail);
    FirstOfRendered(rest, tail);
    LineStep(item, before, at, Render(rest) + tail);
  }

  lemma FenceBlocks(items: seq<Item>, before: Option<Line>, at: nat)
    requires items != [] && items[0].Fenced?
    ensures BlocksOf(items, at, IsMarker(before)) ==
            BlockOf(before, at, items[0].open, items[0].body) + BlocksOf(items[1..], at + |LinesOf(items[0])|, false)
  {
    hide LinesOf;
    var rest := BlocksOf(items[1..], at + |LinesOf(items[0])|, false);
    assert [] + rest == rest;
  }

  /** Rendering a document and scanning it gives back its graded blocks, in order, with their
      opening lines, code and flags. */
  lemma RoundTrip(items: seq<Item>)
    requires Fits(items, None)
    ensures ScanFrom(None, 0, Render(items)) == Ok(BlocksOf(items, 0, false))
  {
    assert Render(items) + [] == Render(items);
    ScanStepsOver(items, None, 0, []);
    BeforeNothing(BlocksOf(items, 0, false), Ok([]));
  }

  /** A marker line saying `node`, with whatever whitespace, is the one that flags a fence; a line
      saying anything else is the fault. */
  lemma MarkerReading(text: string, lead: string, a: string, b: string, value: string, c: string, trail: string, next: Option<Line>)
    requires MarkerParts(text, lead, a, b, value, c, trail)
    ensures FitsItem(NodeMarker(LineOf(text)), next) <==> value == "node" && GradedLang(next).Some?
    ensures value != "node" ==>
              ScanFrom(None, 0, [LineOf(text)]) == Err(Thrown(1, UnknownMarker))
  {
    MarkerSpelling(text, lead, a, b, value, c, trail);
  }

  // ----- what it throws on -----

  /** The first of `lines` is one the scan throws on. */
  ghost predicate FaultAt(lines: seq<Line>, fault: Fault) {
    lines != [] &&
    match fault
    case UnknownMarker => lines[0].kind.Marker? && lines[0].kind.value != NODE
    case DanglingMarker => lines[0].kind == Marker(NODE) && GradedLang(First(lines[1..])).None?
    case UnclosedFence => IsFence(lines[0]) && forall j :: 1 <= j < |lines| ==> !IsBare(lines[j])
  }

  /** A fitting document leads up to `rest`. */
  ghost predicate LeadsTo(items: seq<Item>, lines: seq<Line>, rest: seq<Line>) {
    lines == Render(items) + rest && Fits(items, First(rest))
  }

  lemma UnclosedMeans(lines: seq<Line>)
    ensures Close(lines).None? <==> forall j :: 0 <= j < |lines| ==> !IsBare(lines[j])
  {
    if Close(lines).Some? {
      ClosedMeans(lines);
      var c := Close(lines).value;
      assert (c.body + [c.close] + c.after)[|c.body|] == c.close;
    } else if j :| 0 <= j < |lines| && IsBare(lines[j]) {
      CloseExists(lines, j);
    }
  }

  lemma {:induction false} CloseExists(lines: seq<Line>, j: nat)
    requires j < |lines| && IsBare(lines[j])
    ensures Close(lines).Some?
  {
    if j > 0 {
      CloseExists(lines[1..], j - 1);
    }
  }

  lemma {:induction false} ClosedMeans(lines: seq<Line>)
    requires Close(lines).Some?
    ensures var c := Close(lines).value;
            lines == c.body + [c.close] + c.after && forall j :: 0 <= j < |c.body| ==> !IsBare(c.body[j])
  {
    if IsBare(lines[0]) {
      assert lines == [] + [lines[0]] + lines[1..];
    } else {
      ClosedMeans(lines[1..]);
      var c := Close(lines[1..]).value;
      assert lines == [lines[0]] + (c.body + [c.close] + c.after);
      assert lines == ([lines[0]] + c.body) + [c.close] + c.after;
    }
  }

  lemma FaultThrows(items: seq<Item>, lines: seq<Line>, rest: seq<Line>, fault: Fault)
    requires LeadsTo(items, lines, rest) && FaultAt(rest, fault)
    ensures ScanFrom(None, 0, lines) == Err(Thrown(|Render(items)| + 1, fault))
  {
    ScanStepsOver(items, None, 0, rest);
    UnclosedMeans(rest[1..]);
  }

  /** The item at the head of `lines`, and what comes after it. */
  lemma PassedAt(lines: seq<Line>) returns (item: Item, after: seq<Line>)
    requires lines != [] && forall fault :: !FaultAt(lines, fault)
    ensures lines == LinesOf(item) + after && FitsItem(item, First(after))
  {
    if IsFence(lines[0]) {
      item, after := PassedFence(lines);
    } else {
      assert !FaultAt(lines, UnknownMarker) && !FaultAt(lines, DanglingMarker);
      item, after := if lines[0].kind.Marker? then NodeMarker(lines[0]) else Prose(lines[0]), lines[1..];
    }
  }

  lemma PassedFence(lines: seq<Line>) returns (item: Item, after: seq<Line>)
    requires lines != [] && IsFence(lines[0]) && !FaultAt(lines, UnclosedFence)
    ensures lines == LinesOf(item) + after && FitsItem(item, First(after))
  {
    var rest := lines[1..];
    assert Close(rest).Some? by {
      UnclosedMeans(rest);
      if forall j :: 0 <= j < |rest| ==> !IsBare(rest[j]) {
        assert forall j :: 1 <= j < |lines| ==> lines[j] == rest[j - 1];
      }
    }
    ClosedMeans(rest);
    var c := Close(rest).value;
    item, after := Fenced(lines[0], c.body, c.close), c.after;
    FenceLines(lines[0], c.body, c.close, c.after);
    assert lines == [lines[0]] + rest;
  }

  /** Any lines are a fitting document followed by nothing, or by a line the scan throws on. */
  lemma {:induction false} ReadBack(lines: seq<Line>) returns (items: seq<Item>, rest: seq<Line>)
    ensures LeadsTo(items, lines, rest)
    ensures rest == [] || exists fault :: FaultAt(rest, fault)
    decreases |lines|
  {
    if lines == [] || exists fault :: FaultAt(lines, fault) {
      items, rest := [], lines;
      assert lines == [] + lines;
    } else {
      var item, after := PassedAt(lines);
      var more;
      more, rest := ReadBack(after);
      items := [item] + more;
      assert items[1..] == more;
      FirstOfRendered(more, rest);
      RenderSplits(items, rest);
    }
  }

  /** A scan succeeds exactly on the renderings of fitting documents. */
  lemma SucceedsExactly(lines: seq<Line>)
    ensures ScanFrom(None, 0, lines).Ok? <==> exists items :: Fits(items, None) && Render(items) == lines
  {
    var items, rest := ReadBack(lines);
    if rest == [] {
      assert Render(items) + [] == Render(items);
      RoundTrip(items);
    } else {
      var fault :| FaultAt(rest, fault);
      FaultThrows(items, lines, rest, fault);
      if others :| Fits(others, None) && Render(others) == lines {
        RoundTrip(others);
      }
    }
  }

  /** It throws exactly when a fitting document leads to an unknown marker, a marker not directly
      above a graded fence, or a fence nothing closes, and names that line and fault. */
  lemma ThrowsExactly(lines: seq<Line>, i: nat, fault: Fault)
    ensures ScanFrom(None, 0, lines) == Err(Thrown(i + 1, fault)) <==>
            exists items, rest :: LeadsTo(items, lines, rest) && FaultAt(rest, fault) && |Render(items)| == i
  {
    forall others, after | LeadsTo(others, lines, after) && FaultAt(after, fault) && |Render(others)| == i
      ensures ScanFrom(None, 0, lines) == Err(Thrown(i + 1, fault))
    {
      FaultThrows(others, lines, after, fault);
    }
    var items, rest := ReadBack(lines);
    if rest == [] {
      assert Render(items) + [] == Render(items);
      RoundTrip(items);
    } else {
      var found :| FaultAt(rest, found);
      FaultThrows(items, lines, rest, found);
    }
  }

  // ----- what it grades -----

  /** The scan comes to line `i` as the opening of a block. */
  ghost predicate OpensAt(lines: seq<Line>, i: nat) {
    i < |lines| && IsFence(lines[i]) && exists items :: LeadsTo(items, lines, lines[i..])
  }

  lemma {:induction false} BlockHasItem(items: seq<Item>, at: nat, marked: bool, b: Block) returns (k: nat)
    requires b in BlocksOf(items, at, marked)
    ensures k < |items| && items[k].Fenced? && GradedLang(Some(items[k].open)) == Some(b.lang)
    ensures b.line == at + |Render(items[..k])| + 1
    decreases |items|
  {
    hide LinesOf, GradedLang;
    var item, after := items[0], at + |LinesOf(items[0])|;
    if b in BlocksOf(items[1..], after, item.NodeMarker?) {
      k := BlockHasItem(items[1..], after, item.NodeMarker?, b);
      RenderSplits(items[..k + 1], []);
      assert items[..k + 1][0] == item && items[..k + 1][1..] == items[1..][..k];
      k := k + 1;
    } else {
      k := 0;
    }
  }

  lemma {:induction false} PrefixLeads(items: seq<Item>, k: nat)
    requires k <= |items| && Fits(items, None)
    ensures LeadsTo(items[..k], Render(items), Render(items[k..]))
    decreases k
  {
    if k == 0 {
      assert items[..0] == [] && items[0..] == items;
    } else {
      var head, rest := items[..k], items[1..];
      PrefixLeads(rest, k - 1);
      assert head[0] == items[0] && head[1..] == rest[..k - 1] && rest[k - 1..] == items[k..];
      RenderSplits(head, Render(items[k..]));
      FirstOfRendered(rest[..k - 1], Render(items[k..]));
      FirstOfRendered(rest, []);
      assert Render(rest) + [] == Render(rest);
    }
  }

  lemma BlockOpens(lines: seq<Line>, b: Block)
    requires ScanFrom(None, 0, lines).Ok? && b in ScanFrom(None, 0, lines).value
    ensures b.line > 0 && OpensAt(lines, b.line - 1) && GradedLang(Some(lines[b.line - 1])) == Some(b.lang)
  {
    hide ScanFrom, GradedLang, Fits, IsFence, LinesOf;
    SucceedsExactly(lines);
    var items: seq<Item> :| Fits(items, None) && Render(items) == lines;
    RoundTrip(items);
    var k := BlockHasItem(items, 0, false, b);
    PrefixLeads(items, k);
    ItemOpens(items, k);
    assert lines[|Render(items[..k])|..] == Render(items[k..]);
  }

  lemma ItemOpens(items: seq<Item>, k: nat)
    requires k < |items| && items[k].Fenced? && Fits(items, None)
    ensures Render(items[k..]) != [] && Render(items[k..])[0] == items[k].open && IsFence(items[k].open)
  {
    FitsAt(items, k);
    RenderSplits(items[k..], []);
    assert Render(items[k..]) + [] == Render(items[k..]);
  }

  lemma {:induction false} FitsAt(items: seq<Item>, k: nat)
    requires k < |items| && items[k].Fenced? && Fits(items, None)
    ensures IsFence(items[k].open)
  {
    if k > 0 {
      FitsAt(items[1..], k - 1);
    }
  }

  lemma OpeningIsScanned(items: seq<Item>, lines: seq<Line>, rest: seq<Line>, lang: Lang) returns (b: Block)
    requires LeadsTo(items, lines, rest) && ScanFrom(None, 0, lines).Ok?
    requires rest != [] && IsFence(rest[0]) && GradedLang(Some(rest[0])) == Some(lang)
    ensures b in ScanFrom(None, 0, lines).value && b.line == |Render(items)| + 1 && b.lang == lang
  {
    hide Fits, BlocksOf, LinesOf;
    ScanStepsOver(items, None, 0, rest);
    b := OpeningBlock(EndLine(items, None), |Render(items)|, rest, lang);
  }

  lemma OpeningBlock(before: Option<Line>, at: nat, lines: seq<Line>, lang: Lang) returns (b: Block)
    requires lines != [] && IsFence(lines[0]) && GradedLang(Some(lines[0])) == Some(lang)
    requires ScanFrom(before, at, lines).Ok?
    ensures b in ScanFrom(before, at, lines).value && b.line == at + 1 && b.lang == lang
  {
    b := Block(at + 1, lang, Close(lines[1..]).value.body, IsMarker(before));
  }

  /** A scan returns a block for line `i` exactly when it comes to that line as an opening fence
      the language table answers, in the language it answers. */
  lemma GradedExactly(lines: seq<Line>, i: nat, lang: Lang)
    requires ScanFrom(None, 0, lines).Ok?
    ensures (exists b <- ScanFrom(None, 0, lines).value :: b.line == i + 1 && b.lang == lang) <==>
            OpensAt(lines, i) && GradedLang(Some(lines[i])) == Some(lang)
  {
    hide Fits, ScanFrom, GradedLang;
    var blocks := ScanFrom(None, 0, lines).value;
    if b :| b in blocks && b.line == i + 1 && b.lang == lang {
      BlockOpens(lines, b);
    }
    if OpensAt(lines, i) && GradedLang(Some(lines[i])) == Some(lang) {
      var items: seq<Item> :| LeadsTo(items, lines, lines[i..]);
      assert |lines| == |Render(items)| + |lines[i..]|;
      var b := OpeningIsScanned(items, lines, lines[i..], lang);
    }
  }

  /** The language table is a plain object, so it also answers a word naming a property every
      object inherits. What a scan grades is TypeScript and JavaScript alone exactly when no fence
      it opens a block on spells such a word. */
  lemma OnlyLanguagesIff(lines: seq<Line>)
    requires ScanFrom(None, 0, lines).Ok? && forall l <- lines :: l == LineOf(l.text)
    ensures (forall b <- ScanFrom(None, 0, lines).value :: b.lang == Ts || b.lang == Js) <==>
            (forall i: nat :: OpensAt(lines, i) ==> !SpellsInherited(lines[i].text))
  {
    hide ScanFrom, LeadsTo;
    var blocks := ScanFrom(None, 0, lines).value;
    forall b <- blocks
      ensures b.line > 0 && OpensAt(lines, b.line - 1)
      ensures b.lang != Ts && b.lang != Js <==> SpellsInherited(lines[b.line - 1].text)
    {
      BlockOpens(lines, b);
      OpeningLang(lines[b.line - 1]);
    }
    if i: nat :| OpensAt(lines, i) && SpellsInherited(lines[i].text) {
      OpeningLang(lines[i]);
      GradedExactly(lines, i, Inherited(Info(lines[i].text)));
    }
  }

  lemma OpeningLang(line: Line)
    requires line == LineOf(line.text) && IsFence(line)
    ensures ReadmeLines.IsFence(line.text) && GradedLang(Some(line)) == LangOf(Info(line.text))
    ensures SpellsInherited(line.text) <==> GradedLang(Some(line)) == Some(Inherited(Info(line.text)))
    ensures GradedLang(Some(line)).Some? ==>
              (SpellsInherited(line.text) <==> GradedLang(Some(line)) != Some(Ts) && GradedLang(Some(line)) != Some(Js))
  {
    hide MarkerOf, Word, TrimStart;
    FenceFirst(line.text);
    NoLanguageIsInherited(Info(line.text));
  }

  lemma NoLanguageIsInherited(word: string)
    ensures LangOf(word) == Some(Inherited(word)) <==> word in INHERITED
    ensures word in INHERITED ==> LangOf(word) != Some(Ts) && LangOf(word) != Some(Js)
    ensures LangOf(word).Some? && word !in INHERITED ==> LangOf(word) == Some(Ts) || LangOf(word) == Some(Js)
  {
  }

  // ----- from the file's text -----

  function LinesIn(markdown: string): seq<Line> {
    var texts := Split(markdown);
    seq(|texts|, i requires 0 <= i < |texts| => LineOf(texts[i]))
  }

  method ReadmeBlocks(markdown: string) returns (scan: Scan)
    ensures scan == ScanFrom(None, 0, LinesIn(markdown))
  {
    scan := ScanLines(LinesIn(markdown));
  }

  function TextsOf(lines: seq<Line>): seq<string> {
    seq(|lines|, i requires 0 <= i < |lines| => lines[i].text)
  }

  lemma TextLines(lines: seq<Line>)
    requires lines != [] && forall l <- lines :: l == LineOf(l.text) && '\n' !in l.text
    ensures LinesIn(Join(TextsOf(lines))) == lines
  {
    hide LineOf;
    var texts := TextsOf(lines);
    forall t <- texts
      ensures '\n' !in t
    {
      var i :| 0 <= i < |texts| && texts[i] == t;
      assert lines[i] in lines;
    }
    SplitJoin(texts);
    forall i | 0 <= i < |lines|
      ensures LineOf(texts[i]) == lines[i]
    {
      assert lines[i] in lines;
    }
  }

  /** The whole trip, from a document's text: a file is its rendered lines joined by newlines. */
  lemma TextRoundTrip(items: seq<Item>)
    requires items != [] && Fits(items, None)
    requires forall l <- Render(items) :: l == LineOf(l.text) && '\n' !in l.text
    ensures ScanFrom(None, 0, LinesIn(Join(TextsOf(Render(items))))) == Ok(BlocksOf(items, 0, false))
  {
    hide ScanFrom, LinesIn, LineOf, Fits, TextsOf;
    RenderSplits(items, []);
    assert Render(items) + [] == Render(items);
    assert Render(items) != [];
    TextLines(Render(items));
    RoundTrip(items);
  }

  lemma OneBlock(open: Line, body: seq<Line>, close: Line, lang: Lang)
    requires FitsItem(Fenced(open, body, close), None) && GradedLang(Some(open)) == Some(lang)
    ensures ScanFrom(None, 0, [open] + body + [close]) == Ok([Block(1, lang, body, false)])
  {
    var items := [Fenced(open, body, close)];
    assert items[1..] == [] && Render([]) == [];
    assert Render(items) == LinesOf(items[0]) + [] == [open] + body + [close];
    RoundTrip(items);
    assert BlocksOf(items[1..], |LinesOf(items[0])|, false) == [];
    assert BlocksOf(items, 0, false) == [Block(1, lang, body, false)];
  }

  const INHERITED_WORD := "```constructor\nx\n```"

  /** A block no language names, graded all the same. */
  lemma InheritedWordExample()
    ensures ScanFrom(None, 0, LinesIn(INHERITED_WORD)) ==
            Ok([Block(1, Inherited("constructor"), [Line("x", Plain)], false)])
  {
    hide ScanFrom, LinesIn, LineOf, Join;
    var open, body, close := LineOf("```constructor"), Line("x", Plain), LineOf("```");
    FenceExamples();
    PlainExample();
    OneBlock(open, [body], close, Inherited("constructor"));
    var lines := [open, body, close];
    assert [open] + [body] + [close] == lines;
    TextLines(lines);
    assert TextsOf(lines) == ["```constructor", "x", "```"];
    JoinThree("```constructor", "x", "```");
    assert "```constructor" + "\n" + "x" + "\n" + "```" == INHERITED_WORD;
  }

  lemma FenceExamples()
    ensures LineOf("```constructor") == Line("```constructor", Fence(Some(Inherited("constructor")), false))
    ensures LineOf("```") == Line("```", Fence(None, true))
  {
    hide LineOf;
    WordFence("constructor");
    WordFence("");
    NoLanguageIsInherited("constructor");
    NoLanguageIsInherited("");
    assert "```" + "constructor" == "```constructor" && "```" + "" == "```";
  }

  lemma WordFence(word: string)
    requires forall c <- word :: !IsSpace(c) && c != '`'
    ensures LineOf("```" + word) == Line("```" + word, Fence(LangOf(word), word == ""))
  {
    assert "```" + "" + word + "" == "```" + word && word + "" == word;
    FenceSpelling("```" + word, "", word, "");
  }

  lemma PlainExample()
    ensures LineOf("x") == Line("x", Plain)
  {
    assert TrimStart("x") == "x" && TrimEnd("x") == "x";
    assert !("<!--" <= "x") && !("```" <= "x");
  }

  lemma JoinThree(a: string, b: string, c: string)
    ensures Join([a, b, c]) == a + "\n" + b + "\n" + c
  {
    assert [a, b, c][1..] == [b, c] && [b, c][1..] == [c];
    assert Join([b, c]) == b + "\n" + c;
    assert Join([a, b, c]) == a + "\n" + (b + "\n" + c);
  }
}
