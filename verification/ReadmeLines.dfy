/** What the README scanner sees in one line of text. */
module ReadmeLines {
  import opened Wrappers
  import opened JsStrings

  /** A fence line, opening or closing. */
  predicate IsFence(line: string) {
    "```" <= line
  }

  /** A fence line with nothing after it: the one that closes a block. */
  predicate IsBare(line: string) {
    IsFence(line) && TrimStart(line[3..]) == ""
  }

  function Word(s: string): string {
    if s == "" || IsSpace(s[0]) || s[0] == '`' then "" else [s[0]] + Word(s[1..])
  }

  /** The first word after a fence. */
  function Info(line: string): string
    requires IsFence(line)
  {
    Word(TrimStart(line[3..]))
  }

  /** What the language table answers: one of its own, or, for a word naming a property every
      object inherits, that property. */
  datatype Lang = Ts | Js | Inherited(name: string)

  /** Deno's objects inherit no `__proto__`. */
  const INHERITED := {
    "constructor", "hasOwnProperty", "isPrototypeOf", "propertyIsEnumerable", "toLocaleString", "toString", "valueOf",
    "__defineGetter__", "__defineSetter__", "__lookupGetter__", "__lookupSetter__"
  }

  /** What the table answers for a fence's word. */
  function LangOf(word: string): Option<Lang> {
    if word == "ts" || word == "typescript" then Some(Ts)
    else if word == "js" || word == "javascript" then Some(Js)
    else if word in INHERITED then Some(Inherited(word))
    else None
  }

  /** A fence line whose word is an inherited property's name. */
  predicate SpellsInherited(line: string) {
    IsFence(line) && Info(line) in INHERITED
  }

  predicate HasLineTerminator(s: string) {
    exists c :: c in s && c in "\n\r\U{2028}\U{2029}"
  }

  /** The value of a `<!-- typecheck: value -->` line. */
  function MarkerOf(line: string): Option<string> {
    var trimmed := TrimEnd(TrimStart(line));
    if !("<!--" <= trimmed) then None
    else
      var inner := TrimStart(trimmed[4..]);
      if !("typecheck:" <= inner) then None
      else
        var rest := TrimStart(inner[10..]);
        if |rest| < 3 || rest[|rest| - 3..] != "-->" then None
        else
          var value := TrimEnd(rest[..|rest| - 3]);
          if HasLineTerminator(value) then None else Some(value)
  }

  lemma FenceIsNoMarker(line: string)
    requires IsFence(line)
    ensures MarkerOf(line).None?
  {
    TrimEndKeepsHead(line);
  }

  /** The three kinds the scanner tells apart. A marker's text starts with `<`, a fence's with a
      backtick, so no line is both. */
  datatype Kind = Marker(value: string) | Fence(lang: Option<Lang>, bare: bool) | Plain

  datatype Line = Line(text: string, kind: Kind)

  function KindOf(text: string): Kind {
    if MarkerOf(text).Some? then Marker(MarkerOf(text).value)
    else if IsFence(text) then Fence(LangOf(Info(text)), IsBare(text))
    else Plain
  }

  function LineOf(text: string): Line {
    Line(text, KindOf(text))
  }

  /** Testing the fence first would tell the same kinds. */
  lemma FenceFirst(text: string)
    requires IsFence(text)
    ensures KindOf(text) == Fence(LangOf(Info(text)), IsBare(text))
  {
    FenceIsNoMarker(text);
  }

  // ----- how fences and markers are spelled -----

  lemma {:induction false} WordEnds(word: string, tail: string)
    requires forall c <- word :: !IsSpace(c) && c != '`'
    requires tail == "" || IsSpace(tail[0]) || tail[0] == '`'
    ensures Word(word + tail) == word
  {
    if word == "" {
      assert word + tail == tail;
    } else {
      assert (word + tail)[1..] == word[1..] + tail;
      assert word[0] in word && forall c <- word[1..] :: c in word;
      WordEnds(word[1..], tail);
    }
  }

  /** A fence is three backticks, whitespace, a word and the rest of the line; the word is as long
      as it can be. */
  ghost predicate FenceParts(text: string, pad: string, word: string, tail: string) {
    && text == "```" + pad + word + tail
    && AllSpace(pad) && (forall c <- word :: !IsSpace(c) && c != '`')
    && (tail == "" || tail[0] == '`' || (word != "" && IsSpace(tail[0])))
  }

  /** Such a line is a fence, bare exactly when nothing but whitespace follows the backticks, in
      TypeScript or JavaScript by either name. */
  lemma FenceSpelling(text: string, pad: string, word: string, tail: string)
    requires FenceParts(text, pad, word, tail)
    ensures LineOf(text) == Line(text, Fence(
              if word == "ts" || word == "typescript" then Some(Ts)
              else if word == "js" || word == "javascript" then Some(Js)
              else if word in INHERITED then Some(Inherited(word)) else None,
              word + tail == ""))
  {
    hide TrimStart, Word, IsSpace, MarkerOf;
    assert "```" <= text && text[3..] == pad + (word + tail);
    FenceFirst(text);
    FenceWord(pad, word, tail);
    assert IsBare(text) <==> word + tail == "";
  }

  lemma FenceWord(pad: string, word: string, tail: string)
    requires AllSpace(pad) && forall c <- word :: !IsSpace(c) && c != '`'
    requires tail == "" || tail[0] == '`' || (word != "" && IsSpace(tail[0]))
    ensures TrimStart(pad + (word + tail)) == word + tail && Word(word + tail) == word
  {
    assert word != "" ==> (word + tail)[0] == word[0] && word[0] in word;
    assert word == "" ==> word + tail == tail;
    TrimStartTakes(pad, word + tail);
    WordEnds(word, tail);
  }

  /** Every line that starts with three backticks is spelled so. */
  lemma FenceForm(text: string) returns (pad: string, word: string, tail: string)
    requires "```" <= text
    ensures FenceParts(text, pad, word, tail)
  {
    pad := TrimStartLeaves(text[3..]);
    word, tail := WordForm(TrimStart(text[3..]));
    assert text == "```" + text[3..];
    assert "```" + pad + word + tail == "```" + (pad + (word + tail));
  }

  lemma {:induction false} WordForm(s: string) returns (word: string, tail: string)
    ensures s == word + tail && forall c <- word :: !IsSpace(c) && c != '`'
    ensures tail == "" || IsSpace(tail[0]) || tail[0] == '`'
  {
    if s == "" || IsSpace(s[0]) || s[0] == '`' {
      word, tail := "", s;
    } else {
      word, tail := WordForm(s[1..]);
      word := [s[0]] + word;
    }
  }

  function Rest(value: string, c: string): string {
    value + (c + "-->")
  }

  function Inner(b: string, rest: string): string {
    "typecheck:" + (b + rest)
  }

  function Comment(a: string, inner: string): string {
    "<!--" + (a + inner)
  }

  /** A marker is a comment, alone on its line, that says `typecheck:` and a value; any whitespace
      may stand between and around. */
  ghost predicate MarkerParts(text: string, lead: string, a: string, b: string, value: string, c: string, trail: string) {
    && text == lead + Comment(a, Inner(b, Rest(value, c))) + trail
    && AllSpace(lead) && AllSpace(a) && AllSpace(b) && AllSpace(c) && AllSpace(trail)
    && Tight(value) && (value == "" ==> c == "") && !HasLineTerminator(value)
  }

  lemma CommentTaken(lead: string, a: string, inner: string, trail: string)
    requires AllSpace(lead) && AllSpace(a) && AllSpace(trail)
    requires |inner| >= 3 && inner[|inner| - 3..] == "-->" && !IsSpace(inner[0])
    ensures TrimEnd(TrimStart(lead + Comment(a, inner) + trail)) == Comment(a, inner)
    ensures "<!--" <= Comment(a, inner) && TrimStart(Comment(a, inner)[4..]) == inner
  {
    var comment := Comment(a, inner);
    assert lead + comment + trail == lead + (comment + trail);
    TrimStartTakes(lead, comment + trail);
    assert inner[|inner| - 1] == inner[|inner| - 3..][2];
    TrimEndTakes(comment, trail);
    assert comment[4..] == a + inner;
    TrimStartTakes(a, inner);
  }

  lemma InnerTaken(b: string, value: string, c: string)
    requires AllSpace(b) && AllSpace(c) && Tight(value) && (value == "" ==> c == "")
    ensures var inner := Inner(b, Rest(value, c));
            && "typecheck:" <= inner && !IsSpace(inner[0])
            && TrimStart(inner[10..]) == Rest(value, c)
            && |inner| >= 3 && inner[|inner| - 3..] == "-->"
  {
    var rest := Rest(value, c);
    assert Inner(b, rest)[10..] == b + rest;
    TrimStartTakes(b, rest);
  }

  lemma ValueTaken(value: string, c: string)
    requires AllSpace(c) && Tight(value)
    ensures var rest := Rest(value, c);
            |rest| >= 3 && rest[|rest| - 3..] == "-->" && TrimEnd(rest[..|rest| - 3]) == value
  {
    var rest := Rest(value, c);
    assert rest == value + c + "-->";
    assert rest[..|rest| - 3] == value + c;
    TrimEndTakes(value, c);
  }

  lemma MarkerSpelling(text: string, lead: string, a: string, b: string, value: string, c: string, trail: string)
    requires MarkerParts(text, lead, a, b, value, c, trail)
    ensures LineOf(text) == Line(text, Marker(value))
  {
    hide HasLineTerminator, TrimStart, TrimEnd, Rest, Inner, Comment, AllSpace, IsSpace;
    var inner := Inner(b, Rest(value, c));
    ValueTaken(value, c);
    InnerTaken(b, value, c);
    CommentTaken(lead, a, inner, trail);
  }

  /** What `MarkerOf` finds between the pieces. */
  ghost predicate Reads(text: string, comment: string, inner: string, rest: string, value: string) {
    && comment == TrimEnd(TrimStart(text)) && "<!--" <= comment
    && inner == TrimStart(comment[4..]) && "typecheck:" <= inner
    && rest == TrimStart(inner[10..]) && |rest| >= 3 && rest[|rest| - 3..] == "-->"
    && value == TrimEnd(rest[..|rest| - 3])
    && !HasLineTerminator(value)
  }

  lemma MarkerReads(text: string) returns (comment: string, inner: string, rest: string)
    requires LineOf(text).kind.Marker?
    ensures Reads(text, comment, inner, rest, LineOf(text).kind.value)
  {
    comment := TrimEnd(TrimStart(text));
    inner := TrimStart(comment[4..]);
    rest := TrimStart(inner[10..]);
  }

  lemma ValueForm(rest: string, value: string) returns (c: string)
    requires |rest| >= 3 && rest[|rest| - 3..] == "-->" && value == TrimEnd(rest[..|rest| - 3])
    requires !IsSpace(rest[0])
    ensures rest == value + (c + "-->") && AllSpace(c) && Tight(value) && (value == "" ==> c == "")
  {
    hide TrimEnd, IsSpace;
    c := TrimEndLeaves(rest[..|rest| - 3]);
    assert rest == rest[..|rest| - 3] + "-->";
    assert rest == value + (c + "-->");
    assert value != "" ==> value[0] == rest[0];
    assert rest[0] !in c;
    assert forall k :: 0 <= k < |c| ==> c[k] in c;
    assert value == "" ==> rest == c + "-->";
  }

  lemma CommentIs(comment: string, a: string, inner: string)
    requires "<!--" <= comment && comment[4..] == a + inner
    ensures comment == Comment(a, inner)
  {
    assert comment == "<!--" + comment[4..];
  }

  lemma InnerIs(inner: string, b: string, rest: string)
    requires "typecheck:" <= inner && inner[10..] == b + rest
    ensures inner == Inner(b, rest)
  {
    assert inner == "typecheck:" + inner[10..];
  }

  lemma RestIs(rest: string, value: string, c: string)
    requires rest == value + (c + "-->")
    ensures rest == Rest(value, c)
  {
  }

  lemma Regrouped(x: string, y: string, z: string)
    ensures x + (y + z) == x + y + z
  {
  }

  /** Every line read as a marker is spelled so. */
  lemma MarkerForm(text: string)
    returns (lead: string, a: string, b: string, c: string, trail: string)
    requires LineOf(text).kind.Marker?
    ensures MarkerParts(text, lead, a, b, LineOf(text).kind.value, c, trail)
  {
    hide TrimStart, TrimEnd, LineOf, IsSpace, HasLineTerminator, Rest, Inner, Comment;
    var value := LineOf(text).kind.value;
    var comment, inner, rest := MarkerReads(text);
    lead := TrimStartLeaves(text);
    trail := TrimEndLeaves(TrimStart(text));
    a := TrimStartLeaves(comment[4..]);
    b := TrimStartLeaves(inner[10..]);
    c := ValueForm(rest, value);
    CommentIs(comment, a, inner);
    InnerIs(inner, b, rest);
    RestIs(rest, value, c);
    Regrouped(lead, comment, trail);
  }
}
