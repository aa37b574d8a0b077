/** The JavaScript string operations the scripts rely on: `<`, which compares UTF-16 code units
    lexicographically, `includes`, `trim`, and splitting and joining lines. */
module JsStrings {
  newtype CodeUnit = x: int | 0 <= x < 0x1_0000

  type Text = seq<CodeUnit>

  /** `a < b` */
  predicate Less(a: Text, b: Text) {
    if b == [] then false
    else if a == [] then true
    else a[0] < b[0] || (a[0] == b[0] && Less(a[1..], b[1..]))
  }

  lemma {:induction false} LessTransitive(a: Text, b: Text, c: Text)
    requires Less(a, b) && Less(b, c)
    ensures Less(a, c)
  {
    if a != [] && a[0] == b[0] == c[0] {
      LessTransitive(a[1..], b[1..], c[1..]);
    }
  }

  /** Exactly one of `a < b`, `a == b` and `b < a` holds. */
  lemma {:induction false} LessTrichotomy(a: Text, b: Text)
    ensures Less(a, b) <==> (a != b && !Less(b, a))
  {
    if a != [] && b != [] && a[0] == b[0] {
      LessTrichotomy(a[1..], b[1..]);
      assert a == [a[0]] + a[1..] && b == [b[0]] + b[1..];
    }
  }

  /** Two texts compare by their first difference, a proper beginning coming first. */
  lemma {:induction false} LessMeans(a: Text, b: Text)
    ensures Less(a, b) <==> a < b || exists k :: 0 <= k < |a| && k < |b| && a[..k] == b[..k] && a[k] < b[k]
  {
    if a != [] && b != [] {
      if a[0] == b[0] {
        LessMeans(a[1..], b[1..]);
        if k :| 0 <= k < |a[1..]| && k < |b[1..]| && a[1..][..k] == b[1..][..k] && a[1..][k] < b[1..][k] {
          assert a[..k + 1] == [a[0]] + a[1..][..k] && b[..k + 1] == [b[0]] + b[1..][..k];
          assert a[k + 1] < b[k + 1];
        }
        if k :| 0 <= k < |a| && k < |b| && a[..k] == b[..k] && a[k] < b[k] {
          assert a[1..][..k - 1] == a[..k][1..] && b[1..][..k - 1] == b[..k][1..];
          assert a[1..][k - 1] < b[1..][k - 1];
        }
        assert a == [a[0]] + a[1..] && b == [b[0]] + b[1..];
      } else {
        assert forall k :: 0 < k <= |a| && k <= |b| ==> a[..k][0] != b[..k][0];
        assert a[..0] == b[..0];
      }
    }
  }

  /** `hay.includes(needle)` */
  predicate Includes(hay: string, needle: string) {
    exists i :: 0 <= i <= |hay| && needle <= hay[i..]
  }

  lemma IncludesMeans(hay: string, needle: string)
    ensures Includes(hay, needle) <==> exists before, after :: hay == before + needle + after
  {
    if Includes(hay, needle) {
      var i :| 0 <= i <= |hay| && needle <= hay[i..];
      assert hay == hay[..i] + needle + hay[i + |needle|..];
    }
    if before, after :| hay == before + needle + after {
      assert hay[|before|..] == needle + after;
    }
  }

  /** `\s`, which is also what `trim` takes off. */
  predicate IsSpace(c: char) {
    || c in " \t\n\r"
    || c in "\U{0B}\U{0C}\U{A0}\U{1680}\U{2028}\U{2029}\U{202F}\U{205F}\U{3000}\U{FEFF}"
    || '\U{2000}' <= c <= '\U{200A}'
  }

  function TrimStart(s: string): string {
    if s != "" && IsSpace(s[0]) then TrimStart(s[1..]) else s
  }

  function TrimEnd(s: string): string {
    if s != "" && IsSpace(s[|s| - 1]) then TrimEnd(s[..|s| - 1]) else s
  }

  lemma {:induction false} TrimEndKeepsHead(s: string)
    requires s != "" && !IsSpace(s[0])
    ensures TrimEnd(s) != "" && TrimEnd(s)[0] == s[0]
  {
    if |s| > 1 && IsSpace(s[|s| - 1]) {
      TrimEndKeepsHead(s[..|s| - 1]);
    }
  }

  predicate AllSpace(s: string) {
    forall c <- s :: IsSpace(c)
  }

  /** Nothing to take off either end. */
  predicate Tight(s: string) {
    s == "" || (!IsSpace(s[0]) && !IsSpace(s[|s| - 1]))
  }

  lemma {:induction false} TrimStartTakes(pad: string, s: string)
    requires AllSpace(pad) && (s == "" || !IsSpace(s[0]))
    ensures TrimStart(pad + s) == s
  {
    if pad == "" {
      assert pad + s == s;
    } else {
      assert (pad + s)[1..] == pad[1..] + s;
      assert pad[0] in pad && forall c <- pad[1..] :: c in pad;
      TrimStartTakes(pad[1..], s);
    }
  }

  lemma {:induction false} TrimEndTakes(s: string, pad: string)
    requires AllSpace(pad) && (s == "" || !IsSpace(s[|s| - 1]))
    ensures TrimEnd(s + pad) == s
  {
    if pad == "" {
      assert s + pad == s;
    } else {
      var n := |pad| - 1;
      assert (s + pad)[..|s + pad| - 1] == s + pad[..n];
      assert pad[n] in pad && forall c <- pad[..n] :: c in pad;
      TrimEndTakes(s, pad[..n]);
    }
  }

  lemma {:induction false} TrimStartLeaves(s: string) returns (pad: string)
    ensures AllSpace(pad) && s == pad + TrimStart(s)
    ensures TrimStart(s) == "" || !IsSpace(TrimStart(s)[0])
  {
    if s != "" && IsSpace(s[0]) {
      var rest := TrimStartLeaves(s[1..]);
      pad := [s[0]] + rest;
    } else {
      pad := "";
    }
  }

  lemma {:induction false} TrimEndLeaves(s: string) returns (pad: string)
    ensures AllSpace(pad) && s == TrimEnd(s) + pad
    ensures TrimEnd(s) == "" || !IsSpace(TrimEnd(s)[|TrimEnd(s)| - 1])
  {
    if s != "" && IsSpace(s[|s| - 1]) {
      var n := |s| - 1;
      var rest := TrimEndLeaves(s[..n]);
      pad := rest + [s[n]];
      assert s == s[..n] + [s[n]];
      assert s == TrimEnd(s[..n]) + rest + [s[n]];
    } else {
      pad := "";
    }
  }

  /** `text.split('\n')` */
  function Split(text: string): (lines: seq<string>)
    ensures |lines| >= 1
  {
    if text == "" then [""]
    else if text[0] == '\n' then [""] + Split(text[1..])
    else
      var rest := Split(text[1..]);
      [[text[0]] + rest[0]] + rest[1..]
  }

  /** `lines.join('\n')` */
  function Join(lines: seq<string>): string {
    if lines == [] then ""
    else if |lines| == 1 then lines[0]
    else lines[0] + "\n" + Join(lines[1..])
  }

  lemma {:induction false} SplitJoin(lines: seq<string>)
    requires lines != [] && forall l <- lines :: '\n' !in l
    ensures Split(Join(lines)) == lines
    decreases |lines|, |lines[0]|
  {
    var text := Join(lines);
    if lines[0] != "" {
      var shorter := [lines[0][1..]] + lines[1..];
      assert forall l <- shorter :: '\n' !in l by {
        assert lines[0] in lines;
        assert forall l <- lines[1..] :: l in lines;
      }
      SplitJoin(shorter);
      assert shorter[1..] == lines[1..];
      assert text[1..] == Join(shorter);
      assert text[0] == lines[0][0] && text[0] in lines[0];
      assert lines[0] == [text[0]] + shorter[0];
      assert lines == [lines[0]] + shorter[1..];
    } else if |lines| > 1 {
      SplitJoin(lines[1..]);
      assert text[1..] == Join(lines[1..]);
      assert lines == [""] + lines[1..];
    }
  }
}
