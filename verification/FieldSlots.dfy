/** The `ParentType.key->ChildShape` slots of a wire tree (`wire_field_slots`). */
module FieldSlots {
  import opened Wrappers

  type Slot = string

  datatype Json =
    | Null
    | Bool(b: bool)
    | Number(n: real)
    | Str(s: string)
    | Arr(items: seq<Json>)
    | Obj(entries: seq<Entry>)

  /** One own property, in `Object.entries` order. */
  datatype Entry = Entry(key: string, value: Json)

  /** A JavaScript object holds each key once. */
  ghost predicate DistinctKeys(entries: seq<Entry>) {
    forall i, j :: 0 <= i < j < |entries| ==> entries[i].key != entries[j].key
  }

  function Lookup(entries: seq<Entry>, key: string): Option<Json> {
    if entries == [] then None
    else if entries[0].key == key then Some(entries[0].value)
    else Lookup(entries[1..], key)
  }

  /** The object's `type` when it is a string. */
  function TypeName(entries: seq<Entry>): Option<string> {
    match Lookup(entries, "type")
    case Some(Str(t)) => Some(t)
    case _ => None
  }

  /** The discriminator a child registers under; an array directly in an array is a scalar. */
  function Shape(v: Json): string {
    if v.Obj? then
      (match TypeName(v.entries)
       case Some(t) => t
       case None => "#obj")
    else "#scalar"
  }

  /** Every shape one property's value registers. */
  function ChildShapes(v: Json): set<string> {
    if v.Arr? then
      if |v.items| == 0 then {"#empty"} else set i | 0 <= i < |v.items| :: Shape(v.items[i])
    else {Shape(v)}
  }

  function Render(parent: string, key: string, child: string): Slot {
    parent + "." + key + "->" + child
  }

  /** The slots one property of an object typed `parent` contributes itself, opaque ones filtered
      out. */
  function PropertySlots(parent: Option<string>, e: Entry, hidden: set<string>): set<Slot> {
    if parent.None? || e.key == "type" || parent.value in hidden then {}
    else set c | c in ChildShapes(e.value) && c !in hidden :: Render(parent.value, e.key, c)
  }

  function Union(sets: seq<set<Slot>>): set<Slot> {
    set i, s | 0 <= i < |sets| && s in sets[i] :: s
  }

  /** Everything the recursive walk accumulates below `n`. */
  function Slots(n: Json, hidden: set<string>): set<Slot> {
    match n
    case Arr(items) =>
      Union(seq(|items|, i requires 0 <= i < |items| => Slots(items[i], hidden)))
    case Obj(entries) =>
      Union(seq(|entries|, i requires 0 <= i < |entries| =>
        PropertySlots(TypeName(entries), entries[i], hidden) + Slots(entries[i].value, hidden)))
    case _ => {}
  }

  /** The walk itself: one shared set that `add` fills. */
  class SlotCollector {
    const hidden: set<string>
    var out: set<Slot>

    constructor (hidden: set<string>)
      ensures this.hidden == hidden && out == {}
    {
      this.hidden := hidden;
      out := {};
    }

    method Add(parent: string, key: string, child: string)
      modifies this
      ensures out == old(out) + if parent in hidden || child in hidden then {} else {Render(parent, key, child)}
    {
      if parent in hidden || child in hidden {
        return;
      }
      out := out + {Render(parent, key, child)};
    }

    method AddProperty(parent: string, e: Entry)
      requires e.key != "type"
      modifies this
      ensures out == old(out) + PropertySlots(Some(parent), e, hidden)
    {
      var v := e.value;
      if v.Arr? {
        if |v.items| == 0 {
          Add(parent, e.key, "#empty");
          return;
        }
        for i := 0 to |v.items|
          invariant out == old(out) + set j | 0 <= j < i && parent !in hidden && Shape(v.items[j]) !in hidden
                                        :: Render(parent, e.key, Shape(v.items[j]))
        {
          Add(parent, e.key, Shape(v.items[i]));
        }
      } else {
        Add(parent, e.key, Shape(v));
      }
    }

    method Visit(n: Json)
      modifies this
      ensures out == old(out) + Slots(n, hidden)
      decreases n, 1
    {
      match n
      case Arr(items) => VisitItems(items);
      case Obj(entries) => VisitEntries(entries);
      case _ =>
    }

    method VisitItems(items: seq<Json>)
      modifies this
      ensures out == old(out) + Slots(Arr(items), hidden)
      decreases Arr(items), 0
    {
      hide Union;
      UnionOfNone();
      ghost var each := seq(|items|, i requires 0 <= i < |items| => Slots(items[i], hidden));
      for i := 0 to |items|
        invariant out == old(out) + Union(each[..i])
      {
        Visit(items[i]);
        UnionSnoc(each, i);
      }
      assert each[..|items|] == each;
    }

    method VisitEntries(entries: seq<Entry>)
      modifies this
      ensures out == old(out) + Slots(Obj(entries), hidden)
      decreases Obj(entries), 0
    {
      hide Union, PropertySlots;
      UnionOfNone();
      SlotsOfEntries(entries, hidden);
      var parent := TypeName(entries);
      ghost var each := seq(|entries|, i requires 0 <= i < |entries| =>
        PropertySlots(parent, entries[i], hidden) + Slots(entries[i].value, hidden));
      for i := 0 to |entries|
        invariant out == old(out) + Union(each[..i])
      {
        VisitProperty(parent, entries[i]);
        UnionSnoc(each, i);
      }
      assert each[..|entries|] == each;
    }

    method VisitProperty(parent: Option<string>, e: Entry)
      modifies this
      ensures out == old(out) + (PropertySlots(parent, e, hidden) + Slots(e.value, hidden))
      decreases e.value, 2
    {
      if parent.Some? && e.key != "type" {
        AddProperty(parent.value, e);
      }
      Visit(e.value);
    }
  }

  lemma UnionOfNone()
    ensures Union([]) == {}
  {
  }

  lemma SlotsOfEntries(entries: seq<Entry>, hidden: set<string>)
    ensures Slots(Obj(entries), hidden) ==
            Union(seq(|entries|, i requires 0 <= i < |entries| =>
              PropertySlots(TypeName(entries), entries[i], hidden) + Slots(entries[i].value, hidden)))
  {
  }

  lemma UnionSnoc(sets: seq<set<Slot>>, i: nat)
    requires i < |sets|
    ensures Union(sets[..i + 1]) == Union(sets[..i]) + sets[i]
  {
    assert forall j :: 0 <= j < i ==> sets[..i][j] == sets[..i + 1][j];
    assert sets[..i + 1][i] == sets[i];
    forall s | s in Union(sets[..i]) + sets[i]
      ensures s in Union(sets[..i + 1])
    {
      if s in sets[i] {
        assert s in sets[..i + 1][i];
      } else {
        var j :| 0 <= j < i && s in sets[..i][j];
        assert s in sets[..i + 1][j];
      }
    }
  }

  method WireFieldSlots(json: Json, hidden: set<string>) returns (out: set<Slot>)
    ensures out == Slots(json, hidden)
  {
    var collector := new SlotCollector(hidden);
    collector.Visit(json);
    out := collector.out;
  }

  // ----- the declarative reading -----

  /** The node a path of child positions leads to, through arrays and objects alike. */
  function NodeAt(n: Json, path: seq<nat>): Option<Json>
    decreases path
  {
    if path == [] then Some(n)
    else
      match n
      case Arr(items) => if path[0] < |items| then NodeAt(items[path[0]], path[1..]) else None
      case Obj(entries) => if path[0] < |entries| then NodeAt(entries[path[0]].value, path[1..]) else None
      case _ => None
  }

  /** The typed object at `path` holds, under its `i`th key, a child of shape `child`, and the
      slot they spell is `s`. */
  ghost predicate Holds(n: Json, path: seq<nat>, i: nat, parent: string, child: string, s: Slot) {
    var at := NodeAt(n, path);
    && at.Some? && at.value.Obj?
    && i < |at.value.entries|
    && TypeName(at.value.entries) == Some(parent)
    && at.value.entries[i].key != "type"
    && child in ChildShapes(at.value.entries[i].value)
    && s == Render(parent, at.value.entries[i].key, child)
  }

  /** Some reachable typed object holds `s` and neither name it pairs is opaque. Nothing is asked
      of the nodes above that object: an opaque one is descended into like any other. */
  ghost predicate Gradable(n: Json, hidden: set<string>, s: Slot) {
    exists path, i, parent, child ::
      Holds(n, path, i, parent, child, s) && parent !in hidden && child !in hidden
  }

  lemma {:induction false} HoldsBelow(n: Json, k: nat, child: Json, hidden: set<string>, s: Slot)
    requires (n.Arr? && k < |n.items| && child == n.items[k]) ||
             (n.Obj? && k < |n.entries| && child == n.entries[k].value)
    requires Gradable(child, hidden, s)
    ensures Gradable(n, hidden, s)
  {
    var path, i, parent, c :| Holds(child, path, i, parent, c, s) && parent !in hidden && c !in hidden;
    var longer := [k] + path;
    assert longer[1..] == path;
    assert NodeAt(n, longer) == NodeAt(child, path);
    assert Holds(n, longer, i, parent, c, s);
  }

  lemma {:induction false} SlotsAreGradable(n: Json, hidden: set<string>, s: Slot)
    requires s in Slots(n, hidden)
    ensures Gradable(n, hidden, s)
    decreases n
  {
    match n
    case Arr(items) =>
      var each := seq(|items|, i requires 0 <= i < |items| => Slots(items[i], hidden));
      var k :| 0 <= k < |each| && s in each[k];
      SlotsAreGradable(items[k], hidden, s);
      HoldsBelow(n, k, items[k], hidden, s);
    case Obj(entries) =>
      var parent := TypeName(entries);
      var each := seq(|entries|, i requires 0 <= i < |entries| =>
        PropertySlots(parent, entries[i], hidden) + Slots(entries[i].value, hidden));
      assert Slots(n, hidden) == Union(each);
      var k :| 0 <= k < |each| && s in each[k];
      if s in PropertySlots(parent, entries[k], hidden) {
        var c :| c in ChildShapes(entries[k].value) && c !in hidden && s == Render(parent.value, entries[k].key, c);
        assert NodeAt(n, []) == Some(n);
        assert Holds(n, [], k, parent.value, c, s);
      } else {
        SlotsAreGradable(entries[k].value, hidden, s);
        HoldsBelow(n, k, entries[k].value, hidden, s);
      }
    case _ =>
  }

  lemma {:induction false} HeldSlotsAreCollected(
      n: Json, path: seq<nat>, i: nat, parent: string, child: string, hidden: set<string>, s: Slot)
    requires Holds(n, path, i, parent, child, s) && parent !in hidden && child !in hidden
    ensures s in Slots(n, hidden)
    decreases path
  {
    if n.Arr? {
      var each := seq(|n.items|, k requires 0 <= k < |n.items| => Slots(n.items[k], hidden));
      HeldSlotsAreCollected(n.items[path[0]], path[1..], i, parent, child, hidden, s);
      assert s in each[path[0]];
    } else {
      var each := seq(|n.entries|, k requires 0 <= k < |n.entries| =>
        PropertySlots(TypeName(n.entries), n.entries[k], hidden) + Slots(n.entries[k].value, hidden));
      assert Slots(n, hidden) == Union(each);
      if path == [] {
        assert NodeAt(n, path) == Some(n);
        assert s in each[i];
      } else {
        HeldSlotsAreCollected(n.entries[path[0]].value, path[1..], i, parent, child, hidden, s);
        assert s in each[path[0]];
      }
    }
  }

  /** The accumulated set is exactly the gradable slots of the tree. */
  lemma {:induction false} SlotsExact(n: Json, hidden: set<string>, s: Slot)
    ensures s in Slots(n, hidden) <==> Gradable(n, hidden, s)
  {
    if s in Slots(n, hidden) {
      SlotsAreGradable(n, hidden, s);
    }
    if Gradable(n, hidden, s) {
      var path, i, parent, child :|
        Holds(n, path, i, parent, child, s) && parent !in hidden && child !in hidden;
      HeldSlotsAreCollected(n, path, i, parent, child, hidden, s);
    }
  }

  /** The object's `type`, its first if it had several, is the string `t`. */
  ghost predicate TypedAs(entries: seq<Entry>, t: string) {
    exists i :: 0 <= i < |entries| && entries[i] == Entry("type", Str(t)) &&
                forall j :: 0 <= j < i ==> entries[j].key != "type"
  }

  /** A child's own name: its type, `#obj` for an object of none, `#scalar` for anything else. */
  ghost predicate Named(v: Json, name: string) {
    if !v.Obj? then name == "#scalar"
    else if exists t :: TypedAs(v.entries, t) then TypedAs(v.entries, name)
    else name == "#obj"
  }

  /** What a property's value registers under: each item of an array, `#empty` for none, or the
      value itself. */
  ghost predicate Registers(v: Json, name: string) {
    if !v.Arr? then Named(v, name)
    else if v.items == [] then name == "#empty"
    else exists i :: 0 <= i < |v.items| && Named(v.items[i], name)
  }

  /** The object at `path` is typed `parent`, its `i`th property is not its type and registers
      under `child`, and `s` is `parent.key->child`. */
  ghost predicate Shows(n: Json, path: seq<nat>, i: nat, parent: string, child: string, s: Slot) {
    var at := NodeAt(n, path);
    && at.Some? && at.value.Obj?
    && i < |at.value.entries|
    && TypedAs(at.value.entries, parent)
    && at.value.entries[i].key != "type"
    && Registers(at.value.entries[i].value, child)
    && s == parent + "." + at.value.entries[i].key + "->" + child
  }

  lemma {:induction false} TypeNameMeans(entries: seq<Entry>, t: string)
    ensures TypeName(entries) == Some(t) <==> TypedAs(entries, t)
  {
    if entries != [] {
      var first, rest := entries[0], entries[1..];
      TypeNameMeans(rest, t);
      if first.key == "type" {
        assert first.value == Str(t) ==> TypedAs(entries, t);
      } else {
        if TypedAs(rest, t) {
          var i :| 0 <= i < |rest| && rest[i] == Entry("type", Str(t)) && forall j :: 0 <= j < i ==> rest[j].key != "type";
          assert entries[i + 1] == rest[i] && forall j :: 0 < j < i + 1 ==> entries[j] == rest[j - 1];
        }
        if TypedAs(entries, t) {
          var i :| 0 <= i < |entries| && entries[i] == Entry("type", Str(t)) && forall j :: 0 <= j < i ==> entries[j].key != "type";
          assert rest[i - 1] == entries[i] && forall j :: 0 <= j < i - 1 ==> rest[j] == entries[j + 1];
        }
      }
    }
  }

  lemma NamedMeans(v: Json, name: string)
    ensures Shape(v) == name <==> Named(v, name)
  {
    if v.Obj? {
      TypeNameMeans(v.entries, name);
      if TypeName(v.entries).Some? {
        TypeNameMeans(v.entries, TypeName(v.entries).value);
      } else if t :| TypedAs(v.entries, t) {
        TypeNameMeans(v.entries, t);
      }
    }
  }

  lemma RegistersMeans(v: Json, name: string)
    ensures name in ChildShapes(v) <==> Registers(v, name)
  {
    NamedMeans(v, name);
    if v.Arr? {
      forall i | 0 <= i < |v.items|
        ensures Shape(v.items[i]) == name <==> Named(v.items[i], name)
      {
        NamedMeans(v.items[i], name);
      }
    }
  }

  lemma ShowsMeans(n: Json, path: seq<nat>, i: nat, parent: string, child: string, s: Slot)
    ensures Holds(n, path, i, parent, child, s) <==> Shows(n, path, i, parent, child, s)
  {
    var at := NodeAt(n, path);
    if at.Some? && at.value.Obj? && i < |at.value.entries| {
      TypeNameMeans(at.value.entries, parent);
      RegistersMeans(at.value.entries[i].value, child);
    }
  }

  /** The collected slots, read off the tree itself. */
  lemma SlotsDeclared(n: Json, hidden: set<string>, s: Slot)
    ensures s in Slots(n, hidden) <==>
            exists path, i, parent, child :: Shows(n, path, i, parent, child, s) && parent !in hidden && child !in hidden
  {
    hide Slots, Shows, Holds;
    SlotsExact(n, hidden, s);
    forall path, i, parent, child
      ensures Holds(n, path, i, parent, child, s) <==> Shows(n, path, i, parent, child, s)
    {
      ShowsMeans(n, path, i, parent, child, s);
    }
  }

  /** Naming fewer types opaque only adds slots: a region that becomes typed re-enters the cover. */
  lemma TypingARegionAddsItsSlots(n: Json, hidden: set<string>, fewer: set<string>)
    requires fewer <= hidden
    ensures Slots(n, fewer) >= Slots(n, hidden)
  {
    forall s | s in Slots(n, hidden)
      ensures s in Slots(n, fewer)
    {
      SlotsExact(n, hidden, s);
      SlotsExact(n, fewer, s);
      var path, i, parent, child :|
        Holds(n, path, i, parent, child, s) && parent !in hidden && child !in hidden;
    }
  }

  // ----- order independence -----

  ghost predicate IsPermutation(p: seq<nat>, n: nat) {
    && |p| == n
    && (forall i :: 0 <= i < n ==> p[i] < n)
    && (forall i, j :: 0 <= i < j < n ==> p[i] != p[j])
    && (forall j :: 0 <= j < n ==> j in p)
  }

  /** The same tree up to the order of keys and of array elements, at every depth. */
  ghost predicate Reordered(a: Json, b: Json)
    decreases a
  {
    match a
    case Arr(xs) =>
      b.Arr? && exists p ::
        && IsPermutation(p, |xs|) && |b.items| == |xs|
        && forall i :: 0 <= i < |xs| ==> Reordered(xs[i], b.items[p[i]])
    case Obj(xs) =>
      b.Obj? && DistinctKeys(xs) && DistinctKeys(b.entries) && exists p ::
        && IsPermutation(p, |xs|) && |b.entries| == |xs|
        && forall i :: 0 <= i < |xs| ==>
             xs[i].key == b.entries[p[i]].key && Reordered(xs[i].value, b.entries[p[i]].value)
    case _ => a == b
  }

  lemma {:induction false} LookupFinds(entries: seq<Entry>, key: string, i: nat)
    requires DistinctKeys(entries) && i < |entries| && entries[i].key == key
    ensures Lookup(entries, key) == Some(entries[i].value)
  {
    if i > 0 {
      LookupFinds(entries[1..], key, i - 1);
    }
  }

  lemma {:induction false} LookupMisses(entries: seq<Entry>, key: string)
    requires forall i :: 0 <= i < |entries| ==> entries[i].key != key
    ensures Lookup(entries, key) == None
  {
    if entries != [] {
      LookupMisses(entries[1..], key);
    }
  }

  lemma {:induction false} PermutedTypeName(xs: seq<Entry>, ys: seq<Entry>, p: seq<nat>)
    requires DistinctKeys(xs) && DistinctKeys(ys) && IsPermutation(p, |xs|) && |ys| == |xs|
    requires forall i :: 0 <= i < |xs| ==> xs[i].key == ys[p[i]].key
    requires forall i :: 0 <= i < |xs| && (xs[i].value.Str? || ys[p[i]].value.Str?) ==>
        xs[i].value == ys[p[i]].value
    ensures TypeName(xs) == TypeName(ys)
  {
    if i :| 0 <= i < |xs| && xs[i].key == "type" {
      LookupFinds(xs, "type", i);
      LookupFinds(ys, "type", p[i]);
    } else {
      LookupMisses(xs, "type");
      forall j | 0 <= j < |ys|
        ensures ys[j].key != "type"
      {
        assert j in p;
        var i :| 0 <= i < |p| && p[i] == j;
        assert xs[i].key == ys[p[i]].key;
      }
      LookupMisses(ys, "type");
    }
  }

  lemma {:induction false} ReorderedShape(a: Json, b: Json)
    requires Reordered(a, b)
    ensures Shape(a) == Shape(b)
    ensures a.Obj? ==> TypeName(a.entries) == TypeName(b.entries)
  {
    if a.Obj? {
      var xs, ys := a.entries, b.entries;
      var p :| IsPermutation(p, |xs|) && |ys| == |xs| &&
               forall i :: 0 <= i < |xs| ==> xs[i].key == ys[p[i]].key && Reordered(xs[i].value, ys[p[i]].value);
      PermutedTypeName(xs, ys, p);
    }
  }

  lemma {:induction false} PermutedShapes(xs: seq<Json>, ys: seq<Json>, p: seq<nat>)
    requires IsPermutation(p, |xs|) && |ys| == |xs|
    requires forall i :: 0 <= i < |xs| ==> Shape(xs[i]) == Shape(ys[p[i]])
    ensures ChildShapes(Arr(xs)) == ChildShapes(Arr(ys))
  {
    forall c | c in ChildShapes(Arr(ys)) && |ys| > 0
      ensures c in ChildShapes(Arr(xs))
    {
      var j :| 0 <= j < |ys| && c == Shape(ys[j]);
      assert j in p;
      var i :| 0 <= i < |p| && p[i] == j;
      assert c == Shape(xs[i]);
    }
    forall c | c in ChildShapes(Arr(xs)) && |xs| > 0
      ensures c in ChildShapes(Arr(ys))
    {
      var i :| 0 <= i < |xs| && c == Shape(xs[i]);
      assert c == Shape(ys[p[i]]);
    }
  }

  lemma {:induction false} ReorderedChildShapes(a: Json, b: Json)
    requires Reordered(a, b)
    ensures ChildShapes(a) == ChildShapes(b)
  {
    ReorderedShape(a, b);
    if a.Arr? {
      var xs, ys := a.items, b.items;
      var p :| IsPermutation(p, |xs|) && |ys| == |xs| &&
               forall i :: 0 <= i < |xs| ==> Reordered(xs[i], ys[p[i]]);
      forall i | 0 <= i < |xs|
        ensures Shape(xs[i]) == Shape(ys[p[i]])
      {
        ReorderedShape(xs[i], ys[p[i]]);
      }
      PermutedShapes(xs, ys, p);
    }
  }

  /** Two families of slot sets that agree up to a permutation have one union. */
  lemma {:induction false} PermutedUnion(xs: seq<set<Slot>>, ys: seq<set<Slot>>, p: seq<nat>)
    requires IsPermutation(p, |xs|) && |ys| == |xs|
    requires forall i :: 0 <= i < |xs| ==> xs[i] == ys[p[i]]
    ensures Union(xs) == Union(ys)
  {
    forall s | s in Union(ys)
      ensures s in Union(xs)
    {
      var j :| 0 <= j < |ys| && s in ys[j];
      assert j in p;
      var i :| 0 <= i < |p| && p[i] == j;
      assert s in xs[i];
    }
    forall s | s in Union(xs)
      ensures s in Union(ys)
    {
      var i :| 0 <= i < |xs| && s in xs[i];
      assert s in ys[p[i]];
    }
  }

  /** Reordering keys or array elements anywhere in the tree changes no slot. */
  lemma {:induction false} SlotsOrderIndependent(a: Json, b: Json, hidden: set<string>)
    requires Reordered(a, b)
    ensures Slots(a, hidden) == Slots(b, hidden)
    decreases a, 1
  {
    match a
    case Arr(xs) => ItemsOrderIndependent(xs, b.items, hidden);
    case Obj(xs) => EntriesOrderIndependent(xs, b.entries, hidden);
    case _ =>
  }

  lemma {:induction false} ItemsOrderIndependent(xs: seq<Json>, ys: seq<Json>, hidden: set<string>)
    requires Reordered(Arr(xs), Arr(ys))
    ensures Slots(Arr(xs), hidden) == Slots(Arr(ys), hidden)
    decreases Arr(xs), 0
  {
    var p :| IsPermutation(p, |xs|) && |ys| == |xs| &&
             forall i :: 0 <= i < |xs| ==> Reordered(xs[i], ys[p[i]]);
    forall i | 0 <= i < |xs|
      ensures Slots(xs[i], hidden) == Slots(ys[p[i]], hidden)
    {
      SlotsOrderIndependent(xs[i], ys[p[i]], hidden);
    }
    PermutedUnion(seq(|xs|, i requires 0 <= i < |xs| => Slots(xs[i], hidden)),
                  seq(|ys|, i requires 0 <= i < |ys| => Slots(ys[i], hidden)), p);
  }

  lemma {:induction false} EntriesOrderIndependent(xs: seq<Entry>, ys: seq<Entry>, hidden: set<string>)
    requires Reordered(Obj(xs), Obj(ys))
    ensures Slots(Obj(xs), hidden) == Slots(Obj(ys), hidden)
    decreases Obj(xs), 0
  {
    ReorderedShape(Obj(xs), Obj(ys));
    var parent := TypeName(xs);
    var p :| IsPermutation(p, |xs|) && |ys| == |xs| &&
             forall i :: 0 <= i < |xs| ==> xs[i].key == ys[p[i]].key && Reordered(xs[i].value, ys[p[i]].value);
    var xSlots := seq(|xs|, i requires 0 <= i < |xs| => PropertySlots(parent, xs[i], hidden) + Slots(xs[i].value, hidden));
    var ySlots := seq(|ys|, i requires 0 <= i < |ys| => PropertySlots(parent, ys[i], hidden) + Slots(ys[i].value, hidden));
    forall i | 0 <= i < |xs|
      ensures xSlots[i] == ySlots[p[i]]
    {
      SlotsOrderIndependent(xs[i].value, ys[p[i]].value, hidden);
      ReorderedChildShapes(xs[i].value, ys[p[i]].value);
    }
    assert Slots(Obj(xs), hidden) == Union(xSlots) && Slots(Obj(ys), hidden) == Union(ySlots);
    PermutedUnion(xSlots, ySlots, p);
  }
}
