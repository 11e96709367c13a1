/**
 * The direct copier behind `structuredClone` on Hermes
 * (apps/VoteTorrentAuthority/polyfills/hermes-structured-clone.js).
 *
 * A JavaScript heap is a map from references to objects. The copier allocates copies in that
 * heap and records them in a memo while it recurses; the theorem is that what it leaves behind
 * is an isomorphic, disjoint copy of exactly the graph reachable from the argument.
 */
module StructuredClone {
  import opened Common

  type Ref = nat

  /** Anything a variable can hold. `Primitive` covers undefined, null, booleans, numbers, bigints and strings. */
  datatype Value = Primitive(id: int) | Callable | SymbolValue | Pointer(ref: Ref)

  datatype Object =
    | Plain(nullProto: bool, props: seq<(string, Value)>)
    | ArrayObject(slots: seq<Option<Value>>)          // None is a hole
    | View(constructorName: string, buffer: Ref, byteOffset: nat, size: nat)
    | ArrayBuffer(bytes: seq<bv8>)
    | DateObject(time: Option<int>)                   // None is an invalid date
    | RegExpObject(source: string, flags: string, lastIndex: nat)
    | MapObject(entries: seq<(Value, Value)>)
    | SetObject(items: seq<Value>)
    | Exotic                                          // any other prototype

  type Heap = map<Ref, Object>
  type Memo = map<Ref, Ref>

  // ---------------------------------------------------------------- the graph

  /** `w` is stored directly in object `o`. */
  ghost predicate Child(o: Object, w: Value) {
    match o
    case Plain(_, props) => exists i :: 0 <= i < |props| && props[i].1 == w
    case ArrayObject(slots) => exists i :: 0 <= i < |slots| && slots[i] == Some(w)
    case View(_, buffer, _, _) => w == Pointer(buffer)
    case MapObject(entries) => exists i :: 0 <= i < |entries| && (entries[i].0 == w || entries[i].1 == w)
    case SetObject(items) => exists i :: 0 <= i < |items| && items[i] == w
    case _ => false
  }

  ghost predicate Edge(h: Heap, v: Value, w: Value) {
    v.Pointer? && v.ref in h && Child(h[v.ref], w)
  }

  ghost predicate Path(h: Heap, p: seq<Value>) {
    |p| > 0 && forall i :: 0 <= i < |p| - 1 ==> Edge(h, p[i], p[i + 1])
  }

  ghost predicate Reaches(h: Heap, v: Value, w: Value) {
    exists p :: Path(h, p) && p[0] == v && p[|p| - 1] == w
  }

  /** A value `cloneValue` answers UNSUPPORTED for. */
  ghost predicate Unsupported(h: Heap, v: Value) {
    v.Callable? || v.SymbolValue? || (v.Pointer? && v.ref in h && h[v.ref].Exotic?)
  }

  /** What the language guarantees of every heap: no dangling reference, no duplicate key, and a view's buffer is a buffer. */
  ghost predicate ObjectOk(h: Heap, o: Object) {
    && (forall w :: Child(o, w) && w.Pointer? ==> w.ref in h)
    && (o.Plain? ==> forall i, j :: 0 <= i < j < |o.props| ==> o.props[i].0 != o.props[j].0)
    && (o.MapObject? ==> forall i, j :: 0 <= i < j < |o.entries| ==> o.entries[i].0 != o.entries[j].0)
    && (o.SetObject? ==> forall i, j :: 0 <= i < j < |o.items| ==> o.items[i] != o.items[j])
    && (o.View? ==> o.buffer in h && (h[o.buffer].ArrayBuffer? || h[o.buffer].Exotic?))
  }

  ghost predicate HeapOk(h: Heap) {
    forall r :: r in h ==> ObjectOk(h, h[r])
  }

  ghost predicate ValueOk(h: Heap, v: Value) {
    v.Pointer? ==> v.ref in h
  }

  // ---------------------------------------------------------------- copies

  function Rename(v: Value, m: Memo): Value {
    if v.Pointer? && v.ref in m then Pointer(m[v.ref]) else v
  }

  function RenameProps(props: seq<(string, Value)>, m: Memo): seq<(string, Value)> {
    seq(|props|, i requires 0 <= i < |props| => (props[i].0, Rename(props[i].1, m)))
  }

  function RenameSlots(slots: seq<Option<Value>>, m: Memo): seq<Option<Value>> {
    seq(|slots|, i requires 0 <= i < |slots| =>
      if slots[i].Some? then Some(Rename(slots[i].value, m)) else None)
  }

  function RenameEntries(entries: seq<(Value, Value)>, m: Memo): seq<(Value, Value)> {
    seq(|entries|, i requires 0 <= i < |entries| => (Rename(entries[i].0, m), Rename(entries[i].1, m)))
  }

  function RenameItems(items: seq<Value>, m: Memo): seq<Value> {
    seq(|items|, i requires 0 <= i < |items| => Rename(items[i], m))
  }

  /** The copy of `o` when its children are copied according to `m`: same keys, same order, same holes, same sizes. */
  function CopyOf(o: Object, m: Memo): Object {
    match o
    case Plain(_, props) => Plain(false, RenameProps(props, m))
    case ArrayObject(slots) => ArrayObject(RenameSlots(slots, m))
    case View(c, buffer, off, size) => View(c, if buffer in m then m[buffer] else buffer, off, size)
    case RegExpObject(source, flags, _) => RegExpObject(source, flags, 0)
    case MapObject(entries) => MapObject(RenameEntries(entries, m))
    case SetObject(items) => SetObject(RenameItems(items, m))
    case _ => o
  }

  /** `v` is a primitive, or an object that already has a copy. */
  ghost predicate Mapped(v: Value, m: Memo) {
    v.Primitive? || (v.Pointer? && v.ref in m)
  }

  ghost predicate Injective(m: Memo) {
    forall a, b :: a in m && b in m && a != b ==> m[a] != m[b]
  }

  /** The copy of `r` is finished: every child has a copy, and the copy of `r` is `r` renamed. */
  ghost predicate Complete(source: Heap, heap: Heap, m: Memo, r: Ref)
    requires r in source && r in m
  {
    && !source[r].Exotic?
    && (forall w :: Child(source[r], w) ==> Mapped(w, m))
    && m[r] in heap && heap[m[r]] == CopyOf(source[r], m)
  }

  /** Heap `h'` and value `v'` are a clone of `v` in `h`, witnessed by the renaming `m`. */
  ghost predicate IsClone(h: Heap, v: Value, h': Heap, v': Value, m: Memo) {
    && m.Keys <= h.Keys
    && (forall r :: r in m <==> r in h && Reaches(h, v, Pointer(r)))
    && Injective(m)
    && (forall r :: r in m ==> m[r] !in h)
    && h'.Keys == h.Keys + m.Values
    && (forall r :: r in h ==> h'[r] == h[r])
    && (forall r :: r in m ==> Complete(h, h', m, r))
    && Mapped(v, m) && v' == Rename(v, m)
  }

  // ---------------------------------------------------------------- what a copy holds, part by part

  /** A primitive is itself, and a reference is the reference to the copy. */
  ghost predicate Mirrors(v: Value, w: Value, m: Memo) {
    (v.Primitive? && w == v) || (v.Pointer? && v.ref in m && w == Pointer(m[v.ref]))
  }

  /** `c` is `o` over again: the same kind with the same contents, its references led to the copies. */
  ghost predicate Holds(o: Object, c: Object, m: Memo) {
    match o
    case Plain(_, props) =>
      && c.Plain? && !c.nullProto && |c.props| == |props|
      && forall i :: 0 <= i < |props| ==> c.props[i].0 == props[i].0 && Mirrors(props[i].1, c.props[i].1, m)
    case ArrayObject(slots) =>
      && c.ArrayObject? && |c.slots| == |slots|
      && forall i :: 0 <= i < |slots| ==>
           (slots[i].Some? <==> c.slots[i].Some?) && (slots[i].Some? ==> Mirrors(slots[i].value, c.slots[i].value, m))
    case View(name, buffer, byteOffset, size) =>
      && c.View? && c.constructorName == name && c.byteOffset == byteOffset && c.size == size
      && Mirrors(Pointer(buffer), Pointer(c.buffer), m)
    case ArrayBuffer(bytes) => c.ArrayBuffer? && c.bytes == bytes
    case DateObject(time) => c.DateObject? && c.time == time
    case RegExpObject(source, flags, _) => c.RegExpObject? && c.source == source && c.flags == flags && c.lastIndex == 0
    case MapObject(entries) =>
      && c.MapObject? && |c.entries| == |entries|
      && forall i :: 0 <= i < |entries| ==>
           Mirrors(entries[i].0, c.entries[i].0, m) && Mirrors(entries[i].1, c.entries[i].1, m)
    case SetObject(items) =>
      && c.SetObject? && |c.items| == |items|
      && forall i :: 0 <= i < |items| ==> Mirrors(items[i], c.items[i], m)
    case Exotic => false
  }

  lemma CompleteHolds(h: Heap, h': Heap, m: Memo, r: Ref)
    requires r in h && r in m && Complete(h, h', m, r)
    ensures m[r] in h' && Holds(h[r], h'[m[r]], m)
  {
    var o := h[r];
    match o
    case Plain(_, props) => forall i | 0 <= i < |props| ensures Mapped(props[i].1, m) { assert Child(o, props[i].1); }
    case ArrayObject(slots) =>
      forall i | 0 <= i < |slots| && slots[i].Some? ensures Mapped(slots[i].value, m) { assert Child(o, slots[i].value); }
    case View(_, buffer, _, _) => assert Child(o, Pointer(buffer));
    case MapObject(entries) =>
      forall i | 0 <= i < |entries| ensures Mapped(entries[i].0, m) && Mapped(entries[i].1, m) {
        assert Child(o, entries[i].0) && Child(o, entries[i].1);
      }
    case SetObject(items) => forall i | 0 <= i < |items| ensures Mapped(items[i], m) { assert Child(o, items[i]); }
    case _ =>
  }

  /** Every copy of a clone holds what its source holds. */
  lemma CloneHolds(h: Heap, v: Value, h': Heap, v': Value, m: Memo, r: Ref)
    requires IsClone(h, v, h', v', m) && r in m
    ensures r in h && m[r] in h' && Holds(h[r], h'[m[r]], m)
  {
    hide Reaches, Complete, Holds;
    CompleteHolds(h, h', m, r);
  }

  // ---------------------------------------------------------------- paths

  lemma ReachesSelf(h: Heap, v: Value)
    ensures Reaches(h, v, v)
  {
    assert Path(h, [v]);
  }

  lemma ReachesVia(h: Heap, v: Value, u: Value, w: Value)
    requires Edge(h, v, u) && Reaches(h, u, w)
    ensures Reaches(h, v, w)
  {
    var p :| Path(h, p) && p[0] == u && p[|p| - 1] == w;
    var q := [v] + p;
    forall i | 0 <= i < |q| - 1
      ensures Edge(h, q[i], q[i + 1])
    {
      if i > 0 { assert q[i] == p[i - 1] && q[i + 1] == p[i]; }
    }
    assert Path(h, q);
  }

  lemma ReachesThen(h: Heap, v: Value, u: Value, w: Value)
    requires Reaches(h, v, u) && Edge(h, u, w)
    ensures Reaches(h, v, w)
  {
    var p :| Path(h, p) && p[0] == v && p[|p| - 1] == u;
    var q := p + [w];
    forall i | 0 <= i < |q| - 1
      ensures Edge(h, q[i], q[i + 1])
    {
      if i < |p| - 1 { assert Edge(h, p[i], p[i + 1]); }
    }
    assert Path(h, q);
  }

  /** A property that every edge carries forward holds at the end of a path if it holds at its start. */
  lemma {:induction false} AlongPath(h: Heap, p: seq<Value>, k: nat, m: Memo)
    requires Path(h, p) && k < |p|
    requires Mapped(p[0], m)
    requires forall r, w :: r in m && Edge(h, Pointer(r), w) ==> Mapped(w, m)
    ensures Mapped(p[k], m)
  {
    if k > 0 {
      AlongPath(h, p, k - 1, m);
      assert Edge(h, p[k - 1], p[k - 1 + 1]);
    }
  }

  lemma ClosedReach(h: Heap, v: Value, w: Value, m: Memo)
    requires Reaches(h, v, w)
    requires Mapped(v, m)
    requires forall r, u :: r in m && Edge(h, Pointer(r), u) ==> Mapped(u, m)
    ensures Mapped(w, m)
  {
    var p :| Path(h, p) && p[0] == v && p[|p| - 1] == w;
    AlongPath(h, p, |p| - 1, m);
  }

  // ---------------------------------------------------------------- renaming

  ghost predicate Extends(m: Memo, m': Memo) {
    forall r :: r in m ==> r in m' && m'[r] == m[r]
  }

  lemma CopyStable(o: Object, m: Memo, m': Memo)
    requires Extends(m, m')
    requires forall w :: Child(o, w) ==> Mapped(w, m)
    ensures CopyOf(o, m') == CopyOf(o, m)
  {
    match o
    case Plain(_, props) =>
      forall i | 0 <= i < |props| ensures Rename(props[i].1, m') == Rename(props[i].1, m) {
        assert Child(o, props[i].1);
      }
      assert RenameProps(props, m') == RenameProps(props, m);
    case ArrayObject(slots) =>
      forall i | 0 <= i < |slots| && slots[i].Some?
        ensures Rename(slots[i].value, m') == Rename(slots[i].value, m)
      {
        assert slots[i] == Some(slots[i].value);
        assert Child(o, slots[i].value);
      }
      assert RenameSlots(slots, m') == RenameSlots(slots, m);
    case View(_, buffer, _, _) => assert Child(o, Pointer(buffer));
    case MapObject(entries) =>
      forall i | 0 <= i < |entries|
        ensures Rename(entries[i].0, m') == Rename(entries[i].0, m)
        ensures Rename(entries[i].1, m') == Rename(entries[i].1, m)
      {
        assert Child(o, entries[i].0) && Child(o, entries[i].1);
      }
      assert RenameEntries(entries, m') == RenameEntries(entries, m);
    case SetObject(items) =>
      forall i | 0 <= i < |items| ensures Rename(items[i], m') == Rename(items[i], m) {
        assert Child(o, items[i]);
      }
      assert RenameItems(items, m') == RenameItems(items, m);
    case _ =>
  }

  lemma CompleteStable(source: Heap, heap: Heap, m: Memo, heap': Heap, m': Memo, r: Ref)
    requires r in source && r in m && Complete(source, heap, m, r)
    requires Extends(m, m')
    requires m[r] in heap' && heap'[m[r]] == heap[m[r]]
    ensures Complete(source, heap', m', r)
  {
    CopyStable(source[r], m, m');
  }

  lemma RenameInjective(v: Value, w: Value, m: Memo)
    requires Mapped(v, m) && Mapped(w, m) && Injective(m) && v != w
    ensures Rename(v, m) != Rename(w, m)
  {
    if v.Pointer? && w.Pointer? { assert m[v.ref] != m[w.ref]; }
  }

  /** An ArrayBuffer has no children, so nothing but itself is reachable from it. */
  lemma BufferReachesItself(h: Heap, buffer: Ref, r: Ref)
    requires buffer in h && (h[buffer].ArrayBuffer? || h[buffer].Exotic?)
    requires Reaches(h, Pointer(buffer), Pointer(r))
    ensures r == buffer
  {
    var p :| Path(h, p) && p[0] == Pointer(buffer) && p[|p| - 1] == Pointer(r);
    assert |p| > 1 ==> Edge(h, p[0], p[0 + 1]);
  }

  // ---------------------------------------------------------------- the copier

  /** `Map.prototype.set` on an insertion-ordered list of entries. */
  function MapSet(entries: seq<(Value, Value)>, key: Value, value: Value): seq<(Value, Value)> {
    if entries == [] then [(key, value)]
    else if entries[0].0 == key then [(key, value)] + entries[1..]
    else [entries[0]] + MapSet(entries[1..], key, value)
  }

  lemma {:induction false} MapSetFresh(entries: seq<(Value, Value)>, key: Value, value: Value)
    requires forall i :: 0 <= i < |entries| ==> entries[i].0 != key
    ensures MapSet(entries, key, value) == entries + [(key, value)]
  {
    if entries != [] {
      MapSetFresh(entries[1..], key, value);
      assert entries == [entries[0]] + entries[1..];
    }
  }

  /** `Set.prototype.add`. */
  function SetAdd(items: seq<Value>, v: Value): seq<Value> {
    if v in items then items else items + [v]
  }

  /** Creating or overwriting the own property `key`. */
  function DefineProperty(props: seq<(string, Value)>, key: string, value: Value): seq<(string, Value)> {
    if props == [] then [(key, value)]
    else if props[0].0 == key then [(key, value)] + props[1..]
    else [props[0]] + DefineProperty(props[1..], key, value)
  }

  lemma {:induction false} DefineFresh(props: seq<(string, Value)>, key: string, value: Value)
    requires forall i :: 0 <= i < |props| ==> props[i].0 != key
    ensures DefineProperty(props, key, value) == props + [(key, value)]
  {
    if props != [] {
      DefineFresh(props[1..], key, value);
      assert props == [props[0]] + props[1..];
    }
  }

  const PROTO_KEY := "__proto__"

  /** `copy[key] = value`: assigning to `__proto__` runs the inherited setter, so it makes no own property. */
  function AssignProperty(props: seq<(string, Value)>, key: string, value: Value): seq<(string, Value)> {
    if key == PROTO_KEY then props else DefineProperty(props, key, value)
  }

  /** The source is untouched, and `memo` and `origin` are inverse bijections between sources met and objects added. */
  ghost predicate Sound(source: Heap, heap: Heap, memo: Memo, origin: Memo) {
    && (forall r :: r in source ==> r in heap && heap[r] == source[r])
    && (forall r :: r in memo ==> r in source && memo[r] in origin && origin[memo[r]] == r)
    && (forall q :: q in origin ==> q in heap && q !in source && origin[q] in memo && memo[origin[q]] == q)
    && (forall q :: q in heap ==> q in source || q in origin)
  }

  ghost predicate ValidState(source: Heap, heap: Heap, memo: Memo, origin: Memo, next: Ref) {
    HeapOk(source) && Sound(source, heap, memo, origin) && forall r :: r in heap ==> r < next
  }

  /** What a call may do while copying `v`: add copies of objects reachable from `v`, leaving every existing object alone. */
  ghost predicate Effect(source: Heap, v: Value, h0: Heap, m0: Memo, h1: Heap, m1: Memo) {
    && Extends(m0, m1)
    && (forall r :: r in h0 ==> r in h1 && h1[r] == h0[r])
    && (forall r :: r in m1 && r !in m0 ==> r in source && Reaches(source, v, Pointer(r)))
  }

  /** Every object met since `m0`, apart from those in `open`, has its finished copy. */
  ghost predicate Finished(source: Heap, m0: Memo, h1: Heap, m1: Memo, open: set<Ref>) {
    forall r :: r in m1 && r !in m0 && r !in open ==> r in source && Complete(source, h1, m1, r)
  }

  ghost predicate ReachesUnsupported(source: Heap, v: Value) {
    exists w :: Reaches(source, v, w) && Unsupported(source, w)
  }

  lemma UnsupportedItself(source: Heap, v: Value)
    requires Unsupported(source, v)
    ensures ReachesUnsupported(source, v)
  {
    ReachesSelf(source, v);
  }

  lemma UnsupportedBelow(source: Heap, src: Ref, u: Value)
    requires src in source && Child(source[src], u) && ReachesUnsupported(source, u)
    ensures ReachesUnsupported(source, Pointer(src))
  {
    var w :| Reaches(source, u, w) && Unsupported(source, w);
    ReachesVia(source, Pointer(src), u, w);
  }

  /** The state between two children of the object `src`, which is being copied into `copy`. */
  ghost predicate Midway(source: Heap, src: Ref, copy: Ref, h0: Heap, m0: Memo, h1: Heap, m1: Memo) {
    && src in source && src in m1 && m1[src] == copy && src !in m0 && copy in h1 && copy !in h0
    && Effect(source, Pointer(src), h0, m0, h1, m1)
    && Finished(source, m0, h1, m1, {src})
  }

  lemma MidwayStart(source: Heap, src: Ref, o: Object, h0: Heap, m0: Memo, o0: Memo, next: Ref)
    requires src in source && src !in m0 && ValidState(source, h0, m0, o0, next)
    ensures next !in h0 && Midway(source, src, next, h0, m0, h0[next := o], m0[src := next])
    ensures ValidState(source, h0[next := o], m0[src := next], o0[next := src], next + 1)
  {
    hide HeapOk, Reaches, Complete;
    ReachesSelf(source, Pointer(src));
  }

  lemma MidwayEnd(source: Heap, src: Ref, copy: Ref, h0: Heap, m0: Memo, h1: Heap, m1: Memo)
    requires Midway(source, src, copy, h0, m0, h1, m1) && Complete(source, h1, m1, src)
    ensures m1[src] == copy && Effect(source, Pointer(src), h0, m0, h1, m1) && Finished(source, m0, h1, m1, {})
  {
    hide Complete, Reaches;
  }

  lemma MidwayWrite(source: Heap, src: Ref, copy: Ref, o: Object, h0: Heap, m0: Memo,
                    h1: Heap, m1: Memo, o1: Memo, next: Ref)
    requires Midway(source, src, copy, h0, m0, h1, m1) && ValidState(source, h1, m1, o1, next)
    ensures Midway(source, src, copy, h0, m0, h1[copy := o], m1)
    ensures ValidState(source, h1[copy := o], m1, o1, next)
  {
    hide HeapOk, Sound, Effect, Finished;
    SoundAfterWrite(source, src, copy, o, h1, m1, o1);
    EffectAfterWrite(source, src, copy, o, h0, m0, h1, m1);
    FinishedAfterWrite(source, src, copy, o, m0, h1, m1, o1);
  }

  lemma SoundAfterWrite(source: Heap, src: Ref, copy: Ref, o: Object, h1: Heap, m1: Memo, o1: Memo)
    requires Sound(source, h1, m1, o1) && src in m1 && m1[src] == copy
    ensures Sound(source, h1[copy := o], m1, o1)
  {}

  lemma EffectAfterWrite(source: Heap, src: Ref, copy: Ref, o: Object, h0: Heap, m0: Memo, h1: Heap, m1: Memo)
    requires Effect(source, Pointer(src), h0, m0, h1, m1) && copy !in h0
    ensures Effect(source, Pointer(src), h0, m0, h1[copy := o], m1)
  {
    hide Reaches;
  }

  lemma EffectStep(source: Heap, src: Ref, u: Value, h0: Heap, m0: Memo, h1: Heap, m1: Memo, h2: Heap, m2: Memo)
    requires src in source && Child(source[src], u)
    requires Effect(source, Pointer(src), h0, m0, h1, m1) && Effect(source, u, h1, m1, h2, m2)
    ensures Effect(source, Pointer(src), h0, m0, h2, m2)
  {
    hide Reaches;
    forall r | r in m2 && r !in m0 && r !in m1 ensures Reaches(source, Pointer(src), Pointer(r)) {
      ReachesVia(source, Pointer(src), u, Pointer(r));
    }
  }

  lemma FinishedStep(source: Heap, src: Ref, m0: Memo, h1: Heap, m1: Memo, o1: Memo, h2: Heap, m2: Memo)
    requires Extends(m1, m2) && (forall r :: r in h1 ==> r in h2 && h2[r] == h1[r]) && Sound(source, h1, m1, o1)
    requires Finished(source, m0, h1, m1, {src}) && Finished(source, m1, h2, m2, {})
    ensures Finished(source, m0, h2, m2, {src})
  {
    hide Complete;
    forall r | r in m2 && r !in m0 && r != src ensures Complete(source, h2, m2, r) {
      if r in m1 { CompleteStable(source, h1, m1, h2, m2, r); }
    }
  }

  lemma FinishedAfterWrite(source: Heap, src: Ref, copy: Ref, o: Object, m0: Memo, h1: Heap, m1: Memo, o1: Memo)
    requires src in m1 && m1[src] == copy && Sound(source, h1, m1, o1) && Finished(source, m0, h1, m1, {src})
    ensures Finished(source, m0, h1[copy := o], m1, {src})
  {
    hide Complete;
    forall r | r in m1 && r !in m0 && r != src ensures Complete(source, h1[copy := o], m1, r) {
      CompleteStable(source, h1, m1, h1[copy := o], m1, r);
    }
  }

  // One iteration of each copying loop: the first k children renamed, then one more.

  lemma PropsStep(props: seq<(string, Value)>, k: nat, m1: Memo, m2: Memo)
    requires k < |props| && Extends(m1, m2)
    requires forall i, j :: 0 <= i < j < |props| ==> props[i].0 != props[j].0
    requires forall i :: 0 <= i < k ==> Mapped(props[i].1, m1)
    ensures DefineProperty(RenameProps(props[..k], m1), props[k].0, Rename(props[k].1, m2))
         == RenameProps(props[..k + 1], m2)
  {
    assert RenameProps(props[..k], m1) == RenameProps(props[..k], m2);
    DefineFresh(RenameProps(props[..k], m2), props[k].0, Rename(props[k].1, m2));
  }

  lemma SlotsStep(slots: seq<Option<Value>>, k: nat, m1: Memo, m2: Memo)
    requires k < |slots| && Extends(m1, m2)
    requires forall i :: 0 <= i < k && slots[i].Some? ==> Mapped(slots[i].value, m1)
    ensures |FirstSlots(slots, k, m1)| == |slots|
    ensures slots[k].Some? ==>
      FirstSlots(slots, k, m1)[k := Some(Rename(slots[k].value, m2))] == FirstSlots(slots, k + 1, m2)
    ensures slots[k].None? ==> FirstSlots(slots, k, m1) == FirstSlots(slots, k + 1, m2)
  {}

  lemma NoSlotsYet(slots: seq<Option<Value>>, m: Memo)
    ensures FirstSlots(slots, 0, m) == FirstSlots(slots, 0, map[])
  {}

  /** A copied array whose first `k` slots are filled. */
  function FirstSlots(slots: seq<Option<Value>>, k: nat, m: Memo): seq<Option<Value>>
    requires k <= |slots|
  {
    RenameSlots(slots[..k], m) + seq(|slots| - k, _ => None)
  }

  lemma EntriesStep(entries: seq<(Value, Value)>, k: nat, m1: Memo, m2: Memo)
    requires k < |entries| && Extends(m1, m2) && Injective(m2)
    requires forall i, j :: 0 <= i < j < |entries| ==> entries[i].0 != entries[j].0
    requires forall i :: 0 <= i < k ==> Mapped(entries[i].0, m1) && Mapped(entries[i].1, m1)
    requires Mapped(entries[k].0, m2)
    ensures MapSet(RenameEntries(entries[..k], m1), Rename(entries[k].0, m2), Rename(entries[k].1, m2))
         == RenameEntries(entries[..k + 1], m2)
  {
    assert RenameEntries(entries[..k], m1) == RenameEntries(entries[..k], m2);
    forall i | 0 <= i < k ensures Rename(entries[i].0, m2) != Rename(entries[k].0, m2) {
      RenameInjective(entries[i].0, entries[k].0, m2);
    }
    MapSetFresh(RenameEntries(entries[..k], m2), Rename(entries[k].0, m2), Rename(entries[k].1, m2));
  }

  lemma ItemsStep(items: seq<Value>, k: nat, m1: Memo, m2: Memo)
    requires k < |items| && Extends(m1, m2) && Injective(m2)
    requires forall i, j :: 0 <= i < j < |items| ==> items[i] != items[j]
    requires forall i :: 0 <= i < k ==> Mapped(items[i], m1)
    requires Mapped(items[k], m2)
    ensures SetAdd(RenameItems(items[..k], m1), Rename(items[k], m2)) == RenameItems(items[..k + 1], m2)
  {
    assert RenameItems(items[..k], m1) == RenameItems(items[..k], m2);
    forall i | 0 <= i < k ensures Rename(items[i], m2) != Rename(items[k], m2) {
      RenameInjective(items[i], items[k], m2);
    }
  }

  // The end of each copying loop.

  lemma PlainComplete(source: Heap, heap: Heap, m: Memo, r: Ref)
    requires r in source && r in m && m[r] in heap && source[r].Plain?
    requires forall i :: 0 <= i < |source[r].props| ==> Mapped(source[r].props[i].1, m)
    requires heap[m[r]] == Plain(false, RenameProps(source[r].props[..|source[r].props|], m))
    ensures Complete(source, heap, m, r)
  {
    assert source[r].props[..|source[r].props|] == source[r].props;
  }

  lemma ArrayComplete(source: Heap, heap: Heap, m: Memo, r: Ref)
    requires r in source && r in m && m[r] in heap && source[r].ArrayObject?
    requires forall i :: 0 <= i < |source[r].slots| && source[r].slots[i].Some? ==> Mapped(source[r].slots[i].value, m)
    requires heap[m[r]] == ArrayObject(FirstSlots(source[r].slots, |source[r].slots|, m))
    ensures Complete(source, heap, m, r)
  {
    var slots := source[r].slots;
    assert slots[..|slots|] == slots;
    assert RenameSlots(slots, m) + seq(0, _ => None) == RenameSlots(slots, m);
    forall w | Child(source[r], w) ensures Mapped(w, m) {
      var i :| 0 <= i < |slots| && slots[i] == Some(w);
    }
  }

  lemma MapComplete(source: Heap, heap: Heap, m: Memo, r: Ref)
    requires r in source && r in m && m[r] in heap && source[r].MapObject?
    requires forall i :: 0 <= i < |source[r].entries| ==>
               Mapped(source[r].entries[i].0, m) && Mapped(source[r].entries[i].1, m)
    requires heap[m[r]] == MapObject(RenameEntries(source[r].entries[..|source[r].entries|], m))
    ensures Complete(source, heap, m, r)
  {
    assert source[r].entries[..|source[r].entries|] == source[r].entries;
  }

  lemma SetComplete(source: Heap, heap: Heap, m: Memo, r: Ref)
    requires r in source && r in m && m[r] in heap && source[r].SetObject?
    requires forall i :: 0 <= i < |source[r].items| ==> Mapped(source[r].items[i], m)
    requires heap[m[r]] == SetObject(RenameItems(source[r].items[..|source[r].items|], m))
    ensures Complete(source, heap, m, r)
  {
    assert source[r].items[..|source[r].items|] == source[r].items;
  }

  /** Copying a view's buffer does not meet the view itself. */
  lemma NotBelowBuffer(source: Heap, src: Ref, h0: Heap, m0: Memo, h1: Heap, m1: Memo)
    requires src in source && ObjectOk(source, source[src]) && source[src].View? && src !in m0
    requires Effect(source, Pointer(source[src].buffer), h0, m0, h1, m1)
    ensures src !in m1
  {
    if src in m1 { BufferReachesItself(source, source[src].buffer, src); }
  }

  lemma ViewEnd(source: Heap, src: Ref, copy: Ref, h0: Heap, m0: Memo, h1: Heap, m1: Memo, h2: Heap, m2: Memo)
    requires src in source && source[src].View? && src !in m1 && copy !in h1
    requires Mapped(Pointer(source[src].buffer), m1)
    requires Effect(source, Pointer(source[src].buffer), h0, m0, h1, m1) && Finished(source, m0, h1, m1, {})
    requires m2 == m1[src := copy] && h2 == h1[copy := CopyOf(source[src], m1)]
    ensures Effect(source, Pointer(src), h0, m0, h2, m2) && Finished(source, m0, h2, m2, {})
  {
    hide Reaches, CopyOf;
    ViewEffect(source, src, copy, h0, m0, h1, m1, h2, m2);
    forall r | r in m2 && r !in m0 && r != src ensures Complete(source, h2, m2, r) {
      CompleteStable(source, h1, m1, h2, m2, r);
    }
    ViewComplete(source, src, copy, m1, h2, m2);
  }

  lemma ViewEffect(source: Heap, src: Ref, copy: Ref, h0: Heap, m0: Memo, h1: Heap, m1: Memo, h2: Heap, m2: Memo)
    requires src in source && source[src].View? && src !in m1 && copy !in h1
    requires Effect(source, Pointer(source[src].buffer), h0, m0, h1, m1)
    requires m2 == m1[src := copy] && h2 == h1[copy := CopyOf(source[src], m1)]
    ensures Effect(source, Pointer(src), h0, m0, h2, m2)
  {
    hide Reaches;
    ReachesSelf(source, Pointer(src));
    assert Child(source[src], Pointer(source[src].buffer));
    forall r | r in m2 && r !in m0 && r != src ensures Reaches(source, Pointer(src), Pointer(r)) {
      ReachesVia(source, Pointer(src), Pointer(source[src].buffer), Pointer(r));
    }
  }

  lemma ViewComplete(source: Heap, src: Ref, copy: Ref, m1: Memo, h2: Heap, m2: Memo)
    requires src in source && source[src].View? && src !in m1 && m2 == m1[src := copy]
    requires Mapped(Pointer(source[src].buffer), m1) && copy in h2 && h2[copy] == CopyOf(source[src], m1)
    ensures Complete(source, h2, m2, src)
  {
    CopyStable(source[src], m1, m2);
  }

  /** When every copy made is finished, everything reachable has been met, and nothing unsupported is. */
  lemma FinishedCoversReachable(source: Heap, v: Value, heap: Heap, m: Memo)
    requires Mapped(v, m) && Finished(source, map[], heap, m, {})
    ensures forall w :: Reaches(source, v, w) ==> Mapped(w, m) && !Unsupported(source, w)
  {
    forall r, u | r in m && Edge(source, Pointer(r), u) ensures Mapped(u, m) {
      assert Complete(source, heap, m, r);
    }
    hide Reaches;
    forall w | Reaches(source, v, w) ensures Mapped(w, m) && !Unsupported(source, w) {
      ClosedReach(source, v, w, m);
      if w.Pointer? { assert Complete(source, heap, m, w.ref); }
    }
  }

  lemma CopiesAreTheNewObjects(source: Heap, heap: Heap, m: Memo, origin: Memo)
    requires Sound(source, heap, m, origin)
    ensures heap.Keys == source.Keys + m.Values && Injective(m)
  {
    forall q | q in heap && q !in source ensures q in m.Values { assert m[origin[q]] == q; }
  }

  /** Starting with an empty memo, the finished copies are the clone of everything reachable. */
  lemma CloneFromState(source: Heap, v: Value, heap: Heap, m: Memo, origin: Memo, next: Ref)
    requires ValidState(source, heap, m, origin, next) && Mapped(v, m)
    requires Effect(source, v, source, map[], heap, m) && Finished(source, map[], heap, m, {})
    ensures IsClone(source, v, heap, Rename(v, m), m) && !ReachesUnsupported(source, v)
  {
    hide HeapOk, Reaches, Complete, Injective;
    FinishedCoversReachable(source, v, heap, m);
    CopiesAreTheNewObjects(source, heap, m, origin);
  }

  class Cloner {
    ghost const source: Heap      // the heap when the copy started
    var heap: Heap
    var memo: Memo
    ghost var origin: Memo        // each copy's source
    var next: Ref                 // allocation pointer

    constructor (h: Heap, limit: Ref)
      requires HeapOk(h) && forall r :: r in h ==> r < limit
      ensures Valid() && heap == source == h && memo == map[]
    {
      source, heap, memo, origin, next := h, h, map[], map[], limit;
    }

    ghost predicate Valid() reads this {
      ValidState(source, heap, memo, origin, next)
    }

    /** Everything met since `h0` and `m0`, while copying `v`, has its finished copy. */
    ghost predicate Done(v: Value, h0: Heap, m0: Memo) reads this {
      Mapped(v, memo) && Effect(source, v, h0, m0, heap, memo) && Finished(source, m0, heap, memo, {})
    }

    ghost function Copy(src: Ref): Value reads this {
      Rename(Pointer(src), memo)
    }

    ghost function Rank(v: Value): nat reads this {
      if v.Pointer? && v.ref in source && source[v.ref].View? then 3 else 1
    }

    /** `src` is being copied into `copy`; everything else met since `h0` and `m0` is finished. */
    ghost predicate InProgress(src: Ref, copy: Ref, h0: Heap, m0: Memo) reads this {
      Valid() && src in source && Midway(source, src, copy, h0, m0, heap, memo)
    }

    lemma Finish(src: Ref, copy: Ref, h0: Heap, m0: Memo)
      requires InProgress(src, copy, h0, m0) && src in memo && Complete(source, heap, memo, src)
      ensures Valid() && Copy(src) == Pointer(copy) && Done(Pointer(src), h0, m0)
    {
      hide ValidState, Midway, Effect, Finished, Complete;
      MidwayEnd(source, src, copy, h0, m0, heap, memo);
    }

    /** `remember(memo, source, copy)` with a freshly allocated copy. */
    method Remember(src: Ref, o: Object) returns (copy: Ref)
      requires Valid() && src in source && src !in memo
      modifies this
      ensures InProgress(src, copy, old(heap), old(memo))
      ensures memo == old(memo)[src := copy] && heap == old(heap)[copy := o] && copy !in old(heap)
    {
      hide ValidState, Midway;
      MidwayStart(source, src, o, heap, memo, origin, next);
      copy := next;
      next := next + 1;
      heap := heap[copy := o];
      memo := memo[src := copy];
      origin := origin[copy := src];
    }

    /** A write to the copy of `src`. */
    method Write(src: Ref, copy: Ref, o: Object, ghost h0: Heap, ghost m0: Memo)
      requires InProgress(src, copy, h0, m0)
      modifies this`heap
      ensures InProgress(src, copy, h0, m0) && heap == old(heap)[copy := o]
    {
      hide ValidState, Midway;
      MidwayWrite(source, src, copy, o, h0, m0, heap, memo, origin, next);
      heap := heap[copy := o];
    }

    /** Copies one child of `src`; the copy of `src` itself is not written. */
    method CloneChild(src: Ref, copy: Ref, child: Value, ghost h0: Heap, ghost m0: Memo) returns (res: Option<Value>)
      requires InProgress(src, copy, h0, m0) && Child(source[src], child)
      modifies this
      ensures Valid()
      ensures res.Some? ==> InProgress(src, copy, h0, m0) && copy in old(heap) && copy in heap
                            && heap[copy] == old(heap)[copy] && Extends(old(memo), memo)
                            && Mapped(child, memo) && res.value == Rename(child, memo)
      ensures res.None? ==> ReachesUnsupported(source, Pointer(src))
      decreases source.Keys - memo.Keys, 4
    {
      assert ObjectOk(source, source[src]);
      hide HeapOk, Reaches, Complete, ReachesUnsupported;
      res := CloneValue(child);
      if res.None? {
        UnsupportedBelow(source, src, child);
      } else {
        EffectStep(source, src, child, h0, m0, old(heap), old(memo), heap, memo);
        FinishedStep(source, src, m0, old(heap), old(memo), old(origin), heap, memo);
      }
    }

    /** The object just copied holds what its source holds. */
    lemma CopyHolds(src: Ref, h0: Heap, m0: Memo)
      requires Done(Pointer(src), h0, m0) && src in source && src !in m0
      ensures src in memo && memo[src] in heap && Holds(source[src], heap[memo[src]], memo)
    {
      hide Effect, Reaches, Complete, Holds;
      assert Complete(source, heap, memo, src);
      CompleteHolds(source, heap, memo, src);
    }

    lemma SourceFacts(src: Ref)
      requires Valid() && src in source
      ensures src in heap && heap[src] == source[src] && ObjectOk(source, source[src])
    {}

    lemma CopiesDistinct()
      requires Valid()
      ensures Injective(memo)
    {
      hide HeapOk;
    }

    /** A primitive, and an object met before, add nothing. */
    lemma AlreadyDone(v: Value)
      requires Mapped(v, memo)
      ensures Done(v, heap, memo)
    {}

    method CloneValue(v: Value) returns (res: Option<Value>)
      requires Valid() && ValueOk(source, v)
      modifies this
      ensures Valid() && (res.Some? ==> res == Some(Rename(v, memo)) && Done(v, old(heap), old(memo)))
      ensures res.None? ==> ReachesUnsupported(source, v)
      decreases source.Keys - memo.Keys, Rank(v)
    {
      hide Valid, Done, ReachesUnsupported, ObjectOk;
      match v
      case Primitive(_) => AlreadyDone(v); return Some(v);
      case Callable => UnsupportedItself(source, v); return None;
      case SymbolValue => UnsupportedItself(source, v); return None;
      case Pointer(src) =>
        SourceFacts(src);
        if src in memo {
          AlreadyDone(v);
          return Some(Pointer(memo[src]));
        }
        match heap[src] {
          case Plain(_, _) => res := ClonePlainObject(src);
          case ArrayObject(_) => res := CloneArray(src);
          case View(_, _, _, _) => res := CloneView(src);
          case ArrayBuffer(_) => res := CloneLeaf(src);
          case DateObject(_) => res := CloneLeaf(src);
          case RegExpObject(_, _, _) => res := CloneLeaf(src);
          case MapObject(_) => res := CloneMap(src);
          case SetObject(_) => res := CloneSet(src);
          case Exotic => UnsupportedItself(source, v); res := None;
        }
    }

    /** An ArrayBuffer, Date or RegExp: rebuilt from its own data, no children. */
    method CloneLeaf(src: Ref) returns (res: Option<Value>)
      requires Valid() && src in source && src !in memo
      requires source[src].ArrayBuffer? || source[src].DateObject? || source[src].RegExpObject?
      modifies this
      ensures Valid() && res == Some(Copy(src)) && Done(Pointer(src), old(heap), old(memo))
      ensures res.Some? ==> src in memo && memo[src] in heap && Holds(source[src], heap[memo[src]], memo)
      decreases source.Keys - memo.Keys, 0
    {
      hide Holds, Valid, InProgress, ValidState, Effect, Finished, HeapOk, Done;
      SourceFacts(src);
      var o := heap[src];
      var copied := if o.RegExpObject? then RegExpObject(o.source, o.flags, 0) else o;
      var copy := Remember(src, copied);
      Finish(src, copy, old(heap), old(memo));
      CopyHolds(src, old(heap), old(memo));
      res := Some(Pointer(copy));
    }

    method ClonePlainObject(src: Ref) returns (res: Option<Value>)
      requires Valid() && src in source && src !in memo && source[src].Plain?
      modifies this
      ensures Valid() && (res.Some? ==> res == Some(Copy(src)) && Done(Pointer(src), old(heap), old(memo)))
      ensures res.None? ==> ReachesUnsupported(source, Pointer(src))
      ensures res.Some? ==> src in memo && memo[src] in heap && Holds(source[src], heap[memo[src]], memo)
      decreases source.Keys - memo.Keys, 0
    {
      hide Holds, Valid, InProgress, ValidState, Complete, CopyOf, Effect, Finished, HeapOk,
        ReachesUnsupported, Done, DefineProperty, MapSet, Injective;
      SourceFacts(src);
      var props := heap[src].props;
      var copy := Remember(src, Plain(false, []));
      var k := 0;
      while k < |props|
        invariant 0 <= k <= |props| && InProgress(src, copy, old(heap), old(memo))
        invariant old(memo).Keys + {src} <= memo.Keys && memo[src] == copy && copy in heap
        invariant heap[copy] == Plain(false, RenameProps(props[..k], memo))
        invariant forall i :: 0 <= i < k ==> Mapped(props[i].1, memo)
      {
        hide RenameProps;
        var key, child := props[k].0, props[k].1;
        assert Child(source[src], child);
        ghost var m1 := memo;
        var value := CloneChild(src, copy, child, old(heap), old(memo));
        if value.None? { return None; }
        PropsStep(props, k, m1, memo);
        if key == PROTO_KEY {
          Write(src, copy, Plain(false, DefineProperty(heap[copy].props, key, value.value)), old(heap), old(memo));
        } else {
          Write(src, copy, Plain(false, AssignProperty(heap[copy].props, key, value.value)), old(heap), old(memo));
        }
        k := k + 1;
      }
      PlainComplete(source, heap, memo, src);
      Finish(src, copy, old(heap), old(memo));
      CopyHolds(src, old(heap), old(memo));
      res := Some(Pointer(copy));
    }

    method CloneArray(src: Ref) returns (res: Option<Value>)
      requires Valid() && src in source && src !in memo && source[src].ArrayObject?
      modifies this
      ensures Valid() && (res.Some? ==> res == Some(Copy(src)) && Done(Pointer(src), old(heap), old(memo)))
      ensures res.None? ==> ReachesUnsupported(source, Pointer(src))
      ensures res.Some? ==> src in memo && memo[src] in heap && Holds(source[src], heap[memo[src]], memo)
      decreases source.Keys - memo.Keys, 0
    {
      hide Holds, Valid, InProgress, ValidState, Complete, CopyOf, Effect, Finished, HeapOk,
        ReachesUnsupported, Done, DefineProperty, MapSet, Injective;
      SourceFacts(src);
      var slots := heap[src].slots;
      var empty := seq(|slots|, _ => None);
      assert empty == FirstSlots(slots, 0, map[]);
      var copy := Remember(src, ArrayObject(empty));
      NoSlotsYet(slots, memo);
      var k := 0;
      while k < |slots|
        invariant 0 <= k <= |slots| && InProgress(src, copy, old(heap), old(memo))
        invariant old(memo).Keys + {src} <= memo.Keys && memo[src] == copy && copy in heap
        invariant heap[copy] == ArrayObject(FirstSlots(slots, k, memo))
        invariant forall i :: 0 <= i < k && slots[i].Some? ==> Mapped(slots[i].value, memo)
      {
        hide FirstSlots;
        if slots[k].None? {
          SlotsStep(slots, k, memo, memo);
          k := k + 1;
          continue;
        }
        var child := slots[k].value;
        assert slots[k] == Some(child);
        assert Child(source[src], child);
        ghost var m1 := memo;
        var value := CloneChild(src, copy, child, old(heap), old(memo));
        if value.None? { return None; }
        SlotsStep(slots, k, m1, memo);
        Write(src, copy, ArrayObject(heap[copy].slots[k := value]), old(heap), old(memo));
        k := k + 1;
      }
      ArrayComplete(source, heap, memo, src);
      Finish(src, copy, old(heap), old(memo));
      CopyHolds(src, old(heap), old(memo));
      res := Some(Pointer(copy));
    }

    /** A typed array or DataView over the one copy of its buffer, however many views share it. */
    method CloneView(src: Ref) returns (res: Option<Value>)
      requires Valid() && src in source && src !in memo && source[src].View?
      modifies this
      ensures Valid() && (res.Some? ==> res == Some(Copy(src)) && Done(Pointer(src), old(heap), old(memo)))
      ensures res.None? ==> ReachesUnsupported(source, Pointer(src))
      ensures res.Some? ==> src in memo && memo[src] in heap && Holds(source[src], heap[memo[src]], memo)
      decreases source.Keys - memo.Keys, 2
    {
      hide Holds, Valid, Midway, ValidState, Complete, HeapOk, ReachesUnsupported, Reaches;
      SourceFacts(src);
      var view := heap[src];
      var child := Pointer(view.buffer);
      assert Child(source[src], child);
      var buffer := CloneValue(child);
      if buffer.None? {
        UnsupportedBelow(source, src, child);
        return None;
      }
      ghost var h1, m1 := heap, memo;
      NotBelowBuffer(source, src, old(heap), old(memo), h1, m1);
      assert CopyOf(view, m1) == View(view.constructorName, buffer.value.ref, view.byteOffset, view.size);
      var copy := Remember(src, View(view.constructorName, buffer.value.ref, view.byteOffset, view.size));
      ViewEnd(source, src, copy, old(heap), old(memo), h1, m1, heap, memo);
      CopyHolds(src, old(heap), old(memo));
      res := Some(Pointer(copy));
    }

    method CloneMap(src: Ref) returns (res: Option<Value>)
      requires Valid() && src in source && src !in memo && source[src].MapObject?
      modifies this
      ensures Valid() && (res.Some? ==> res == Some(Copy(src)) && Done(Pointer(src), old(heap), old(memo)))
      ensures res.None? ==> ReachesUnsupported(source, Pointer(src))
      ensures res.Some? ==> src in memo && memo[src] in heap && Holds(source[src], heap[memo[src]], memo)
      decreases source.Keys - memo.Keys, 0
    {
      hide Holds, Valid, InProgress, ValidState, Complete, CopyOf, Effect, Finished, HeapOk,
        ReachesUnsupported, Done, DefineProperty, MapSet, Injective;
      SourceFacts(src);
      var entries := heap[src].entries;
      var copy := Remember(src, MapObject([]));
      var k := 0;
      while k < |entries|
        invariant 0 <= k <= |entries| && InProgress(src, copy, old(heap), old(memo))
        invariant old(memo).Keys + {src} <= memo.Keys && memo[src] == copy && copy in heap
        invariant heap[copy] == MapObject(RenameEntries(entries[..k], memo))
        invariant forall i :: 0 <= i < k ==> Mapped(entries[i].0, memo) && Mapped(entries[i].1, memo)
      {
        hide RenameEntries;
        var key, value := entries[k].0, entries[k].1;
        assert Child(source[src], key) && Child(source[src], value);
        ghost var m1 := memo;
        var keyCopy := CloneChild(src, copy, key, old(heap), old(memo));
        if keyCopy.None? { return None; }
        var valueCopy := CloneChild(src, copy, value, old(heap), old(memo));
        if valueCopy.None? { return None; }
        CopiesDistinct();
        EntriesStep(entries, k, m1, memo);
        Write(src, copy, MapObject(MapSet(heap[copy].entries, keyCopy.value, valueCopy.value)), old(heap), old(memo));
        k := k + 1;
      }
      MapComplete(source, heap, memo, src);
      Finish(src, copy, old(heap), old(memo));
      CopyHolds(src, old(heap), old(memo));
      res := Some(Pointer(copy));
    }

    method CloneSet(src: Ref) returns (res: Option<Value>)
      requires Valid() && src in source && src !in memo && source[src].SetObject?
      modifies this
      ensures Valid() && (res.Some? ==> res == Some(Copy(src)) && Done(Pointer(src), old(heap), old(memo)))
      ensures res.None? ==> ReachesUnsupported(source, Pointer(src))
      ensures res.Some? ==> src in memo && memo[src] in heap && Holds(source[src], heap[memo[src]], memo)
      decreases source.Keys - memo.Keys, 0
    {
      hide Holds, Valid, InProgress, ValidState, Complete, CopyOf, Effect, Finished, HeapOk,
        ReachesUnsupported, Done, DefineProperty, MapSet, Injective;
      SourceFacts(src);
      var items := heap[src].items;
      var copy := Remember(src, SetObject([]));
      var k := 0;
      while k < |items|
        invariant 0 <= k <= |items| && InProgress(src, copy, old(heap), old(memo))
        invariant old(memo).Keys + {src} <= memo.Keys && memo[src] == copy && copy in heap
        invariant heap[copy] == SetObject(RenameItems(items[..k], memo))
        invariant forall i :: 0 <= i < k ==> Mapped(items[i], memo)
      {
        hide RenameItems;
        var child := items[k];
        assert Child(source[src], child);
        ghost var m1 := memo;
        var value := CloneChild(src, copy, child, old(heap), old(memo));
        if value.None? { return None; }
        CopiesDistinct();
        ItemsStep(items, k, m1, memo);
        Write(src, copy, SetObject(SetAdd(heap[copy].items, value.value)), old(heap), old(memo));
        k := k + 1;
      }
      SetComplete(source, heap, memo, src);
      Finish(src, copy, old(heap), old(memo));
      CopyHolds(src, old(heap), old(memo));
      res := Some(Pointer(copy));
    }
  }

  /**
   * `structuredClone(value, options)` up to its fallback: None means the whole graph goes to the
   * general cloner instead, as it does for every call with options.
   */
  method StructuredClone(heap: Heap, limit: Ref, v: Value, options: bool)
    returns (res: Option<Value>, heap': Heap, memo: Memo)
    requires HeapOk(heap) && ValueOk(heap, v) && forall r :: r in heap ==> r < limit
    ensures res.None? <==>
      (options || exists w :: Reaches(heap, v, w)
                    && (w.Callable? || w.SymbolValue? || (w.Pointer? && w.ref in heap && heap[w.ref].Exotic?)))
    ensures res.Some? ==> IsClone(heap, v, heap', res.value, memo)
    ensures res.Some? ==> Mirrors(v, res.value, memo)
    ensures res.Some? ==>
      forall r <- memo :: r in heap && memo[r] in heap' && Holds(heap[r], heap'[memo[r]], memo)
    ensures forall r :: r in heap ==> r in heap' && heap'[r] == heap[r]
  {
    if options {
      return None, heap, map[];
    }
    var c := new Cloner(heap, limit);
    res := c.CloneValue(v);
    heap', memo := c.heap, c.memo;
    if res.Some? {
      CloneFromState(heap, v, heap', memo, c.origin, c.next);
      hide Holds, Complete;
      forall r <- memo ensures r in heap && memo[r] in heap' && Holds(heap[r], heap'[memo[r]], memo) {
        CloneHolds(heap, v, heap', res.value, memo, r);
      }
    }
  }

  // ---------------------------------------------------------------- what a clone is

  lemma CopyChild(o: Object, m: Memo, w: Value)
    requires Child(o, w)
    ensures Child(CopyOf(o, m), Rename(w, m))
  {
    match o
    case Plain(_, props) =>
      var i :| 0 <= i < |props| && props[i].1 == w;
      assert RenameProps(props, m)[i].1 == Rename(w, m);
    case ArrayObject(slots) =>
      var i :| 0 <= i < |slots| && slots[i] == Some(w);
      assert RenameSlots(slots, m)[i] == Some(Rename(w, m));
    case MapObject(entries) =>
      var i :| 0 <= i < |entries| && (entries[i].0 == w || entries[i].1 == w);
      assert RenameEntries(entries, m)[i] == (Rename(entries[i].0, m), Rename(entries[i].1, m));
    case SetObject(items) =>
      var i :| 0 <= i < |items| && items[i] == w;
      assert RenameItems(items, m)[i] == Rename(w, m);
    case _ =>
  }

  lemma ChildOfCopy(o: Object, m: Memo, w': Value) returns (w: Value)
    requires Child(CopyOf(o, m), w')
    ensures Child(o, w) && w' == Rename(w, m)
  {
    match o
    case Plain(_, props) =>
      var i :| 0 <= i < |props| && RenameProps(props, m)[i].1 == w';
      w := props[i].1;
    case ArrayObject(slots) =>
      var i :| 0 <= i < |slots| && RenameSlots(slots, m)[i] == Some(w');
      w := slots[i].value;
      assert slots[i] == Some(w);
    case View(_, buffer, _, _) => w := Pointer(buffer);
    case MapObject(entries) =>
      var c := RenameEntries(entries, m);
      var i :| 0 <= i < |c| && (c[i].0 == w' || c[i].1 == w');
      w := if c[i].0 == w' then entries[i].0 else entries[i].1;
    case SetObject(items) =>
      var i :| 0 <= i < |items| && RenameItems(items, m)[i] == w';
      w := items[i];
    case _ => w := w'; assert false;
  }

  /** Along any path of the source the renamed path exists in the clone. */
  lemma {:induction false} CloneFollows(h: Heap, v: Value, h': Heap, v': Value, m: Memo, p: seq<Value>, k: nat)
    requires IsClone(h, v, h', v', m) && HeapOk(h)
    requires Path(h, p) && p[0] == v && k < |p|
    ensures Mapped(p[k], m) && Reaches(h', v', Rename(p[k], m))
  {
    hide HeapOk, Reaches, IsClone, Edge, Rename;
    if k == 0 {
      CloneStarts(h, v, h', v', m);
      ReachesSelf(h', v');
    } else {
      CloneFollows(h, v, h', v', m, p, k - 1);
      assert Edge(h, p[k - 1], p[k - 1 + 1]);
      EdgeFollows(h, v, h', v', m, p[k - 1], p[k]);
      ReachesThen(h', v', Rename(p[k - 1], m), Rename(p[k], m));
    }
  }

  lemma EdgeFollows(h: Heap, v: Value, h': Heap, v': Value, m: Memo, u: Value, w: Value)
    requires IsClone(h, v, h', v', m) && Mapped(u, m) && Edge(h, u, w)
    ensures Mapped(w, m) && Edge(h', Rename(u, m), Rename(w, m))
  {
    hide Reaches, CopyOf, Child;
    CloneCompletes(h, v, h', v', m, u.ref);
    CopyChild(h[u.ref], m, w);
  }

  /** Along any path of the clone there is a path of the source that renames to it. */
  lemma {:induction false} CloneReflects(h: Heap, v: Value, h': Heap, v': Value, m: Memo, p: seq<Value>, k: nat)
    returns (w: Value)
    requires IsClone(h, v, h', v', m)
    requires Path(h', p) && p[0] == v' && k < |p|
    ensures Reaches(h, v, w) && Mapped(w, m) && p[k] == Rename(w, m)
  {
    hide Reaches;
    if k == 0 {
      ReachesSelf(h, v);
      w := v;
    } else {
      var u := CloneReflects(h, v, h', v', m, p, k - 1);
      assert Edge(h', p[k - 1], p[k - 1 + 1]);
      assert Complete(h, h', m, u.ref);
      w := ChildOfCopy(h[u.ref], m, p[k]);
      ReachesThen(h, v, u, w);
    }
  }

  lemma ImageReached(h: Heap, v: Value, h': Heap, v': Value, m: Memo, w: Value)
    requires IsClone(h, v, h', v', m) && HeapOk(h) && Reaches(h, v, w)
    ensures Mapped(w, m) && Reaches(h', v', Rename(w, m))
  {
    hide IsClone, HeapOk, Edge;
    var p :| Path(h, p) && p[0] == v && p[|p| - 1] == w;
    CloneFollows(h, v, h', v', m, p, |p| - 1);
  }

  lemma SourceReached(h: Heap, v: Value, h': Heap, v': Value, m: Memo, w': Value) returns (w: Value)
    requires IsClone(h, v, h', v', m) && Reaches(h', v', w')
    ensures Reaches(h, v, w) && Mapped(w, m) && w' == Rename(w, m)
  {
    hide IsClone, Edge;
    var p :| Path(h', p) && p[0] == v' && p[|p| - 1] == w';
    w := CloneReflects(h, v, h', v', m, p, |p| - 1);
  }

  lemma ImagesDiffer(h: Heap, v: Value, h': Heap, v': Value, m: Memo, a: Value, b: Value)
    requires IsClone(h, v, h', v', m) && HeapOk(h) && Reaches(h, v, a) && Reaches(h, v, b) && a != b
    ensures Rename(a, m) != Rename(b, m)
  {
    hide IsClone, HeapOk, Reaches, Rename, Injective;
    ImageReached(h, v, h', v', m, a);
    ImageReached(h, v, h', v', m, b);
    CloneInjective(h, v, h', v', m);
    RenameInjective(a, b, m);
  }

  /** Every value reachable from `v` is renamed to one reachable from `v'`. */
  ghost predicate Onward(h: Heap, v: Value, h': Heap, v': Value, m: Memo) {
    forall w :: Reaches(h, v, w) ==> Reaches(h', v', Rename(w, m))
  }

  /** Every value reachable from `v'` is the renaming of one reachable from `v`. */
  ghost predicate Backward(h: Heap, v: Value, h': Heap, v': Value, m: Memo) {
    forall w' :: Reaches(h', v', w') ==> exists w :: Reaches(h, v, w) && w' == Rename(w, m)
  }

  /** Different values reachable from `v` are renamed differently. */
  ghost predicate OneToOne(h: Heap, v: Value, m: Memo) {
    forall a, b :: Reaches(h, v, a) && Reaches(h, v, b) && a != b ==> Rename(a, m) != Rename(b, m)
  }

  lemma CloneOnward(h: Heap, v: Value, h': Heap, v': Value, m: Memo)
    requires IsClone(h, v, h', v', m) && HeapOk(h)
    ensures Onward(h, v, h', v', m)
  {
    hide IsClone, HeapOk, Reaches, Rename, Mapped;
    forall w | Reaches(h, v, w) ensures Reaches(h', v', Rename(w, m)) {
      ImageReached(h, v, h', v', m, w);
    }
  }

  lemma CloneBackward(h: Heap, v: Value, h': Heap, v': Value, m: Memo)
    requires IsClone(h, v, h', v', m)
    ensures Backward(h, v, h', v', m)
  {
    hide IsClone, Reaches, Rename;
    forall w' | Reaches(h', v', w') ensures exists w :: Reaches(h, v, w) && w' == Rename(w, m) {
      var w := SourceReached(h, v, h', v', m, w');
    }
  }

  lemma CloneOneToOne(h: Heap, v: Value, h': Heap, v': Value, m: Memo)
    requires IsClone(h, v, h', v', m) && HeapOk(h)
    ensures OneToOne(h, v, m)
  {
    hide IsClone, HeapOk, Reaches, Rename;
    forall a, b | Reaches(h, v, a) && Reaches(h, v, b) && a != b ensures Rename(a, m) != Rename(b, m) {
      ImagesDiffer(h, v, h', v', m, a, b);
    }
  }

  /** Renaming is a one-to-one correspondence between the graph under `v` and the graph under its clone. */
  lemma CloneIsomorphic(h: Heap, v: Value, h': Heap, v': Value, m: Memo)
    requires IsClone(h, v, h', v', m) && HeapOk(h)
    ensures Onward(h, v, h', v', m) && Backward(h, v, h', v', m) && OneToOne(h, v, m)
  {
    hide IsClone, HeapOk, Onward, Backward, OneToOne;
    CloneOnward(h, v, h', v', m);
    CloneBackward(h, v, h', v', m);
    CloneOneToOne(h, v, h', v', m);
  }

  lemma CloneInjective(h: Heap, v: Value, h': Heap, v': Value, m: Memo)
    requires IsClone(h, v, h', v', m)
    ensures Injective(m) && forall r :: r in m ==> m[r] !in h
  {}

  /** Nothing reachable from the clone existed before: writing through the clone cannot change the source. */
  lemma CloneDisjoint(h: Heap, v: Value, h': Heap, v': Value, m: Memo, q: Ref)
    requires IsClone(h, v, h', v', m)
    requires Reaches(h', v', Pointer(q))
    ensures q !in h && q in h'
  {
    var p :| Path(h', p) && p[0] == v' && p[|p| - 1] == Pointer(q);
    var w := CloneReflects(h, v, h', v', m, p, |p| - 1);
    assert w.Pointer? && m[w.ref] == q;
    assert q in m.Values;
  }

  /** The copy of a Map or Set has as many entries as its source, still pairwise distinct, and no property is lost. */
  lemma CopyOk(h: Heap, h': Heap, m: Memo, r: Ref)
    requires r in h && r in m && ObjectOk(h, h[r]) && Complete(h, h', m, r) && Injective(m)
    requires forall q :: q in m ==> q in h && m[q] in h' && (h[q].ArrayBuffer? ==> h'[m[q]] == h[q])
    requires h[r].View? ==> h[r].buffer in m && h[h[r].buffer].ArrayBuffer?
    ensures ObjectOk(h', h'[m[r]])
  {
    var o, c := h[r], h'[m[r]];
    forall w' | Child(c, w') && w'.Pointer? ensures w'.ref in h' {
      var w := ChildOfCopy(o, m, w');
    }
    if o.MapObject? {
      forall i, j | 0 <= i < j < |o.entries| ensures c.entries[i].0 != c.entries[j].0 {
        assert Child(o, o.entries[i].0) && Child(o, o.entries[j].0);
        RenameInjective(o.entries[i].0, o.entries[j].0, m);
      }
    } else if o.SetObject? {
      forall i, j | 0 <= i < j < |o.items| ensures c.items[i] != c.items[j] {
        assert Child(o, o.items[i]) && Child(o, o.items[j]);
        RenameInjective(o.items[i], o.items[j], m);
      }
    }
  }

  lemma ObjectStaysOk(h: Heap, h': Heap, o: Object)
    requires ObjectOk(h, o) && forall r :: r in h ==> r in h' && h'[r] == h[r]
    ensures ObjectOk(h', o)
  {}

  lemma NewObjectOk(h: Heap, v: Value, h': Heap, v': Value, m: Memo, r: Ref)
    requires IsClone(h, v, h', v', m) && r in m && ObjectOk(h, h[r])
    ensures m[r] in h' && ObjectOk(h', h'[m[r]])
  {
    hide ObjectOk, Complete, Reaches;
    CloneCompletes(h, v, h', v', m, r);
    BufferMet(h, h', m, r);
    forall q | q in m
      ensures q in h && m[q] in h' && !h[q].Exotic? && (h[q].ArrayBuffer? ==> h'[m[q]] == h[q])
    {
      CloneCompletes(h, v, h', v', m, q);
      BufferCopied(h, h', m, q);
    }
    CloneInjective(h, v, h', v', m);
    CopyOk(h, h', m, r);
  }

  lemma CloneStarts(h: Heap, v: Value, h': Heap, v': Value, m: Memo)
    requires IsClone(h, v, h', v', m)
    ensures Mapped(v, m) && v' == Rename(v, m)
  {}

  lemma CloneCompletes(h: Heap, v: Value, h': Heap, v': Value, m: Memo, r: Ref)
    requires IsClone(h, v, h', v', m) && r in m
    ensures r in h && Complete(h, h', m, r)
  {
    hide Reaches, Complete;
  }

  lemma BufferMet(h: Heap, h': Heap, m: Memo, r: Ref)
    requires r in h && r in m && ObjectOk(h, h[r]) && Complete(h, h', m, r)
    ensures m[r] in h' && (h[r].View? ==>
      h[r].buffer in m && h[r].buffer in h && (h[h[r].buffer].ArrayBuffer? || h[h[r].buffer].Exotic?))
  {
    if h[r].View? { assert Child(h[r], Pointer(h[r].buffer)); }
  }

  lemma BufferCopied(h: Heap, h': Heap, m: Memo, q: Ref)
    requires q in h && q in m && Complete(h, h', m, q)
    ensures m[q] in h' && !h[q].Exotic? && (h[q].ArrayBuffer? ==> h'[m[q]] == h[q])
  {}

  /** The heap with the clone in it is a heap the language could have built: no Map key or property was merged. */
  lemma CloneHeapOk(h: Heap, v: Value, h': Heap, v': Value, m: Memo)
    requires IsClone(h, v, h', v', m) && HeapOk(h)
    ensures HeapOk(h')
  {
    hide Reaches, Complete, ObjectOk;
    forall q | q in h' ensures ObjectOk(h', h'[q]) {
      if q in h {
        ObjectStaysOk(h, h', h[q]);
      } else {
        var r :| r in m && m[r] == q;
        NewObjectOk(h, v, h', v', m, r);
      }
    }
  }
}
