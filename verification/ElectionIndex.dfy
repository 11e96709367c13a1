/**
 * The elections this browser holds (apps/VoteTorrentPublic/src/election-index-source.js).
 *
 * The registry, attaching, listing and closing are calls into other modules; each may throw or answer anything.
 */
module ElectionIndex {
  import opened Common
  import opened CodeUnits
  import opened JsValues

  type Handle = nat

  /** What the calls made for one network do; `attach` may hand back null or undefined. */
  datatype Answer = Answer(attach: Result<Option<Handle>, ()>, list: Result<Value, ()>, closeThrows: bool)

  /** The calls made, in order. */
  datatype Event = Attach(hash: Text) | List(db: Option<Handle>) | Close(handle: Handle)

  datatype Attempt = Attempt(hash: Text, answer: Answer)

  datatype Row = Row(hash: Text, id: Text, title: Option<Text>, date: Text)

  datatype HeldElection = HeldElection(networkHash: Text, electionId: Text, title: Option<Text>)

  datatype Found = Found(elections: seq<HeldElection>, attempted: nat, unreadable: nat, complete: bool)

  // ---------------------------------------------------------------- the rows of one network

  const ID: Text := Ascii("Id")
  const TITLE: Text := Ascii("Title")
  const DATE: Text := Ascii("Date")
  const NETWORK_HASH: Text := Ascii("networkHash")

  /** The string `v[name]`, unless it is not one or is empty. */
  function NonEmptyString(v: Value, name: Text): Option<Text> {
    var p := Prop(v, name);
    if p.Str? && p.text != [] then Some(p.text) else None
  }

  /** The row a database row stands for: it needs an Id and nothing else. */
  function RowOf(hash: Text, r: Value): Option<Row> {
    match NonEmptyString(r, ID)
    case None => None
    case Some(id) =>
      var title, date := Prop(r, TITLE), Prop(r, DATE);
      Some(Row(hash, id, if title.Str? then Some(title.text) else None, if date.Str? then date.text else []))
  }

  function IndexRows(hash: Text, rs: seq<Value>): seq<Row> {
    if rs == [] then []
    else
      var row := RowOf(hash, rs[|rs| - 1]);
      IndexRows(hash, rs[..|rs| - 1]) + if row.Some? then [row.value] else []
  }

  method ToIndexRows(hash: Text, rows: Value) returns (out: seq<Row>)
    ensures out == IndexRows(hash, Elems(rows))
  {
    hide Ascii;
    var rs := Elems(rows);
    out := [];
    for i := 0 to |rs|
      invariant out == IndexRows(hash, rs[..i])
    {
      assert rs[..i + 1][..i] == rs[..i];
      var id := Prop(rs[i], ID);
      if !id.Str? || id.text == [] { continue; }
      var title, date := Prop(rs[i], TITLE), Prop(rs[i], DATE);
      out := out + [Row(hash, id.text, if title.Str? then Some(title.text) else None, if date.Str? then date.text else [])];
    }
    assert rs[..|rs|] == rs;
  }

  /** What is read off a database row: its Id, its Title if that is a string, its Date if that is one. */
  lemma RowOfReads(hash: Text, r: Value, row: Row)
    ensures RowOf(hash, r) == Some(row) <==>
      && row.hash == hash && row.id != [] && Prop(r, Ascii("Id")) == Str(row.id)
      && (if Prop(r, Ascii("Title")).Str? then row.title == Some(Prop(r, Ascii("Title")).text) else row.title == None)
      && (if Prop(r, Ascii("Date")).Str? then row.date == Prop(r, Ascii("Date")).text else row.date == [])
  {
    hide Ascii, Prop;
  }

  /** Every database row with an Id is listed, and nothing else is. */
  lemma {:induction false} IndexRowsAre(hash: Text, rs: seq<Value>, row: Row)
    ensures row in IndexRows(hash, rs) <==> exists r :: r in rs && RowOf(hash, r) == Some(row)
  {
    hide RowOf;
    if rs != [] {
      IndexRowsAre(hash, rs[..|rs| - 1], row);
      assert rs == rs[..|rs| - 1] + [rs[|rs| - 1]];
    }
  }

  // ---------------------------------------------------------------- the merge

  /** The comparator: day descending, then election id ascending, then network hash ascending. */
  function Compare(a: Row, b: Row): int {
    if a.date != b.date then if Less(a.date, b.date) then 1 else -1
    else if a.id != b.id then if Less(a.id, b.id) then -1 else 1
    else if a.hash != b.hash then if Less(a.hash, b.hash) then -1 else 1
    else 0
  }

  datatype Key = Key(date: Text, id: Text, hash: Text)

  function KeyOf(r: Row): Key {
    Key(r.date, r.id, r.hash)
  }

  lemma CompareIsOrder(a: Row, b: Row, c: Row)
    ensures Compare(a, b) <= 0 || Compare(b, a) <= 0
    ensures Compare(a, b) <= 0 && Compare(b, a) <= 0 ==> KeyOf(a) == KeyOf(b)
    ensures Compare(a, b) <= 0 && Compare(b, c) <= 0 ==> Compare(a, c) <= 0
    ensures Compare(a, b) == 0 <==> KeyOf(a) == KeyOf(b)
  {
    hide Less;
    LessTotal(a.date, b.date);
    LessTotal(a.id, b.id);
    LessTotal(a.hash, b.hash);
    LessChain(a.date, b.date, c.date);
    LessChain(a.id, b.id, c.id);
    LessChain(a.hash, b.hash, c.hash);
  }

  lemma LessChain(a: Text, b: Text, c: Text)
    ensures a != b && b != c && (Less(a, b) <==> Less(b, c)) ==> a != c && (Less(a, c) <==> Less(a, b))
  {
    hide Less;
    LessTotal(a, b);
    LessTotal(b, c);
    LessTotal(a, c);
    if Less(a, b) && Less(b, c) { LessTransitive(a, b, c); }
    if Less(b, a) && Less(c, b) { LessTransitive(c, b, a); }
  }

  ghost predicate Ordered(s: seq<Row>) {
    forall i, j :: 0 <= i < j < |s| ==> Compare(s[i], s[j]) <= 0
  }

  function InsertRow(x: Row, s: seq<Row>): seq<Row> {
    if s == [] || Compare(x, s[0]) <= 0 then [x] + s else [s[0]] + InsertRow(x, s[1..])
  }

  /** The engine's stable sort; StableSortIsUnique shows that every stable sort gives this one. */
  function SortRows(s: seq<Row>): seq<Row> {
    if s == [] then [] else InsertRow(s[0], SortRows(s[1..]))
  }

  /** The rows of one key, in the order they have in `s`. */
  function Keyed(s: seq<Row>, k: Key): seq<Row> {
    if s == [] then []
    else (if KeyOf(s[0]) == k then [s[0]] else []) + Keyed(s[1..], k)
  }

  ghost predicate IsStableSort(t: seq<Row>, s: seq<Row>) {
    Ordered(t) && forall k :: Keyed(t, k) == Keyed(s, k)
  }

  lemma {:induction false} InsertOrdered(x: Row, s: seq<Row>)
    requires Ordered(s)
    ensures Ordered(InsertRow(x, s)) && multiset(InsertRow(x, s)) == multiset{x} + multiset(s)
  {
    hide Compare;
    if s == [] || Compare(x, s[0]) <= 0 {
      forall j | 0 <= j < |s| ensures Compare(x, s[j]) <= 0 {
        if j > 0 { CompareIsOrder(x, s[0], s[j]); }
      }
    } else {
      var rest := InsertRow(x, s[1..]);
      InsertOrdered(x, s[1..]);
      assert s == [s[0]] + s[1..];
      CompareIsOrder(s[0], x, x);
      forall j | 0 <= j < |rest| ensures Compare(s[0], rest[j]) <= 0 {
        assert rest[j] in multiset(rest);
        assert rest[j] == x || rest[j] in s[1..];
      }
    }
  }

  lemma {:induction false} InsertKeepsKeyed(x: Row, s: seq<Row>, k: Key)
    ensures Keyed(InsertRow(x, s), k) == (if KeyOf(x) == k then [x] else []) + Keyed(s, k)
  {
    hide Compare;
    if s == [] || Compare(x, s[0]) <= 0 {
      assert ([x] + s)[1..] == s;
    } else {
      CompareIsOrder(x, s[0], x);
      InsertKeepsKeyed(x, s[1..], k);
      assert InsertRow(x, s)[1..] == InsertRow(x, s[1..]);
    }
  }

  /** The merged order is a sort: ordered, and a permutation that keeps the order of rows with equal keys. */
  lemma {:induction false} SortRowsSorts(s: seq<Row>)
    ensures IsStableSort(SortRows(s), s) && multiset(SortRows(s)) == multiset(s)
  {
    hide Compare, InsertRow;
    if s != [] {
      SortRowsSorts(s[1..]);
      InsertOrdered(s[0], SortRows(s[1..]));
      forall k ensures Keyed(SortRows(s), k) == Keyed(s, k) {
        InsertKeepsKeyed(s[0], SortRows(s[1..]), k);
      }
      assert s == [s[0]] + s[1..];
    }
  }

  lemma {:induction false} KeyedElements(s: seq<Row>, k: Key, r: Row)
    ensures multiset(Keyed(s, k))[r] == if KeyOf(r) == k then multiset(s)[r] else 0
  {
    if s != [] {
      KeyedElements(s[1..], k, r);
      assert s == [s[0]] + s[1..];
    }
  }

  lemma FirstOfKey(a: seq<Row>, b: seq<Row>)
    requires Ordered(a) && Ordered(b) && a != [] && b != [] && forall k :: Keyed(a, k) == Keyed(b, k)
    ensures a[0] == b[0]
  {
    hide Compare;
    HasKey(b, a[0]);
    HasKey(a, b[0]);
    var i :| 0 <= i < |b| && KeyOf(b[i]) == KeyOf(a[0]);
    var j :| 0 <= j < |a| && KeyOf(a[j]) == KeyOf(b[0]);
    CompareIsOrder(a[0], b[i], b[0]);
    CompareIsOrder(b[0], a[j], a[0]);
    CompareIsOrder(b[i], a[0], a[0]);
    CompareIsOrder(a[j], b[0], b[0]);
    CompareIsOrder(b[0], b[i], a[0]);
    CompareIsOrder(a[0], a[j], b[0]);
    CompareIsOrder(a[0], b[0], a[0]);
    CompareIsOrder(a[0], a[0], a[0]);
    CompareIsOrder(b[0], b[0], b[0]);
    assert Keyed(a, KeyOf(a[0]))[0] == a[0] && Keyed(b, KeyOf(a[0]))[0] == b[0];
  }

  lemma HasKey(s: seq<Row>, r: Row)
    requires Keyed(s, KeyOf(r)) != []
    ensures exists i :: 0 <= i < |s| && KeyOf(s[i]) == KeyOf(r)
  {
    var k := KeyOf(r);
    KeyedElements(s, k, Keyed(s, k)[0]);
    assert Keyed(s, k)[0] in multiset(Keyed(s, k));
  }

  /** There is one stable sort of a list. */
  lemma {:induction false} StableSortIsUnique(a: seq<Row>, b: seq<Row>)
    requires Ordered(a) && Ordered(b) && forall k :: Keyed(a, k) == Keyed(b, k)
    ensures a == b
  {
    hide Compare;
    if a == [] || b == [] {
      KeyedOfHead(a);
      KeyedOfHead(b);
    } else {
      FirstOfKey(a, b);
      forall k ensures Keyed(a[1..], k) == Keyed(b[1..], k) {
        KeyedTail(a, k);
        KeyedTail(b, k);
      }
      StableSortIsUnique(a[1..], b[1..]);
      assert a == [a[0]] + a[1..] && b == [b[0]] + b[1..];
    }
  }

  lemma KeyedOfHead(s: seq<Row>)
    ensures s != [] ==> Keyed(s, KeyOf(s[0])) != []
  {}

  lemma KeyedTail(s: seq<Row>, k: Key)
    requires s != []
    ensures Keyed(s[1..], k) == if KeyOf(s[0]) == k then Keyed(s, k)[1..] else Keyed(s, k)
  {}

  /**
   * The order of the list, field by field: a later row has an earlier day; on the same day a greater id; for the
   * same id a greater or the same hash.
   */
  lemma SortedByFields(s: seq<Row>, i: nat, j: nat)
    requires i < j < |s|
    ensures |SortRows(s)| == |s|
    ensures var a, b := SortRows(s)[i], SortRows(s)[j];
      || Less(b.date, a.date)
      || (a.date == b.date && (|| Less(a.id, b.id)
                               || (a.id == b.id && (Less(a.hash, b.hash) || a.hash == b.hash))))
  {
    hide SortRows, Keyed, Less;
    SortRowsSorts(s);
    assert |multiset(SortRows(s))| == |multiset(s)|;
    var a, b := SortRows(s)[i], SortRows(s)[j];
    assert Compare(a, b) <= 0;
    LessTotal(a.date, b.date);
    LessTotal(a.id, b.id);
    LessTotal(a.hash, b.hash);
  }

  /** The rows of all networks, one network after the other. */
  function Flat(per: seq<seq<Row>>): seq<Row> {
    if per == [] then [] else Flat(per[..|per| - 1]) + per[|per| - 1]
  }

  function Published(r: Row): HeldElection {
    HeldElection(r.hash, r.id, r.title)
  }

  function Publish(rows: seq<Row>): seq<HeldElection> {
    seq(|rows|, i requires 0 <= i < |rows| => Published(rows[i]))
  }

  function Merge(rows: seq<Row>): seq<HeldElection> {
    Publish(SortRows(rows))
  }

  method MergeHeldElections(per: seq<seq<Row>>) returns (list: seq<HeldElection>)
    ensures list == Merge(Flat(per))
  {
    var flat: seq<Row> := [];
    for n := 0 to |per|
      invariant flat == Flat(per[..n])
    {
      assert per[..n + 1][..n] == per[..n];
      for i := 0 to |per[n]|
        invariant flat == Flat(per[..n]) + per[n][..i]
      {
        flat := flat + [per[n][i]];
      }
    }
    assert per[..|per|] == per;
    flat := SortRows(flat);
    list := [];
    for i := 0 to |flat|
      invariant list == Publish(flat[..i])
    {
      list := list + [HeldElection(flat[i].hash, flat[i].id, flat[i].title)];
    }
    assert flat[..|flat|] == flat;
  }

  /** No two rows share day, id and network but differ in title. */
  ghost predicate Agreeing(rows: seq<Row>) {
    forall a, b :: a in rows && b in rows && KeyOf(a) == KeyOf(b) ==> a == b
  }

  lemma AllEqual(s: seq<Row>, t: seq<Row>)
    requires multiset(s) == multiset(t) && forall a, b :: a in s && b in s ==> a == b
    ensures s == t
  {
    assert |multiset(s)| == |multiset(t)|;
    forall i | 0 <= i < |s| ensures s[i] == t[i] {
      assert t[i] in multiset(t);
      assert t[i] in multiset(s) && s[i] in s && t[i] in s;
    }
  }

  lemma KeyedAgree(a: seq<Row>, b: seq<Row>, k: Key)
    requires Agreeing(a) && multiset(a) == multiset(b)
    ensures Keyed(a, k) == Keyed(b, k)
  {
    hide Keyed;
    var s, t := Keyed(a, k), Keyed(b, k);
    forall r ensures multiset(s)[r] == multiset(t)[r] {
      KeyedElements(a, k, r);
      KeyedElements(b, k, r);
    }
    forall x, y | x in s && y in s ensures x == y {
      KeyedElements(a, k, x);
      KeyedElements(a, k, y);
      assert x in multiset(s) && y in multiset(s);
    }
    AllEqual(s, t);
  }

  /** Rows whose titles agree merge to one list whatever order they come in. */
  lemma AgreeingRowsMergeAlike(a: seq<Row>, b: seq<Row>)
    requires Agreeing(a) && multiset(a) == multiset(b)
    ensures Merge(a) == Merge(b)
  {
    hide SortRows, Keyed, Ordered;
    SortRowsSorts(a);
    SortRowsSorts(b);
    forall k ensures Keyed(SortRows(a), k) == Keyed(SortRows(b), k) {
      KeyedAgree(a, b, k);
    }
    StableSortIsUnique(SortRows(a), SortRows(b));
  }

  function Untitled(s: seq<Row>): seq<Row> {
    seq(|s|, i requires 0 <= i < |s| => s[i].(title := None))
  }

  lemma {:induction false} InsertUntitled(x: Row, s: seq<Row>)
    ensures Untitled(InsertRow(x, s)) == InsertRow(x.(title := None), Untitled(s))
  {
    if s != [] && Compare(x, s[0]) > 0 {
      InsertUntitled(x, s[1..]);
      assert Untitled(s)[1..] == Untitled(s[1..]);
    } else {
      assert Untitled([x] + s) == [x.(title := None)] + Untitled(s);
    }
  }

  /** Titles do not influence the order. */
  lemma {:induction false} SortUntitled(s: seq<Row>)
    ensures Untitled(SortRows(s)) == SortRows(Untitled(s))
  {
    hide InsertRow;
    if s != [] {
      SortUntitled(s[1..]);
      InsertUntitled(s[0], SortRows(s[1..]));
      assert Untitled(s)[1..] == Untitled(s[1..]);
    }
  }

  lemma NothingKeyed(k: Key)
    ensures Keyed([], k) == []
  {}

  lemma KeyedHead(s: seq<Row>, k: Key)
    requires s != []
    ensures Keyed(s, k) == (if KeyOf(s[0]) == k then [s[0]] else []) + Keyed(s[1..], k)
  {}

  lemma {:induction false} KeyedConcat(a: seq<Row>, b: seq<Row>, k: Key)
    ensures Keyed(a + b, k) == Keyed(a, k) + Keyed(b, k)
  {
    hide Keyed, KeyOf;
    if a == [] {
      assert a + b == b;
      NothingKeyed(k);
    } else {
      KeyedConcat(a[1..], b, k);
      KeyedHead(a, k);
      KeyedHead(a + b, k);
      assert (a + b)[1..] == a[1..] + b;
    }
  }

  lemma KeyedAt(s: seq<Row>, i: nat)
    requires i < |s|
    ensures |Keyed(s[..i], KeyOf(s[i]))| < |Keyed(s, KeyOf(s[i]))|
    ensures Keyed(s, KeyOf(s[i]))[|Keyed(s[..i], KeyOf(s[i]))|] == s[i]
  {
    var k := KeyOf(s[i]);
    assert s == s[..i] + s[i..];
    KeyedConcat(s[..i], s[i..], k);
    assert Keyed(s[i..], k)[0] == s[i];
  }

  function Swapped(s: seq<Row>, i: nat, j: nat): seq<Row>
    requires i < |s| && j < |s|
  {
    s[i := s[j]][j := s[i]]
  }

  lemma SwapMergesDifferently(a: seq<Row>, i: nat, j: nat)
    requires i < j < |a| && KeyOf(a[i]) == KeyOf(a[j]) && a[i] != a[j]
    ensures multiset(Swapped(a, i, j)) == multiset(a) && Merge(Swapped(a, i, j)) != Merge(a)
  {
    hide SortRows, KeyOf, Keyed;
    SwapUntitled(a, i, j);
    KeyedAfterSwap(a, i, j);
    if Merge(Swapped(a, i, j)) == Merge(a) { MergedAlikeKeyedAlike(Swapped(a, i, j), a, KeyOf(a[i])); }
  }

  lemma MergedAlikeKeyedAlike(a: seq<Row>, b: seq<Row>, k: Key)
    requires Untitled(a) == Untitled(b) && Merge(a) == Merge(b)
    ensures Keyed(a, k) == Keyed(b, k)
  {
    hide SortRows, Keyed, Ordered;
    SortUntitled(a);
    SortUntitled(b);
    SameTitles(SortRows(a), SortRows(b));
    SortRowsSorts(a);
    SortRowsSorts(b);
  }

  lemma KeyedAfterSwap(a: seq<Row>, i: nat, j: nat)
    requires i < j < |a| && KeyOf(a[i]) == KeyOf(a[j]) && a[i] != a[j]
    ensures Keyed(Swapped(a, i, j), KeyOf(a[i])) != Keyed(a, KeyOf(a[i]))
  {
    hide Keyed;
    var b := Swapped(a, i, j);
    KeyedAt(a, i);
    KeyedAt(b, i);
    assert a[..i] == b[..i];
  }

  lemma SwapUntitled(a: seq<Row>, i: nat, j: nat)
    requires i < j < |a| && KeyOf(a[i]) == KeyOf(a[j])
    ensures Untitled(Swapped(a, i, j)) == Untitled(a)
  {}

  lemma SameTitles(a: seq<Row>, b: seq<Row>)
    requires Untitled(a) == Untitled(b) && Publish(a) == Publish(b)
    ensures a == b
  {
    assert |a| == |Untitled(a)| == |b|;
    forall i | 0 <= i < |a| ensures a[i] == b[i] {
      assert Untitled(a)[i] == Untitled(b)[i] && Publish(a)[i] == Publish(b)[i];
    }
  }

  /** The list is a function of the data alone exactly when rows of one day, id and network agree on the title. */
  lemma MergeIgnoresOrderIff(a: seq<Row>)
    ensures Agreeing(a) <==> forall b :: multiset(b) == multiset(a) ==> Merge(b) == Merge(a)
  {
    hide Merge, KeyOf;
    if Agreeing(a) {
      forall b | multiset(b) == multiset(a) ensures Merge(b) == Merge(a) {
        AgreeingRowsMergeAlike(a, b);
      }
    } else {
      var x, y :| x in a && y in a && KeyOf(x) == KeyOf(y) && x != y;
      var i :| 0 <= i < |a| && a[i] == x;
      var j :| 0 <= j < |a| && a[j] == y;
      if i < j { SwapMergesDifferently(a, i, j); } else { SwapMergesDifferently(a, j, i); }
    }
  }

  // ---------------------------------------------------------------- lists gathered from a list

  function FlatMap<A, B>(s: seq<A>, f: A -> seq<B>): seq<B> {
    if s == [] then [] else FlatMap(s[..|s| - 1], f) + f(s[|s| - 1])
  }

  lemma {:induction false} FlatMapConcat<A, B>(a: seq<A>, b: seq<A>, f: A -> seq<B>)
    ensures FlatMap(a + b, f) == FlatMap(a, f) + FlatMap(b, f)
  {
    if b == [] {
      assert a + b == a;
    } else {
      assert (a + b)[..|a + b| - 1] == a + b[..|b| - 1];
      FlatMapConcat(a, b[..|b| - 1], f);
    }
  }

  lemma {:induction false} FlatMapHas<A, B>(s: seq<A>, f: A -> seq<B>, y: B)
    ensures y in FlatMap(s, f) <==> exists x :: x in s && y in f(x)
  {
    if s != [] {
      FlatMapHas(s[..|s| - 1], f, y);
      assert s == s[..|s| - 1] + [s[|s| - 1]];
    }
  }

  lemma SplitAt<A>(s: seq<A>, i: nat)
    requires i < |s|
    ensures s == s[..i] + [s[i]] + s[i + 1..]
    ensures multiset(s) == multiset(s[..i] + s[i + 1..]) + multiset{s[i]}
  {
    assert s == s[..i] + [s[i]] + s[i + 1..];
  }

  lemma FlatMapOne<A, B>(x: A, f: A -> seq<B>)
    ensures FlatMap([x], f) == f(x)
  {
    assert [x][..0] == [];
  }

  lemma FlatMapWithout<A, B>(s: seq<A>, i: nat, f: A -> seq<B>)
    requires i < |s|
    ensures multiset(FlatMap(s, f)) == multiset(FlatMap(s[..i] + s[i + 1..], f)) + multiset(f(s[i]))
  {
    hide FlatMap;
    SplitAt(s, i);
    FlatMapConcat(s[..i] + [s[i]], s[i + 1..], f);
    FlatMapConcat(s[..i], [s[i]], f);
    FlatMapConcat(s[..i], s[i + 1..], f);
    FlatMapOne(s[i], f);
  }

  lemma SameRest<A>(m: multiset<A>, n: multiset<A>, x: A)
    requires m + multiset{x} == n + multiset{x}
    ensures m == n
  {
    assert m == m + multiset{x} - multiset{x};
  }

  lemma FindSame<A>(a: seq<A>, b: seq<A>) returns (i: nat)
    requires multiset(a) == multiset(b) && a != []
    ensures i < |b| && b[i] == a[0]
    ensures multiset(a[1..]) == multiset(b[..i] + b[i + 1..])
  {
    assert a[0] in multiset(b);
    i :| 0 <= i < |b| && b[i] == a[0];
    SplitAt(b, i);
    SplitAt(a, 0);
    assert a[..0] + a[1..] == a[1..];
    SameRest(multiset(a[1..]), multiset(b[..i] + b[i + 1..]), a[0]);
  }

  /** Gathering from a reordered list gives the same elements. */
  lemma {:induction false} FlatMapPermuted<A, B>(a: seq<A>, b: seq<A>, f: A -> seq<B>)
    requires multiset(a) == multiset(b)
    ensures multiset(FlatMap(a, f)) == multiset(FlatMap(b, f))
  {
    hide FlatMap;
    assert |multiset(a)| == |multiset(b)|;
    if a != [] {
      var i := FindSame(a, b);
      FlatMapWithout(a, 0, f);
      FlatMapWithout(b, i, f);
      assert a[..0] + a[1..] == a[1..];
      FlatMapPermuted(a[1..], b[..i] + b[i + 1..], f);
    }
  }

  // ---------------------------------------------------------------- the walk over the registry

  function HashOf(entry: Value): seq<Text> {
    var hash := NonEmptyString(entry, NETWORK_HASH);
    if hash.Some? then [hash.value] else []
  }

  /** The network hashes the registry holds, in its order. */
  function HeldHashes(entries: seq<Value>): seq<Text> {
    FlatMap(entries, HashOf)
  }

  function Matching(hashes: seq<Text>, hash: Text): seq<Text> {
    if hashes == [] then []
    else
      var last := hashes[|hashes| - 1];
      Matching(hashes[..|hashes| - 1], hash) + if last == hash then [last] else []
  }

  /** The gate: a requested hash only selects among the held ones. */
  function Gate(held: seq<Text>, requested: Option<Text>): seq<Text> {
    if requested.Some? && Matching(held, requested.value) != [] then Matching(held, requested.value) else held
  }

  function Attempts(hashes: seq<Text>, answers: nat -> Answer): seq<Attempt> {
    seq(|hashes|, i requires 0 <= i < |hashes| => Attempt(hashes[i], answers(i)))
  }

  predicate Readable(a: Attempt) {
    a.answer.attach.Ok? && a.answer.list.Ok?
  }

  /** The handle a successful attach handed over. */
  function Got(a: Attempt): Option<Handle> {
    if a.answer.attach.Ok? then a.answer.attach.value else None
  }

  /** The database rows read from a network; none when it could not be read. */
  function Listing(a: Attempt): seq<Value> {
    if Readable(a) then Elems(a.answer.list.value) else []
  }

  function RowsOf(a: Attempt): seq<Row> {
    IndexRows(a.hash, Listing(a))
  }

  /** The calls made for one network. */
  function Calls(a: Attempt): seq<Event> {
    [Attach(a.hash)]
    + (if a.answer.attach.Ok? then [List(a.answer.attach.value)] else [])
    + (if Got(a).Some? then [Close(Got(a).value)] else [])
  }

  function Trace(attempts: seq<Attempt>): seq<Event> {
    FlatMap(attempts, Calls)
  }

  function AllRows(attempts: seq<Attempt>): seq<Row> {
    FlatMap(attempts, RowsOf)
  }

  function Failures(a: Attempt): seq<Attempt> {
    if Readable(a) then [] else [a]
  }

  function Unreadable(attempts: seq<Attempt>): nat {
    |FlatMap(attempts, Failures)|
  }

  function Finding(attempts: seq<Attempt>, registryRead: bool): Found {
    Found(Merge(AllRows(attempts)), |attempts|, Unreadable(attempts), registryRead && Unreadable(attempts) == 0)
  }

  function Registered(registry: Result<Value, ()>): seq<Value> {
    if registry.Ok? then Elems(registry.value) else []
  }

  /** The networks attempted, in the order of the registry. */
  function Chosen(options: Value, registry: Result<Value, ()>): seq<Text> {
    Gate(HeldHashes(Registered(registry)), NonEmptyString(options, NETWORK_HASH))
  }

  method LoadHeldElections(options: Value, registry: Result<Value, ()>, answers: nat -> Answer)
      returns (found: Found, log: seq<Event>)
    ensures log == Trace(Attempts(Chosen(options, registry), answers))
    ensures found == Finding(Attempts(Chosen(options, registry), answers), registry.Ok?)
  {
    hide Ascii, Prop, Merge, Readable, IndexRows, Trace, AllRows, Unreadable, HeldHashes, Matching;
    var entries, registryRead := [], true;
    match registry {
      case Ok(listed) => entries := Elems(listed);
      case Err(_) => registryRead := false;
    }

    var held := Hashes(entries);
    var requested := NonEmptyString(options, NETWORK_HASH);
    var attempted := held;
    if requested.Some? {
      var scoped := Scope(held, requested.value);
      if |scoped| > 0 { attempted := scoped; }
    }

    var per, unreadable, calls := ReadNetworks(attempted, answers);
    log := calls;
    var elections := MergeHeldElections(per);
    found := Found(elections, |attempted|, unreadable, registryRead && unreadable == 0);
  }

  /** Attach, read and close one network after the other. */
  method ReadNetworks(attempted: seq<Text>, answers: nat -> Answer)
      returns (per: seq<seq<Row>>, unreadable: nat, log: seq<Event>)
    ensures var attempts := Attempts(attempted, answers);
      log == Trace(attempts) && Flat(per) == AllRows(attempts) && unreadable == Unreadable(attempts)
  {
    hide Calls, RowsOf, Failures;
    ghost var all := Attempts(attempted, answers);
    per, unreadable, log := [], 0, [];
    for i := 0 to |attempted|
      invariant log == Trace(all[..i]) && Flat(per) == AllRows(all[..i]) && unreadable == Unreadable(all[..i])
    {
      assert all[..i + 1][..i] == all[..i];
      var rows, calls := ReadNetwork(attempted[i], answers(i));
      log := log + calls;
      OneAttempt(all[i]);
      match rows
      case Some(rs) =>
        assert (per + [rs])[..|per|] == per;
        per := per + [rs];
      case None =>
        unreadable := unreadable + 1;
    }
    assert all[..|attempted|] == all;
  }

  lemma OneAttempt(a: Attempt)
    ensures !Readable(a) ==> RowsOf(a) == []
    ensures |Failures(a)| == if Readable(a) then 0 else 1
  {}

  /** Attach, read, close: `None` when attaching or reading threw. */
  method ReadNetwork(hash: Text, answer: Answer) returns (rows: Option<seq<Row>>, calls: seq<Event>)
    ensures calls == Calls(Attempt(hash, answer))
    ensures rows == if Readable(Attempt(hash, answer)) then Some(RowsOf(Attempt(hash, answer))) else None
  {
    var db: Option<Handle> := None;
    rows := None;
    calls := [Attach(hash)];
    if answer.attach.Ok? {
      db := answer.attach.value;
      calls := calls + [List(db)];
      if answer.list.Ok? {
        var rs := ToIndexRows(hash, answer.list.value);
        rows := Some(rs);
      }
    }
    if db.Some? { calls := calls + [Close(db.value)]; }    // best effort: CloseFailuresIgnored
  }

  method Hashes(entries: seq<Value>) returns (held: seq<Text>)
    ensures held == HeldHashes(entries)
  {
    hide Ascii, NonEmptyString;
    held := [];
    for i := 0 to |entries|
      invariant held == HeldHashes(entries[..i])
    {
      assert entries[..i + 1][..i] == entries[..i];
      var hash := NonEmptyString(entries[i], NETWORK_HASH);
      if hash.Some? { held := held + [hash.value]; }
    }
    assert entries[..|entries|] == entries;
  }

  method Scope(held: seq<Text>, requested: Text) returns (scoped: seq<Text>)
    ensures scoped == Matching(held, requested)
  {
    scoped := [];
    for i := 0 to |held|
      invariant scoped == Matching(held[..i], requested)
    {
      assert held[..i + 1][..i] == held[..i];
      if held[i] == requested { scoped := scoped + [held[i]]; }
    }
    assert held[..|held|] == held;
  }

  // ---------------------------------------------------------------- what the walk promises

  function CountOf(log: seq<Event>, e: Event): nat {
    multiset(log)[e]
  }

  /** How many attaches handed over `h`. */
  function GotTimes(attempts: seq<Attempt>, h: Handle): nat {
    if attempts == [] then 0
    else GotTimes(attempts[..|attempts| - 1], h) + if Got(attempts[|attempts| - 1]) == Some(h) then 1 else 0
  }

  /** Whatever throws, a handle is closed exactly as often as it was handed over. */
  lemma {:induction false} EveryHandleClosed(attempts: seq<Attempt>, h: Handle)
    ensures CountOf(Trace(attempts), Close(h)) == GotTimes(attempts, h)
  {
    hide Calls;
    if attempts != [] {
      EveryHandleClosed(attempts[..|attempts| - 1], h);
      CallsClose(attempts[|attempts| - 1], h);
    }
  }

  lemma CallsClose(a: Attempt, h: Handle)
    ensures CountOf(Calls(a), Close(h)) == if Got(a) == Some(h) then 1 else 0
  {}

  lemma {:induction false} MatchingIs(hashes: seq<Text>, hash: Text)
    ensures forall h :: h in Matching(hashes, hash) <==> h in hashes && h == hash
  {
    if hashes != [] {
      MatchingIs(hashes[..|hashes| - 1], hash);
      assert hashes == hashes[..|hashes| - 1] + [hashes[|hashes| - 1]];
    }
  }

  lemma {:induction false} TraceAttaches(attempts: seq<Attempt>, hash: Text)
    ensures Attach(hash) in Trace(attempts) <==> exists a :: a in attempts && a.hash == hash
  {
    if attempts != [] {
      TraceAttaches(attempts[..|attempts| - 1], hash);
      assert attempts == attempts[..|attempts| - 1] + [attempts[|attempts| - 1]];
    }
  }

  /**
   * Only networks the registry holds are ever attached: the requested one alone when it is held, and every held
   * one otherwise.
   */
  lemma OnlyRegistryHashesAttached(held: seq<Text>, requested: Option<Text>, answers: nat -> Answer, hash: Text)
    ensures Attach(hash) in Trace(Attempts(Gate(held, requested), answers))
       <==> hash in held && (requested.Some? && requested.value in held ==> hash == requested.value)
  {
    hide Trace, Matching;
    var hashes := Gate(held, requested);
    var attempts := Attempts(hashes, answers);
    TraceAttaches(attempts, hash);
    if requested.Some? {
      MatchingIs(held, requested.value);
      if Matching(held, requested.value) != [] { assert Matching(held, requested.value)[0] in held; }
    }
    assert hash in hashes <==> exists a :: a in attempts && a.hash == hash by {
      if hash in hashes {
        var i :| 0 <= i < |hashes| && hashes[i] == hash;
        assert attempts[i] in attempts;
      }
    }
  }

  /** The same from the values themselves: the registry's entries and the request as they were handed in. */
  lemma AttachedIff(options: Value, registry: Result<Value, ()>, answers: nat -> Answer, hash: Text)
    ensures Attach(hash) in Trace(Attempts(Chosen(options, registry), answers)) <==>
      && registry.Ok? && IsHeld(registry.value, hash)
      && forall r :: Prop(options, Ascii("networkHash")) == Str(r) && IsHeld(registry.value, r) ==> hash == r
  {
    hide Trace, Gate, HeldHashes, Ascii, Prop, Attempts;
    var held, requested := HeldHashes(Registered(registry)), NonEmptyString(options, NETWORK_HASH);
    OnlyRegistryHashesAttached(held, requested, answers, hash);
    forall h ensures h in held <==> registry.Ok? && IsHeld(registry.value, h) {
      HeldHashesAre(Registered(registry), h);
    }
  }

  /** Some entry of the registry has this non-empty hash. */
  ghost predicate IsHeld(listed: Value, hash: Text) {
    hash != [] && exists e :: e in Elems(listed) && Prop(e, Ascii("networkHash")) == Str(hash)
  }

  lemma NoneUnreadable(attempts: seq<Attempt>)
    ensures Unreadable(attempts) == 0 <==> forall a <- attempts :: Readable(a)
  {
    hide Readable, FlatMap;
    var failures := FlatMap(attempts, Failures);
    forall a | a in attempts && !Readable(a) ensures failures != [] {
      FlatMapHas(attempts, Failures, a);
    }
    if failures != [] { FlatMapHas(attempts, Failures, failures[0]); }
  }

  /** `complete` holds exactly when the registry was read and every attempted network answered. */
  lemma CompleteIff(attempts: seq<Attempt>, registryRead: bool)
    ensures Finding(attempts, registryRead).complete
       <==> registryRead && forall a <- attempts :: a.answer.attach.Ok? && a.answer.list.Ok?
  {
    NoneUnreadable(attempts);
  }

  /** The attempts whose attach or read threw. */
  function ThrewAt(attempts: seq<Attempt>): set<nat> {
    set i | 0 <= i < |attempts| && (attempts[i].answer.attach.Err? || attempts[i].answer.list.Err?)
  }

  /** The counters: every network attempted, and those whose attach or read threw. */
  lemma CountersAre(attempts: seq<Attempt>, registryRead: bool)
    ensures Finding(attempts, registryRead).attempted == |attempts|
    ensures Finding(attempts, registryRead).unreadable == |ThrewAt(attempts)|
  {
    hide Merge, AllRows;
    UnreadableCounts(attempts);
  }

  lemma {:induction false} UnreadableCounts(attempts: seq<Attempt>)
    ensures Unreadable(attempts) == |ThrewAt(attempts)|
  {
    hide Failures;
    if attempts == [] {
      assert ThrewAt([]) == {};
    } else {
      var n := |attempts| - 1;
      var last := attempts[n];
      UnreadableCounts(attempts[..n]);
      OneAttempt(last);
      assert ThrewAt(attempts) == ThrewAt(attempts[..n]) + if Readable(last) then {} else {n};
    }
  }

  /** The hashes held are the non-empty strings under `networkHash`. */
  lemma HeldHashesAre(entries: seq<Value>, hash: Text)
    ensures hash in HeldHashes(entries)
       <==> hash != [] && exists e :: e in entries && Prop(e, Ascii("networkHash")) == Str(hash)
  {
    hide Ascii, Prop, FlatMap;
    FlatMapHas(entries, HashOf, hash);
  }

  /** A network's calls come in this order: attach, then read what was handed over, then close it. */
  lemma CallsInOrder(a: Attempt)
    ensures |Calls(a)| >= 1 && Calls(a)[0] == Attach(a.hash)
    ensures a.answer.attach.Err? ==> |Calls(a)| == 1
    ensures a.answer.attach.Ok? ==> |Calls(a)| >= 2 && Calls(a)[1] == List(a.answer.attach.value)
    ensures a.answer.attach.Ok? && a.answer.attach.value.Some? ==>
      |Calls(a)| == 3 && Calls(a)[2] == Close(a.answer.attach.value.value)
  {}

  lemma AllRowsAre(attempts: seq<Attempt>, row: Row)
    ensures row in AllRows(attempts) <==> exists a :: a in attempts && row in RowsOf(a)
  {
    FlatMapHas(attempts, RowsOf, row);
  }

  /** The list holds every election of every readable network and no other, each network's under its own hash. */
  lemma ListedIff(attempts: seq<Attempt>, registryRead: bool, e: HeldElection)
    ensures e in Finding(attempts, registryRead).elections
       <==> exists a, r :: a in attempts && r in Listing(a) && Shows(a.hash, r, e)
  {
    hide RowOf, SortRows, Merge, Listing, IndexRows, Shows;
    PublishedIff(AllRows(attempts), e);
    if row :| row in AllRows(attempts) && e == Published(row) {
      AllRowsAre(attempts, row);
      var a :| a in attempts && row in RowsOf(a);
      IndexRowsAre(a.hash, Listing(a), row);
      var r :| r in Listing(a) && RowOf(a.hash, r) == Some(row);
      ShowsIsPublished(a.hash, r, e);
    }
    forall a, r | a in attempts && r in Listing(a) && Shows(a.hash, r, e) ensures e in Merge(AllRows(attempts)) {
      ShowsIsPublished(a.hash, r, e);
      var row := RowOf(a.hash, r).value;
      IndexRowsAre(a.hash, Listing(a), row);
      AllRowsAre(attempts, row);
    }
  }

  /** `e` is what the database row `r` of network `hash` is listed as; a row without a title is listed too. */
  predicate Shows(hash: Text, r: Value, e: HeldElection) {
    && e.networkHash == hash && e.electionId != [] && Prop(r, Ascii("Id")) == Str(e.electionId)
    && if Prop(r, Ascii("Title")).Str? then e.title == Some(Prop(r, Ascii("Title")).text) else e.title == None
  }

  lemma ShowsIsPublished(hash: Text, r: Value, e: HeldElection)
    ensures Shows(hash, r, e) <==> RowOf(hash, r).Some? && e == Published(RowOf(hash, r).value)
  {
    hide Ascii, Prop;
  }

  lemma PublishedIff(rows: seq<Row>, e: HeldElection)
    ensures e in Merge(rows) <==> exists row :: row in rows && e == Published(row)
  {
    hide SortRows;
    SortRowsSorts(rows);
    var s := SortRows(rows);
    assert forall row :: row in rows <==> row in multiset(s);
    if e in Merge(rows) {
      var i :| 0 <= i < |s| && Publish(s)[i] == e;
      assert s[i] in rows;
    }
    if row :| row in rows && e == Published(row) {
      assert row in s;
      var i :| 0 <= i < |s| && s[i] == row;
      assert Publish(s)[i] == e;
    }
  }

  lemma PermutedAttempts(a: seq<Attempt>, b: seq<Attempt>)
    requires multiset(a) == multiset(b)
    ensures |a| == |b| && Unreadable(a) == Unreadable(b)
    ensures multiset(AllRows(a)) == multiset(AllRows(b))
  {
    hide FlatMap, Failures;
    FlatMapPermuted(a, b, RowsOf);
    FlatMapPermuted(a, b, Failures);
    assert |multiset(a)| == |multiset(b)|;
    assert |multiset(FlatMap(a, Failures))| == |multiset(FlatMap(b, Failures))|;
  }

  /** The same networks with the same answers, attempted in any order, give the same finding. */
  lemma AttemptOrderIrrelevant(a: seq<Attempt>, b: seq<Attempt>, registryRead: bool)
    requires multiset(a) == multiset(b) && Agreeing(AllRows(a))
    ensures Finding(a, registryRead) == Finding(b, registryRead)
  {
    hide Merge, AllRows, Unreadable, Agreeing;
    PermutedAttempts(a, b);
    AgreeingRowsMergeAlike(AllRows(a), AllRows(b));
  }

  /** The attempts when what a network answers depends on the network. */
  function Responses(hashes: seq<Text>, respond: Text -> Answer): seq<Attempt> {
    seq(|hashes|, i requires 0 <= i < |hashes| => Attempt(hashes[i], respond(hashes[i])))
  }

  lemma {:induction false} ResponsesCount(hashes: seq<Text>, respond: Text -> Answer, x: Attempt)
    ensures multiset(Responses(hashes, respond))[x]
         == if x.answer == respond(x.hash) then multiset(hashes)[x.hash] else 0
  {
    if hashes != [] {
      ResponsesCount(hashes[1..], respond, x);
      assert hashes == [hashes[0]] + hashes[1..];
      assert Responses(hashes, respond) == [Attempt(hashes[0], respond(hashes[0]))] + Responses(hashes[1..], respond);
    }
  }

  lemma {:induction false} MatchingCount(hashes: seq<Text>, hash: Text, x: Text)
    ensures multiset(Matching(hashes, hash))[x] == if x == hash then multiset(hashes)[x] else 0
  {
    if hashes != [] {
      MatchingCount(hashes[..|hashes| - 1], hash, x);
      assert hashes == hashes[..|hashes| - 1] + [hashes[|hashes| - 1]];
    }
  }

  /** The gate selects the same networks from a reordered registry. */
  lemma GateIgnoresOrder(held: seq<Text>, other: seq<Text>, requested: Option<Text>)
    requires multiset(held) == multiset(other)
    ensures multiset(Gate(held, requested)) == multiset(Gate(other, requested))
  {
    hide Matching;
    if requested.Some? {
      var a, b := Matching(held, requested.value), Matching(other, requested.value);
      forall x ensures multiset(a)[x] == multiset(b)[x] {
        MatchingCount(held, requested.value, x);
        MatchingCount(other, requested.value, x);
      }
      assert multiset(a) == multiset(b);
      assert |multiset(a)| == |multiset(b)|;
    }
  }

  lemma ResponsesPermuted(a: seq<Text>, b: seq<Text>, respond: Text -> Answer)
    requires multiset(a) == multiset(b)
    ensures multiset(Responses(a, respond)) == multiset(Responses(b, respond))
  {
    forall x ensures multiset(Responses(a, respond))[x] == multiset(Responses(b, respond))[x] {
      ResponsesCount(a, respond, x);
      ResponsesCount(b, respond, x);
    }
  }

  /** What each network answers is a property of the network. */
  ghost predicate AnswersAre(hashes: seq<Text>, answers: nat -> Answer, respond: Text -> Answer) {
    forall i :: 0 <= i < |hashes| ==> answers(i) == respond(hashes[i])
  }

  /**
   * Reordering the registry changes nothing: two registries with the same entries in any order, whose networks
   * answer alike, give the same finding, as long as rows of one day, id and network agree on the title.
   */
  lemma RegistryOrderIrrelevant(options: Value, listed: Result<Value, ()>, other: Result<Value, ()>,
                                answers: nat -> Answer, otherAnswers: nat -> Answer, respond: Text -> Answer)
    requires listed.Ok? == other.Ok? && multiset(Registered(listed)) == multiset(Registered(other))
    requires AnswersAre(Chosen(options, listed), answers, respond)
    requires AnswersAre(Chosen(options, other), otherAnswers, respond)
    requires Agreeing(AllRows(Attempts(Chosen(options, listed), answers)))
    ensures Finding(Attempts(Chosen(options, listed), answers), listed.Ok?)
         == Finding(Attempts(Chosen(options, other), otherAnswers), other.Ok?)
  {
    hide FlatMap, Gate, Finding, Agreeing, AllRows;
    var a, b := Chosen(options, listed), Chosen(options, other);
    FlatMapPermuted(Registered(listed), Registered(other), HashOf);
    GateIgnoresOrder(HeldHashes(Registered(listed)), HeldHashes(Registered(other)), NonEmptyString(options, NETWORK_HASH));
    assert Attempts(a, answers) == Responses(a, respond) && Attempts(b, otherAnswers) == Responses(b, respond);
    ResponsesPermuted(a, b, respond);
    AttemptOrderIrrelevant(Responses(a, respond), Responses(b, respond), listed.Ok?);
  }

  // ---------------------------------------------------------------- a title that changed between two reads

  /** A read of one network that lists one election under `title`. */
  function ReadTitled(title: Text): Attempt {
    Attempt([1], Answer(Ok(Some(0)), Ok(Arr([Obj(map[ID := Str([1]), TITLE := Str(title), DATE := Str([1])])])), false))
  }

  lemma TitledRow(title: Text)
    ensures RowsOf(ReadTitled(title)) == [Row([1], [1], Some(title), [1])]
  {
    assert |ID| == 2 && |TITLE| == 5 && |DATE| == 4;
    hide Ascii;
    var r := Obj(map[ID := Str([1]), TITLE := Str(title), DATE := Str([1])]);
    assert Listing(ReadTitled(title)) == [r];
    assert RowOf([1], r) == Some(Row([1], [1], Some(title), [1]));
    assert [r][..0] == [];
    assert IndexRows([1], []) == [];
    assert IndexRows([1], [r]) == [Row([1], [1], Some(title), [1])];
  }

  /** One network held twice, its election renamed between the two reads: the finding depends on their order. */
  lemma RenamedElectionDependsOnOrder()
    ensures Finding([ReadTitled([1]), ReadTitled([2])], true) != Finding([ReadTitled([2]), ReadTitled([1])], true)
  {
    hide RowsOf, Merge, ReadTitled;
    var a, b := ReadTitled([1]), ReadTitled([2]);
    TitledRow([1]);
    TitledRow([2]);
    assert [a, b][..1] == [a] && [b, a][..1] == [b];
    FlatMapOne(a, RowsOf);
    FlatMapOne(b, RowsOf);
    var rows := AllRows([a, b]);
    assert rows[0] == Row([1], [1], Some([1]), [1]) && rows[1] == Row([1], [1], Some([2]), [1]);
    assert AllRows([b, a]) == Swapped(rows, 0, 1);
    SwapMergesDifferently(rows, 0, 1);
  }

  // ---------------------------------------------------------------- a close that throws

  /** The attempts, with other outcomes of closing. */
  function WithCloses(attempts: seq<Attempt>, throws: nat -> bool): seq<Attempt> {
    seq(|attempts|, i requires 0 <= i < |attempts| =>
      Attempt(attempts[i].hash, attempts[i].answer.(closeThrows := throws(i))))
  }

  lemma OneClose(a: Attempt, throws: bool)
    ensures var b := Attempt(a.hash, a.answer.(closeThrows := throws));
      Calls(b) == Calls(a) && RowsOf(b) == RowsOf(a) && |Failures(b)| == |Failures(a)|
  {
    hide IndexRows;
  }

  lemma {:induction false} ClosesGather(attempts: seq<Attempt>, throws: nat -> bool)
    ensures Trace(WithCloses(attempts, throws)) == Trace(attempts)
    ensures AllRows(WithCloses(attempts, throws)) == AllRows(attempts)
    ensures Unreadable(WithCloses(attempts, throws)) == Unreadable(attempts)
  {
    hide Calls, RowsOf, Failures;
    if attempts != [] {
      var n := |attempts| - 1;
      ClosesGather(attempts[..n], throws);
      assert WithCloses(attempts, throws)[..n] == WithCloses(attempts[..n], throws);
      OneClose(attempts[n], throws(n));
    }
  }

  /** Closing is best effort: whichever closes throw, the calls and the finding are the same. */
  lemma CloseFailuresIgnored(attempts: seq<Attempt>, throws: nat -> bool, registryRead: bool)
    ensures Trace(WithCloses(attempts, throws)) == Trace(attempts)
    ensures Finding(WithCloses(attempts, throws), registryRead) == Finding(attempts, registryRead)
  {
    hide Trace, AllRows, Unreadable, Merge;
    ClosesGather(attempts, throws);
  }
}
