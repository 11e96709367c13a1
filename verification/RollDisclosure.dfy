/**
 * Which roll columns an anonymous reader sees, and the small-district fold
 * (apps/VoteTorrentPublic/src/roll-disclosure.js).
 *
 * Neither function trusts its arguments: rows and policies are arbitrary JavaScript values.
 */
module RollDisclosure {
  import opened Common
  import opened CodeUnits
  import opened JsValues

  // ---------------------------------------------------------------- which columns render

  const FIELD: Text := Ascii("field")
  const AUDIENCE: Text := Ascii("audience")
  const DISTRICT_FIELD: Text := Ascii("District")
  const ROLL_FIELDS: seq<Text> := [Ascii("LastName"), Ascii("FirstName"), Ascii("District")]
  const ANONYMOUS_AUDIENCE: Text := Ascii("everyone")
  const DISCLOSURE_AUDIENCE_CODES: seq<Text> := [Ascii("district"), Ascii("everyone")]

  predicate PermitsAnonymousReader(entry: Value, field: Text) {
    if !IsObject(entry) then false
    else
      var f := Prop(entry, FIELD);
      var audience := Prop(entry, AUDIENCE);
      if !f.Str? || f.text == [] then false
      else if f.text != field then false
      else if !audience.Str? || audience.text == [] then false
      else if audience.text !in DISCLOSURE_AUDIENCE_CODES then false
      else audience.text == ANONYMOUS_AUDIENCE
  }

  predicate Names(entry: Value, field: Text) {
    IsObject(entry) && Prop(entry, FIELD) == Str(field)
  }

  /** `field` may render: the first entry naming it says `everyone`. */
  ghost predicate Renders(policy: Value, field: Text) {
    exists i :: Decides(Elems(policy), i, field) && Prop(Elems(policy)[i], AUDIENCE) == Str(ANONYMOUS_AUDIENCE)
  }

  ghost predicate Decides(entries: seq<Value>, i: int, field: Text) {
    0 <= i < |entries| && Names(entries[i], field) && forall j :: 0 <= j < i ==> !Names(entries[j], field)
  }

  ghost function Rendering(fields: seq<Text>, policy: Value, want: bool): seq<Text> {
    if fields == [] then []
    else
      var last := fields[|fields| - 1];
      Rendering(fields[..|fields| - 1], policy, want) + if Renders(policy, last) == want then [last] else []
  }

  /** Entry `i` is the first with that field, and its audience is everyone. */
  ghost predicate FirstSaysEveryone(entries: seq<Value>, i: int, field: Text) {
    && 0 <= i < |entries|
    && Prop(entries[i], Ascii("field")) == Str(field) && Prop(entries[i], Ascii("audience")) == Str(Ascii("everyone"))
    && forall j :: 0 <= j < i ==> Prop(entries[j], Ascii("field")) != Str(field)
  }

  /** A field renders iff the first entry naming it says `everyone`. */
  lemma RendersIff(policy: Value, field: Text)
    ensures Renders(policy, field) <==> exists i :: FirstSaysEveryone(Elems(policy), i, field)
  {
    hide Ascii;
    var entries := Elems(policy);
    if Renders(policy, field) {
      var i :| Decides(entries, i, field) && Prop(entries[i], AUDIENCE) == Str(ANONYMOUS_AUDIENCE);
      forall j | 0 <= j < i ensures Prop(entries[j], FIELD) != Str(field) { assert !Names(entries[j], field); }
      assert FirstSaysEveryone(entries, i, field);
    }
    if i :| FirstSaysEveryone(entries, i, field) { assert Decides(entries, i, field); }
  }

  lemma FieldsAreNamed()
    ensures forall f <- ROLL_FIELDS :: f != []
    ensures DISTRICT_FIELD in ROLL_FIELDS
  {
    assert ROLL_FIELDS[2] == DISTRICT_FIELD;
  }

  lemma EveryoneIsACode()
    ensures ANONYMOUS_AUDIENCE != [] && ANONYMOUS_AUDIENCE in DISCLOSURE_AUDIENCE_CODES
  {
    assert DISCLOSURE_AUDIENCE_CODES[1] == ANONYMOUS_AUDIENCE;
  }

  lemma PermitsIff(entry: Value, field: Text)
    requires field != []
    ensures PermitsAnonymousReader(entry, field) <==> Names(entry, field) && Prop(entry, AUDIENCE) == Str(ANONYMOUS_AUDIENCE)
    ensures PermitsAnonymousReader(entry, field)
       <==> entry.Obj? && Prop(entry, Ascii("field")) == Str(field) && Prop(entry, Ascii("audience")) == Str(Ascii("everyone"))
  {
    EveryoneIsACode();
  }

  method Find(entries: seq<Value>, field: Text) returns (entry: Value)
    ensures (entry == Undefined && forall j :: 0 <= j < |entries| ==> !Names(entries[j], field))
         || (exists i :: Decides(entries, i, field) && entry == entries[i])
  {
    for i := 0 to |entries|
      invariant forall j :: 0 <= j < i ==> !Names(entries[j], field)
    {
      if Names(entries[i], field) { return entries[i]; }
    }
    return Undefined;
  }

  method ResolveRollColumns(policy: Value) returns (columns: seq<Text>, unreadable: seq<Text>)
    ensures columns == Rendering(ROLL_FIELDS, policy, true) && unreadable == Rendering(ROLL_FIELDS, policy, false)
  {
    hide Renders, PermitsAnonymousReader, Names, Ascii, Rendering, Decides;
    RenderingNothing(policy);
    FieldsAreNamed();
    columns, unreadable := [], [];
    for k := 0 to |ROLL_FIELDS|
      invariant columns == Rendering(ROLL_FIELDS[..k], policy, true)
      invariant unreadable == Rendering(ROLL_FIELDS[..k], policy, false)
    {
      var field := ROLL_FIELDS[k];
      assert field in ROLL_FIELDS;
      var entry := Find(Elems(policy), field);
      FoundDecides(policy, field, entry);
      RenderingSnoc(ROLL_FIELDS, policy, true, k);
      RenderingSnoc(ROLL_FIELDS, policy, false, k);
      if PermitsAnonymousReader(entry, field) {
        columns := columns + [field];
      } else {
        unreadable := unreadable + [field];
      }
    }
    assert ROLL_FIELDS[..|ROLL_FIELDS|] == ROLL_FIELDS;
  }

  lemma FoundDecides(policy: Value, field: Text, entry: Value)
    requires field != []
    requires (entry == Undefined && forall j :: 0 <= j < |Elems(policy)| ==> !Names(Elems(policy)[j], field))
          || (exists i :: Decides(Elems(policy), i, field) && entry == Elems(policy)[i])
    ensures PermitsAnonymousReader(entry, field) <==> Renders(policy, field)
  {
    hide PermitsAnonymousReader, Names;
    PermitsIff(entry, field);
    if entry == Undefined { assert !Names(entry, field) by { NotNamed(field); } }
    if i :| Decides(Elems(policy), i, field) && entry == Elems(policy)[i] {
      forall j | Decides(Elems(policy), j, field) ensures i == j {
        assert !(i < j) && !(j < i);
      }
    }
  }

  lemma RenderingNothing(policy: Value)
    ensures Rendering([], policy, true) == [] == Rendering([], policy, false)
  {}

  lemma RenderingSnoc(fields: seq<Text>, policy: Value, want: bool, k: nat)
    requires k < |fields|
    ensures Rendering(fields[..k + 1], policy, want)
         == Rendering(fields[..k], policy, want) + if Renders(policy, fields[k]) == want then [fields[k]] else []
  {
    hide Renders;
    assert fields[..k + 1][..k] == fields[..k];
  }

  lemma NotNamed(field: Text)
    ensures !Names(Undefined, field)
  {}

  /** A field renders or is reported unreadable, never both. */
  lemma {:induction false} RenderingIs(fields: seq<Text>, policy: Value, want: bool, f: Text)
    ensures f in Rendering(fields, policy, want) <==> f in fields && Renders(policy, f) == want
  {
    hide Renders;
    if fields != [] {
      RenderingIs(fields[..|fields| - 1], policy, want, f);
    }
  }

  /** Together the two lists hold each field as often as the field list does, so neither repeats a field. */
  lemma {:induction false} RenderingSplits(fields: seq<Text>, policy: Value)
    ensures multiset(Rendering(fields, policy, true)) + multiset(Rendering(fields, policy, false)) == multiset(fields)
  {
    hide Renders;
    if fields != [] {
      RenderingSplits(fields[..|fields| - 1], policy);
      assert fields == fields[..|fields| - 1] + [fields[|fields| - 1]];
    }
  }

  /** Each list is in the order of the field list: `at` are the places its fields have there. */
  lemma {:induction false} RenderingKeepsOrder(fields: seq<Text>, policy: Value, want: bool) returns (at: seq<nat>)
    ensures |at| == |Rendering(fields, policy, want)|
    ensures forall i :: 0 <= i < |at| ==> at[i] < |fields| && fields[at[i]] == Rendering(fields, policy, want)[i]
    ensures forall i, j :: 0 <= i < j < |at| ==> at[i] < at[j]
  {
    hide Renders;
    if fields == [] {
      at := [];
    } else {
      at := RenderingKeepsOrder(fields[..|fields| - 1], policy, want);
      if Renders(policy, fields[|fields| - 1]) == want { at := at + [|fields| - 1]; }
    }
  }

  /** This page's declared policy: every roll field, for everyone. */
  const ROLL_DISCLOSURE_POLICY := Arr(seq(|ROLL_FIELDS|, i requires 0 <= i < |ROLL_FIELDS| =>
    Obj(map[FIELD := Str(ROLL_FIELDS[i]), AUDIENCE := Str(ANONYMOUS_AUDIENCE)])))

  /** The declared policy publishes exactly the roll fields. */
  lemma DeclaredPolicyPublishes(field: Text)
    ensures Renders(ROLL_DISCLOSURE_POLICY, field) <==> field in ROLL_FIELDS
    ensures field in ROLL_FIELDS <==> field == Ascii("LastName") || field == Ascii("FirstName") || field == Ascii("District")
  {
    hide Ascii;
    FieldNamesDiffer();
    var entries := Elems(ROLL_DISCLOSURE_POLICY);
    forall i, f | 0 <= i < |ROLL_FIELDS| ensures Names(entries[i], f) <==> f == ROLL_FIELDS[i] {}
    if i :| 0 <= i < |ROLL_FIELDS| && ROLL_FIELDS[i] == field {
      assert Decides(entries, i, field);
    }
  }

  lemma FieldNamesDiffer()
    ensures FIELD != AUDIENCE
    ensures forall i, j :: 0 <= i < j < |ROLL_FIELDS| ==> ROLL_FIELDS[i] != ROLL_FIELDS[j]
  {
    assert FIELD[0] != AUDIENCE[0];
    assert ROLL_FIELDS[0][0] != ROLL_FIELDS[1][0] && ROLL_FIELDS[1][0] != ROLL_FIELDS[2][0];
    assert ROLL_FIELDS[0][0] != ROLL_FIELDS[2][0];
  }

  // ---------------------------------------------------------------- the tally

  const SMALL_DISTRICT_THRESHOLD := 2

  /** What one row adds to: its district, or the group of the unstated. */
  function DistrictOf(row: Value): Option<Text> {
    var value := if IsObject(row) then Prop(row, DISTRICT_FIELD) else Undefined;
    if value.Str? && value.text != [] then Some(value.text) else None
  }

  /** A row adds to the district it names, and to the unstated group exactly when that is no non-empty string. */
  lemma DistrictIs(row: Value)
    ensures DistrictOf(row) ==
      match Prop(row, Ascii("District"))
      case Str(d) => if d == [] then None else Some(d)
      case _ => None
  {
    hide Ascii;
  }

  function Districts(rows: seq<Value>): seq<Option<Text>> {
    seq(|rows|, i requires 0 <= i < |rows| => DistrictOf(rows[i]))
  }

  type Group = Option<Text>

  /** The rows of each named district. */
  ghost predicate IsTally(named: map<Text, nat>, all: multiset<Group>) {
    && (forall d :: d in named <==> Some(d) in all)
    && (forall d <- named :: named[d] == all[Some(d)])
  }

  datatype Entry = Entry(name: Text, count: nat)

  /** The order of the named districts: count descending, then name ascending. */
  predicate Before(a: Entry, b: Entry) {
    a.count > b.count || (a.count == b.count && Less(a.name, b.name))
  }

  ghost predicate Ordered(es: seq<Entry>) {
    forall i, j :: 0 <= i < j < |es| ==> Before(es[i], es[j])
  }

  ghost predicate Lists(es: seq<Entry>, named: map<Text, nat>) {
    && (forall e <- es :: e.name in named && e.count == named[e.name])
    && (forall d <- named :: Entry(d, named[d]) in es)
  }

  ghost predicate IsRanking(es: seq<Entry>, named: map<Text, nat>) {
    Ordered(es) && Lists(es, named)
  }

  lemma BeforeIsStrictOrder(a: Entry, b: Entry, c: Entry)
    ensures Before(a, b) && Before(b, c) ==> Before(a, c)
    ensures !(Before(a, b) && Before(b, a))
    ensures a.name != b.name ==> Before(a, b) || Before(b, a)
  {
    hide Less;
    LessTotal(a.name, b.name);
    if Less(a.name, b.name) && Less(b.name, c.name) { LessTransitive(a.name, b.name, c.name); }
  }

  /** Object.entries followed by the sort: any order of the entries and any sort give the one ranking. */
  method RankedEntries(named: map<Text, nat>) returns (es: seq<Entry>)
    ensures IsRanking(es, named)
  {
    hide Before;
    es := [];
    var left := named.Keys;
    while left != {}
      invariant left <= named.Keys && Ordered(es)
      invariant forall e <- es :: e.name in named && e.name !in left && e.count == named[e.name]
      invariant forall d <- named.Keys - left :: Entry(d, named[d]) in es
    {
      var d :| d in left;
      es := Place(es, Entry(d, named[d]));
      left := left - {d};
    }
  }

  method Place(es: seq<Entry>, x: Entry) returns (r: seq<Entry>)
    requires Ordered(es) && forall e <- es :: e.name != x.name
    ensures Ordered(r) && forall e :: e in r <==> e in es || e == x
  {
    hide Before;
    var k := 0;
    while k < |es| && Before(es[k], x)
      invariant 0 <= k <= |es| && forall i :: 0 <= i < k ==> Before(es[i], x)
    {
      k := k + 1;
    }
    forall j | k <= j < |es| ensures Before(x, es[j]) {
      BeforeIsStrictOrder(es[k], x, x);
      BeforeIsStrictOrder(x, es[k], es[j]);
    }
    r := es[..k] + [x] + es[k..];
  }

  lemma HeadComesFirst(a: seq<Entry>, b: seq<Entry>)
    requires Ordered(a) && Ordered(b) && a != [] && b != [] && a[0] in b && b[0] in a
    ensures a[0] == b[0]
  {
    hide Before;
    BeforeIsStrictOrder(a[0], b[0], a[0]);
    var i :| 0 <= i < |b| && b[i] == a[0];
    var j :| 0 <= j < |a| && a[j] == b[0];
  }

  lemma NotTwice(a: seq<Entry>)
    requires Ordered(a)
    ensures forall i, j :: 0 <= i < j < |a| ==> a[i] != a[j]
  {
    hide Before;
    forall i, j | 0 <= i < j < |a| ensures a[i] != a[j] {
      BeforeIsStrictOrder(a[i], a[j], a[j]);
    }
  }

  lemma TailIs(a: seq<Entry>)
    requires Ordered(a) && a != []
    ensures Ordered(a[1..]) && forall e :: e in a[1..] <==> e in a && e != a[0]
  {
    hide Before;
    NotTwice(a);
    assert a == [a[0]] + a[1..];
    forall e | e in a[1..] ensures e != a[0] {
      var i :| 0 <= i < |a[1..]| && a[1..][i] == e;
      assert a[i + 1] == e;
    }
  }

  lemma HeadIn(s: seq<Entry>)
    ensures s != [] ==> s[0] in s
  {}

  lemma {:induction false} RankingIsUnique(a: seq<Entry>, b: seq<Entry>)
    requires Ordered(a) && Ordered(b) && forall e :: e in a <==> e in b
    ensures a == b
  {
    hide Before;
    if a == [] || b == [] {
      HeadIn(a);
      HeadIn(b);
    } else {
      HeadComesFirst(a, b);
      TailIs(a);
      TailIs(b);
      RankingIsUnique(a[1..], b[1..]);
      assert a == [a[0]] + a[1..] && b == [b[0]] + b[1..];
    }
  }

  // ---------------------------------------------------------------- the fold

  /** A bar of the chart; the folded one has no label. */
  datatype Bucket = Bucket(key: Text, district: Option<Text>, count: nat, folded: bool)

  function Decimal(n: nat): Text {
    (if n < 10 then [] else Decimal(n / 10)) + [48 + n % 10]
  }

  function NamedKey(index: nat): Text {
    [100] + Decimal(index)                                // 'd' + index
  }

  const OTHER_KEY: Text := Ascii("other")

  function Named(es: seq<Entry>): seq<Bucket> {
    seq(|es|, i requires 0 <= i < |es| => Bucket(NamedKey(i), Some(es[i].name), es[i].count, false))
  }

  function Sum(es: seq<Entry>): nat {
    if es == [] then 0 else Sum(es[..|es| - 1]) + es[|es| - 1].count
  }

  /** How many leading entries are districts of at least the threshold. */
  function Large(es: seq<Entry>): (k: nat)
    ensures k <= |es| && forall i :: 0 <= i < k ==> es[i].count >= SMALL_DISTRICT_THRESHOLD
    ensures k < |es| ==> es[k].count < SMALL_DISTRICT_THRESHOLD
  {
    if es != [] && es[0].count >= SMALL_DISTRICT_THRESHOLD then 1 + Large(es[1..]) else 0
  }

  /** How many leading entries stay named: one less than the large ones when a single group would fold. */
  function Cut(es: seq<Entry>, unstated: nat): (k: nat)
    ensures k <= Large(es)
  {
    var groups := |es| - Large(es) + (if unstated > 0 then 1 else 0);
    if groups == 1 && Large(es) > 0 then Large(es) - 1 else Large(es)
  }

  function OtherBar(shown: bool, count: nat): seq<Bucket> {
    if shown then [Bucket(OTHER_KEY, None, count, true)] else []
  }

  function Chart(es: seq<Entry>, unstated: nat): seq<Bucket> {
    var k := Cut(es, unstated);
    Named(es[..k]) + OtherBar(k < |es| || unstated > 0, unstated + Sum(es[k..]))
  }

  /** The chart that goes with the groups of the rows. */
  ghost predicate IsChart(out: seq<Bucket>, all: multiset<Group>) {
    exists named, es :: IsTally(named, all) && IsRanking(es, named) && out == Chart(es, all[None])
  }

  datatype Item = Item(name: Text, count: nat, folded: bool)

  ghost predicate Flagged(items: seq<Item>, es: seq<Entry>, k: nat) {
    && |items| == |es|
    && forall i :: 0 <= i < |es| ==> items[i] == Item(es[i].name, es[i].count, i >= k)
  }

  method FoldDistrictCounts(rows: Value, policy: Value) returns (out: seq<Bucket>)
    ensures !Renders(policy, Ascii("District")) ==> out == []
    ensures Renders(policy, Ascii("District")) ==> IsChart(out, multiset(Districts(Elems(rows))))
  {
    hide Renders, Rendering, Chart, IsTally, IsRanking, Ascii, DistrictOf;
    var columns, unreadable := ResolveRollColumns(policy);
    RenderingIs(ROLL_FIELDS, policy, true, DISTRICT_FIELD);
    FieldsAreNamed();
    if DISTRICT_FIELD !in columns { return []; }
    var named, unstated := Count(Elems(rows));
    var es := RankedEntries(named);
    var items := SmallFolded(es, named);
    items := Guard(es, items, unstated);
    out := Render(es, items, unstated);
  }

  lemma NothingTallied()
    ensures IsTally(map[], multiset{})
  {}

  lemma TallyOne(named: map<Text, nat>, all: multiset<Group>, g: Group)
    requires IsTally(named, all)
    ensures g.None? ==> IsTally(named, all + multiset{g})
    ensures g.Some? ==>
      IsTally(named[g.value := (if g.value in named then named[g.value] else 0) + 1], all + multiset{g})
  {}

  method Count(rows: seq<Value>) returns (named: map<Text, nat>, unstated: nat)
    ensures IsTally(named, multiset(Districts(rows))) && unstated == multiset(Districts(rows))[None]
  {
    hide DistrictOf, IsTally;
    named, unstated := map[], 0;
    NothingTallied();
    assert multiset(Districts(rows[..0])) == multiset{};
    for i := 0 to |rows|
      invariant IsTally(named, multiset(Districts(rows[..i]))) && unstated == multiset(Districts(rows[..i]))[None]
    {
      assert Districts(rows[..i + 1]) == Districts(rows[..i]) + [DistrictOf(rows[i])];
      TallyOne(named, multiset(Districts(rows[..i])), DistrictOf(rows[i]));
      match DistrictOf(rows[i])
      case Some(d) => named := named[d := (if d in named then named[d] else 0) + 1];
      case None => unstated := unstated + 1;
    }
    assert rows[..|rows|] == rows;
  }

  /** The map over the sorted entries that sets each `folded` flag. */
  method SmallFolded(es: seq<Entry>, ghost named: map<Text, nat>) returns (items: seq<Item>)
    requires IsRanking(es, named)
    ensures Flagged(items, es, Large(es))
  {
    hide Less;
    items := [];
    for i := 0 to |es|
      invariant |items| == i
      invariant forall j :: 0 <= j < i ==> items[j] == Item(es[j].name, es[j].count, j >= Large(es))
    {
      if i > Large(es) { assert Before(es[Large(es)], es[i]); }
      items := items + [Item(es[i].name, es[i].count, es[i].count < SMALL_DISTRICT_THRESHOLD)];
    }
  }

  method FoldedGroups(items: seq<Item>, unstated: nat, ghost es: seq<Entry>, ghost k: nat) returns (groups: nat)
    requires Flagged(items, es, k) && k <= |es|
    ensures groups == |es| - k + (if unstated > 0 then 1 else 0)
  {
    groups := 0;
    for i := 0 to |items|
      invariant groups == if i <= k then 0 else i - k
    {
      if items[i].folded { groups := groups + 1; }
    }
    if unstated > 0 { groups := groups + 1; }
  }

  /** The complementary-disclosure guard. */
  method Guard(es: seq<Entry>, start: seq<Item>, unstated: nat) returns (items: seq<Item>)
    requires Flagged(start, es, Large(es))
    ensures Flagged(items, es, Cut(es, unstated))
  {
    items := start;
    ghost var k: nat := Large(es);
    var groups := FoldedGroups(items, unstated, es, k);
    while groups == 1
      invariant Flagged(items, es, k) && k <= Large(es)
      invariant groups == |es| - k + (if unstated > 0 then 1 else 0)
      invariant k == Large(es) || (groups == 2 && k == Cut(es, unstated))
      decreases k
    {
      var last: int := -1;
      var i := |items| - 1;
      while i >= 0
        invariant -1 <= i < |items| && last == -1
        invariant forall j :: i < j < |items| ==> items[j].folded
      {
        if !items[i].folded {
          last := i;
          break;
        }
        i := i - 1;
      }
      assert k > 0 ==> !items[k - 1].folded;
      if last == -1 { break; }
      assert last == k - 1;
      items := items[last := items[last].(folded := true)];
      groups := groups + 1;
      k := last;
    }
  }

  method Render(es: seq<Entry>, items: seq<Item>, unstated: nat) returns (out: seq<Bucket>)
    requires Flagged(items, es, Cut(es, unstated))
    ensures out == Chart(es, unstated)
  {
    hide NamedKey, Cut, Ascii, Sum, Named;
    ghost var k := Cut(es, unstated);
    CutInRange(es, unstated);
    NothingYet(es, k);
    out := [];
    var other, anyFolded, index := unstated, unstated > 0, 0;
    for i := 0 to |items|
      invariant index == (if i <= k then i else k) && out == Named(es[..index])
      invariant other == unstated + if i <= k then 0 else Sum(es[k..i])
      invariant anyFolded == (unstated > 0 || i > k)
    {
      if items[i].folded {
        anyFolded := true;
        SumStep(es, k, i);
        other := other + items[i].count;
      } else {
        NamedStep(es, index);
        out := out + [Bucket(NamedKey(index), Some(items[i].name), items[i].count, false)];
        index := index + 1;
      }
    }
    assert es[k..|es|] == es[k..];
    if anyFolded { out := out + [Bucket(OTHER_KEY, None, other, true)]; }
  }

  lemma NothingYet(es: seq<Entry>, k: nat)
    requires k <= |es|
    ensures Named(es[..0]) == [] && Sum(es[k..k]) == 0
  {}

  lemma SumStep(es: seq<Entry>, k: nat, i: nat)
    requires k <= i < |es|
    ensures Sum(es[k..i + 1]) == Sum(es[k..i]) + es[i].count
  {
    assert es[k..i + 1][..i - k] == es[k..i];
  }

  lemma NamedStep(es: seq<Entry>, i: nat)
    requires i < |es|
    ensures Named(es[..i + 1]) == Named(es[..i]) + [Bucket(NamedKey(i), Some(es[i].name), es[i].count, false)]
  {
    hide NamedKey;
  }

  lemma CutInRange(es: seq<Entry>, unstated: nat)
    ensures Cut(es, unstated) <= |es|
  {}

  // ---------------------------------------------------------------- what the chart promises

  /** The rows of district `d`. */
  function RowsOf(all: multiset<Group>, d: Text): nat {
    all[Some(d)]
  }

  function Total(out: seq<Bucket>): nat {
    if out == [] then 0 else Total(out[..|out| - 1]) + out[|out| - 1].count
  }

  /** The districts of the rows that have no bar of their own. */
  ghost predicate Hidden(out: seq<Bucket>, all: multiset<Group>, d: Text) {
    Some(d) in all && forall b <- out :: b.district != Some(d)
  }

  lemma {:induction false} SumAdds(a: seq<Entry>, b: seq<Entry>)
    ensures Sum(a + b) == Sum(a) + Sum(b)
  {
    if b == [] {
      assert a + b == a;
    } else {
      assert (a + b)[..|a + b| - 1] == a + b[..|b| - 1];
      SumAdds(a, b[..|b| - 1]);
    }
  }

  lemma {:induction false} TotalNamed(es: seq<Entry>)
    ensures Total(Named(es)) == Sum(es)
  {
    hide NamedKey;
    if es != [] {
      TotalNamed(es[..|es| - 1]);
      assert Named(es)[..|es| - 1] == Named(es[..|es| - 1]);
    }
  }

  lemma {:induction false} SumOfTally(es: seq<Entry>, all: multiset<Group>)
    requires forall i, j :: 0 <= i < j < |es| ==> es[i].name != es[j].name
    requires forall e <- es :: e.count == all[Some(e.name)]
    requires forall g :: g in all && g.Some? ==> exists e :: e in es && e.name == g.value
    ensures Sum(es) + all[None] == |all|
  {
    if es == [] {
      forall g | g in all ensures g == None {}
      assert all == multiset{}[None := all[None]];
    } else {
      var e := es[|es| - 1];
      var rest := all[Some(e.name) := 0];
      forall g | g in rest && g.Some? ensures exists x :: x in es[..|es| - 1] && x.name == g.value {
        var x :| x in es && x.name == g.value;
      }
      SumOfTally(es[..|es| - 1], rest);
    }
  }

  lemma NamesDiffer(es: seq<Entry>, named: map<Text, nat>)
    requires IsRanking(es, named)
    ensures forall i, j :: 0 <= i < j < |es| ==> es[i].name != es[j].name
  {
    hide Before;
    NotTwice(es);
    forall i, j | 0 <= i < j < |es| ensures es[i].name != es[j].name {
      assert es[i] in es && es[j] in es;
    }
  }

  lemma TallySum(es: seq<Entry>, named: map<Text, nat>, all: multiset<Group>)
    requires IsTally(named, all) && IsRanking(es, named)
    ensures Sum(es) + all[None] == |all|
  {
    hide Before;
    NamesDiffer(es, named);
    forall g | g in all && g.Some? ensures exists e :: e in es && e.name == g.value {
      assert Entry(g.value, named[g.value]) in es;
    }
    SumOfTally(es, all);
  }

  lemma TotalTail(a: seq<Bucket>, shown: bool, count: nat)
    ensures Total(a + OtherBar(shown, count)) == Total(a) + if shown then count else 0
  {
    hide Ascii;
    if shown { assert (a + OtherBar(shown, count))[..|a|] == a; } else { assert a + OtherBar(shown, count) == a; }
  }

  lemma SumSplits(es: seq<Entry>, k: nat)
    requires k <= |es|
    ensures Sum(es) == Sum(es[..k]) + Sum(es[k..])
    ensures k == |es| ==> Sum(es[k..]) == 0
  {
    SumAdds(es[..k], es[k..]);
    assert es == es[..k] + es[k..];
  }

  lemma TotalBars(es: seq<Entry>, unstated: nat, k: nat)
    requires k <= |es|
    ensures Total(Named(es[..k]) + OtherBar(k < |es| || unstated > 0, unstated + Sum(es[k..]))) == unstated + Sum(es)
  {
    hide Total, Sum, Named, OtherBar;
    SumSplits(es, k);
    TotalNamed(es[..k]);
    TotalTail(Named(es[..k]), k < |es| || unstated > 0, unstated + Sum(es[k..]));
  }

  lemma TotalChart(es: seq<Entry>, unstated: nat)
    ensures Total(Chart(es, unstated)) == unstated + Sum(es)
  {
    hide Total, Sum, Named, Cut, OtherBar;
    CutInRange(es, unstated);
    TotalBars(es, unstated, Cut(es, unstated));
  }

  /** Conservation: the bars add up to the number of rows. */
  lemma BucketsAddUp(out: seq<Bucket>, all: multiset<Group>)
    requires IsChart(out, all)
    ensures Total(out) == |all|
  {
    hide IsTally, IsRanking, Chart, Total, Sum;
    var named, es :| IsTally(named, all) && IsRanking(es, named) && out == Chart(es, all[None]);
    TallySum(es, named, all);
    TotalChart(es, all[None]);
  }

  lemma NamedBucketIs(out: seq<Bucket>, es: seq<Entry>, unstated: nat, i: nat)
    requires out == Chart(es, unstated) && i < |out| && !out[i].folded
    ensures i < Cut(es, unstated) <= |es| && out[i] == Bucket(NamedKey(i), Some(es[i].name), es[i].count, false)
  {
    hide Cut, NamedKey;
    CutInRange(es, unstated);
  }

  lemma HiddenIs(out: seq<Bucket>, named: map<Text, nat>, es: seq<Entry>, all: multiset<Group>, d: Text)
    requires IsTally(named, all) && IsRanking(es, named) && out == Chart(es, all[None])
    requires Hidden(out, all, d)
    ensures exists j :: Cut(es, all[None]) <= j < |es| && es[j] == Entry(d, RowsOf(all, d))
  {
    hide Cut, NamedKey, Before;
    CutInRange(es, all[None]);
    assert Entry(d, named[d]) in es;
    var j :| 0 <= j < |es| && es[j] == Entry(d, named[d]);
    if j < Cut(es, all[None]) { ShownHasBar(out, es, all[None], j); }
  }

  lemma ShownHasBar(out: seq<Bucket>, es: seq<Entry>, unstated: nat, j: nat)
    requires out == Chart(es, unstated) && j < Cut(es, unstated)
    ensures exists b :: b in out && b.district == Some(es[j].name)
  {
    hide NamedKey;
    assert out[j] in out && out[j].district == Some(es[j].name);
  }

  /** A named bar counts the rows of its district: at least the threshold, and no fewer than any hidden district. */
  lemma NamedBucketsAreLarge(out: seq<Bucket>, all: multiset<Group>, b: Bucket, d: Text)
    requires IsChart(out, all) && b in out && !b.folded
    ensures b.district.Some? && b.count == RowsOf(all, b.district.value) >= 2
    ensures Hidden(out, all, d) ==> RowsOf(all, d) <= b.count
  {
    hide Chart, Hidden, NamedKey;
    var named, es :| IsTally(named, all) && IsRanking(es, named) && out == Chart(es, all[None]);
    var i :| 0 <= i < |out| && out[i] == b;
    NamedBucketIs(out, es, all[None], i);
    assert es[i] in es;
    if Hidden(out, all, d) {
      HiddenIs(out, named, es, all, d);
      var j :| Cut(es, all[None]) <= j < |es| && es[j] == Entry(d, RowsOf(all, d));
      assert Before(es[i], es[j]);
    }
  }

  lemma {:induction false} NamesAre(es: seq<Entry>, hidden: set<Text>)
    requires forall i, j :: 0 <= i < j < |es| ==> es[i].name != es[j].name
    requires forall d :: d in hidden <==> exists e :: e in es && e.name == d
    ensures |hidden| == |es|
  {
    if es == [] {
      assert hidden == {};
    } else {
      var e := es[|es| - 1];
      assert e in es;
      forall d ensures d in hidden - {e.name} <==> exists x :: x in es[..|es| - 1] && x.name == d {
        if d in hidden - {e.name} {
          var x :| x in es && x.name == d;
          assert x in es[..|es| - 1];
        }
      }
      NamesAre(es[..|es| - 1], hidden - {e.name});
    }
  }

  ghost function HiddenSet(out: seq<Bucket>, all: multiset<Group>): set<Text> {
    set g | g in all && g.Some? && Hidden(out, all, g.value) :: g.value
  }

  lemma HiddenIff(out: seq<Bucket>, named: map<Text, nat>, es: seq<Entry>, all: multiset<Group>, d: Text)
    requires IsTally(named, all) && IsRanking(es, named) && out == Chart(es, all[None])
    ensures d in HiddenSet(out, all) <==> exists e :: e in es[Cut(es, all[None])..] && e.name == d
  {
    hide Cut, NamedKey, Before, Chart;
    var k := Cut(es, all[None]);
    if d in HiddenSet(out, all) {
      HiddenIs(out, named, es, all, d);
      var j :| k <= j < |es| && es[j] == Entry(d, RowsOf(all, d));
      assert es[j] in es[k..];
    }
    if e :| e in es[k..] && e.name == d {
      var j :| k <= j < |es| && es[j] == e;
      BeyondCutIsHidden(out, named, es, all, j);
      assert Some(d) in all;
    }
  }

  lemma HiddenSetIs(out: seq<Bucket>, named: map<Text, nat>, es: seq<Entry>, all: multiset<Group>)
    requires IsTally(named, all) && IsRanking(es, named) && out == Chart(es, all[None])
    ensures |HiddenSet(out, all)| == |es| - Cut(es, all[None]) >= 0
  {
    hide Cut, NamedKey, Before, Hidden, HiddenSet, Chart, IsTally;
    var k := Cut(es, all[None]);
    CutInRange(es, all[None]);
    NamesDiffer(es, named);
    forall d ensures d in HiddenSet(out, all) <==> exists e :: e in es[k..] && e.name == d {
      HiddenIff(out, named, es, all, d);
    }
    NamesAre(es[k..], HiddenSet(out, all));
  }

  lemma BeyondCutIsHidden(out: seq<Bucket>, named: map<Text, nat>, es: seq<Entry>, all: multiset<Group>, j: nat)
    requires IsTally(named, all) && IsRanking(es, named) && out == Chart(es, all[None])
    requires Cut(es, all[None]) <= j < |es|
    ensures Hidden(out, all, es[j].name)
  {
    hide Cut, NamedKey, Before;
    NamesDiffer(es, named);
    assert es[j] in es;
    forall b <- out ensures b.district != Some(es[j].name) {
      var i :| 0 <= i < |out| && out[i] == b;
      if !b.folded { NamedBucketIs(out, es, all[None], i); }
    }
  }

  /**
   * The folded bar never stands for one group that could be paired back: it joins at least two, counting the
   * unstated rows as one, or it is the whole chart. It is there exactly when something is hidden or unstated.
   */
  lemma FoldedBucketJoins(out: seq<Bucket>, all: multiset<Group>)
    requires IsChart(out, all)
    ensures var groups := |HiddenSet(out, all)| + (if None in all then 1 else 0);
      && (exists b :: b in out && b.folded) == (groups > 0)
      && (groups == 1 ==> |out| == 1)
      && (forall i :: 0 <= i < |out| && out[i].folded ==> i == |out| - 1 && out[i].district == None)
  {
    hide NamedKey, IsTally, IsRanking, HiddenSet;
    var named, es :| IsTally(named, all) && IsRanking(es, named) && out == Chart(es, all[None]);
    HiddenSetIs(out, named, es, all);
    FoldedIsLast(out, es, all[None]);
  }

  lemma FoldedIsLast(out: seq<Bucket>, es: seq<Entry>, unstated: nat)
    requires out == Chart(es, unstated)
    ensures forall i :: 0 <= i < |out| && out[i].folded ==> i == |out| - 1 && out[i].district == None
    ensures (exists b :: b in out && b.folded) <==> Cut(es, unstated) < |es| || unstated > 0
    ensures |out| == Cut(es, unstated) + if Cut(es, unstated) < |es| || unstated > 0 then 1 else 0
  {
    hide NamedKey, Cut;
    CutInRange(es, unstated);
    if Cut(es, unstated) < |es| || unstated > 0 {
      assert out[|out| - 1].folded && out[|out| - 1] in out;
    }
  }

  /** No more is hidden than the guard needs: at most one large district, the last in order, and only beside
      exactly one other group. */
  lemma FoldIsMinimal(out: seq<Bucket>, all: multiset<Group>, d: Text)
    requires IsChart(out, all) && Hidden(out, all, d) && RowsOf(all, d) >= 2
    ensures |HiddenSet(out, all)| + (if None in all then 1 else 0) == 2
    ensures forall c :: Hidden(out, all, c) && c != d ==> RowsOf(all, c) < 2
  {
    hide NamedKey, Chart, HiddenSet, Hidden, IsTally, Cut, Ordered, Lists;
    var named, es :| IsTally(named, all) && IsRanking(es, named) && out == Chart(es, all[None]);
    HiddenSetIs(out, named, es, all);
    HiddenIs(out, named, es, all, d);
    var j :| Cut(es, all[None]) <= j < |es| && es[j] == Entry(d, RowsOf(all, d));
    LargeHidden(es, all[None], j, j);
    forall c | Hidden(out, all, c) && c != d ensures RowsOf(all, c) < SMALL_DISTRICT_THRESHOLD {
      HiddenIs(out, named, es, all, c);
      var i :| Cut(es, all[None]) <= i < |es| && es[i] == Entry(c, RowsOf(all, c));
      if RowsOf(all, c) >= SMALL_DISTRICT_THRESHOLD { LargeHidden(es, all[None], i, j); }
    }
  }

  lemma LargeHidden(es: seq<Entry>, unstated: nat, i: nat, j: nat)
    requires Ordered(es) && Cut(es, unstated) <= i < |es| && Cut(es, unstated) <= j < |es|
    requires es[i].count >= SMALL_DISTRICT_THRESHOLD && es[j].count >= SMALL_DISTRICT_THRESHOLD
    ensures i == j && |es| - Cut(es, unstated) + (if unstated > 0 then 1 else 0) == 2
  {
    hide Ordered;
    LargeComeFirst(es, i);
    LargeComeFirst(es, j);
  }

  lemma LargeComeFirst(es: seq<Entry>, j: nat)
    requires Ordered(es) && j < |es| && es[j].count >= SMALL_DISTRICT_THRESHOLD
    ensures j < Large(es)
  {
    if Large(es) <= j { SmallComeLast(es, j); }
  }

  lemma SmallComeLast(es: seq<Entry>, j: nat)
    requires Ordered(es) && Large(es) <= j < |es|
    ensures es[j].count < SMALL_DISTRICT_THRESHOLD
  {
    hide Less;
    if Large(es) < j { assert Before(es[Large(es)], es[j]); }
  }

  /** The chart depends on the rows only through how many there are of each group. */
  lemma ChartIgnoresOrder(out: seq<Bucket>, other: seq<Bucket>, all: multiset<Group>)
    requires IsChart(out, all) && IsChart(other, all)
    ensures out == other
  {
    hide Chart, Ordered;
    var n1, e1 :| IsTally(n1, all) && IsRanking(e1, n1) && out == Chart(e1, all[None]);
    var n2, e2 :| IsTally(n2, all) && IsRanking(e2, n2) && other == Chart(e2, all[None]);
    assert n1 == n2;
    forall e ensures e in e1 <==> e in e2 {}
    RankingIsUnique(e1, e2);
  }

  /** The bars are in order: count descending, then name ascending. */
  lemma NamedBucketsInOrder(out: seq<Bucket>, all: multiset<Group>, i: nat, j: nat)
    requires IsChart(out, all) && i < j < |out| && !out[i].folded && !out[j].folded
    ensures out[i].district.Some? && out[j].district.Some?
    ensures out[i].count > out[j].count
         || (out[i].count == out[j].count && Less(out[i].district.value, out[j].district.value))
  {
    hide Chart, IsTally, NamedKey;
    var named, es :| IsTally(named, all) && IsRanking(es, named) && out == Chart(es, all[None]);
    NamedBucketIs(out, es, all[None], i);
    NamedBucketIs(out, es, all[None], j);
    assert Before(es[i], es[j]);
  }

  /** The number a row of digits spells. */
  function ReadDecimal(t: Text): int {
    if t == [] then 0 else ReadDecimal(t[..|t| - 1]) * 10 + (t[|t| - 1] - '0' as int)
  }

  lemma {:induction false} DecimalReads(n: nat)
    ensures ReadDecimal(Decimal(n)) == n && forall u <- Decimal(n) :: '0' as int <= u <= '9' as int
  {
    assert Decimal(n)[..|Decimal(n)| - 1] == if n < 10 then [] else Decimal(n / 10);
    if n >= 10 { DecimalReads(n / 10); }
  }

  /** The keys: `d` and the position for a named bar, `other` for the folded one. */
  lemma KeysAre(out: seq<Bucket>, all: multiset<Group>, i: nat)
    requires IsChart(out, all) && i < |out|
    ensures if out[i].folded then out[i].key == Ascii("other")
            else out[i].key == Ascii("d") + Decimal(i) && ReadDecimal(Decimal(i)) == i
  {
    hide IsTally, IsRanking, Cut, Decimal;
    var named, es :| IsTally(named, all) && IsRanking(es, named) && out == Chart(es, all[None]);
    CutInRange(es, all[None]);
    assert Ascii("d") == [100];
    DecimalReads(i);
    hide Ascii;
    if !out[i].folded { NamedBucketIs(out, es, all[None], i); }
  }

  lemma {:induction false} DecimalInjective(m: nat, n: nat)
    requires Decimal(m) == Decimal(n)
    ensures m == n
  {
    var a, b := Decimal(m), Decimal(n);
    assert a[|a| - 1] == 48 + m % 10 && b[|b| - 1] == 48 + n % 10;
    assert a[..|a| - 1] == (if m < 10 then [] else Decimal(m / 10));
    assert b[..|b| - 1] == (if n < 10 then [] else Decimal(n / 10));
    if m >= 10 && n >= 10 { DecimalInjective(m / 10, n / 10); }
  }

  /** Keys tell the bars apart, even when a district is itself called `other`. */
  lemma KeysDistinct(out: seq<Bucket>, all: multiset<Group>, i: nat, j: nat)
    requires IsChart(out, all) && i < j < |out|
    ensures out[i].key != out[j].key
  {
    hide IsTally, IsRanking, Decimal, Cut;
    var named, es :| IsTally(named, all) && IsRanking(es, named) && out == Chart(es, all[None]);
    CutInRange(es, all[None]);
    assert out[i].key == NamedKey(i);
    if j < Cut(es, all[None]) {
      if Decimal(i) == Decimal(j) { DecimalInjective(i, j); }
      assert NamedKey(i)[1..] == Decimal(i) && NamedKey(j)[1..] == Decimal(j);
    } else {
      assert OTHER_KEY[0] == 111 && NamedKey(i)[0] == 100;
    }
  }
}
