/** JavaScript strings as sequences of UTF-16 code units, in the order of `<` and of the default sort. */
module CodeUnits {

  type Unit = u: int | 0 <= u < 0x10000
  type Text = seq<Unit>

  /** An ASCII string. */
  function Ascii(s: string): (t: Text)
    ensures |t| == |s| && forall i :: 0 <= i < |s| && s[i] as int < 0x80 ==> t[i] == s[i] as int
  {
    seq(|s|, i requires 0 <= i < |s| => if s[i] as int < 0x80 then s[i] as int else 0)
  }

  /** `a < b`. */
  predicate Less(a: Text, b: Text) {
    b != [] && (a == [] || a[0] < b[0] || (a[0] == b[0] && Less(a[1..], b[1..])))
  }

  predicate AtMost(a: Text, b: Text) {
    !Less(b, a)
  }

  lemma {:induction false} LessTotal(a: Text, b: Text)
    ensures !Less(a, b) && !Less(b, a) ==> a == b
    ensures !(Less(a, b) && Less(b, a))
  {
    if a != [] && b != [] && a[0] == b[0] {
      LessTotal(a[1..], b[1..]);
      assert a == [a[0]] + a[1..] && b == [b[0]] + b[1..];
    }
  }

  lemma {:induction false} AtMostTransitive(a: Text, b: Text, c: Text)
    requires AtMost(a, b) && AtMost(b, c)
    ensures AtMost(a, c)
  {
    if a != [] && b != [] && c != [] && a[0] == b[0] == c[0] {
      AtMostTransitive(a[1..], b[1..], c[1..]);
    }
  }

  lemma {:induction false} LessTransitive(a: Text, b: Text, c: Text)
    requires Less(a, b) && Less(b, c)
    ensures Less(a, c)
  {
    if a != [] && a[0] == b[0] == c[0] { LessTransitive(a[1..], b[1..], c[1..]); }
  }

  // ---------------------------------------------------------------- sorting texts

  ghost predicate Sorted(s: seq<Text>) {
    forall i, j :: 0 <= i < j < |s| ==> AtMost(s[i], s[j])
  }

  function Insert(x: Text, s: seq<Text>): seq<Text> {
    if s == [] || AtMost(x, s[0]) then [x] + s else [s[0]] + Insert(x, s[1..])
  }

  /** The sorted copy; SortedIsUnique shows that every correct sort gives this one. */
  function Sort(s: seq<Text>): seq<Text> {
    if s == [] then [] else Insert(s[0], Sort(s[1..]))
  }

  lemma {:induction false} InsertSorts(x: Text, s: seq<Text>)
    requires Sorted(s)
    ensures Sorted(Insert(x, s)) && multiset(Insert(x, s)) == multiset{x} + multiset(s)
  {
    hide Less;
    if s == [] || AtMost(x, s[0]) {
      forall j | 0 <= j < |s| ensures AtMost(x, s[j]) {
        if j > 0 { AtMostTransitive(x, s[0], s[j]); }
      }
    } else {
      var rest := Insert(x, s[1..]);
      InsertSorts(x, s[1..]);
      LessTotal(x, s[0]);
      assert s == [s[0]] + s[1..];
      forall j | 0 <= j < |rest| ensures AtMost(s[0], rest[j]) {
        assert rest[j] in multiset(rest);
        assert rest[j] == x || rest[j] in s[1..];
      }
    }
  }

  lemma SortSorts(s: seq<Text>)
    ensures Sorted(Sort(s)) && multiset(Sort(s)) == multiset(s) && |Sort(s)| == |s|
    ensures forall i, j :: 0 <= i < j < |s| ==> !Less(Sort(s)[j], Sort(s)[i])
  {
    SortSortsFor(s);
    SortedMeansNotLess(Sort(s));
  }

  lemma SortedMeansNotLess(s: seq<Text>)
    ensures Sorted(s) <==> forall i, j :: 0 <= i < j < |s| ==> !Less(s[j], s[i])
  {
    hide Less;
  }

  lemma {:induction false} SortSortsFor(s: seq<Text>)
    ensures Sorted(Sort(s)) && multiset(Sort(s)) == multiset(s) && |Sort(s)| == |s|
  {
    hide Less, Sorted, Insert;
    if s != [] {
      SortSortsFor(s[1..]);
      InsertSorts(s[0], Sort(s[1..]));
      assert s == [s[0]] + s[1..];
    } else {
      SortedEmpty();
    }
    assert |multiset(Sort(s))| == |multiset(s)|;
  }

  lemma SortedEmpty()
    ensures Sorted([])
  {}

  lemma HeadIsLeast(a: seq<Text>)
    requires Sorted(a) && a != []
    ensures Sorted(a[1..]) && multiset(a[1..]) == multiset(a) - multiset{a[0]}
    ensures forall x :: x in multiset(a) ==> AtMost(a[0], x)
  {
    hide Less;
    LessTotal(a[0], a[0]);
    assert a == [a[0]] + a[1..];
    forall x | x in multiset(a) ensures AtMost(a[0], x) {
      var i :| 0 <= i < |a| && a[i] == x;
    }
  }

  /** Two sorted sequences with the same elements are the same. */
  lemma {:induction false} SortedIsUnique(a: seq<Text>, b: seq<Text>)
    requires Sorted(a) && Sorted(b) && multiset(a) == multiset(b)
    ensures a == b
  {
    hide Less, Sorted;
    assert |multiset(a)| == |multiset(b)|;
    if a != [] {
      HeadIsLeast(a);
      HeadIsLeast(b);
      assert a[0] in multiset(b) && b[0] in multiset(a);
      LessTotal(a[0], b[0]);
      SortedIsUnique(a[1..], b[1..]);
      assert a == [a[0]] + a[1..] && b == [b[0]] + b[1..];
    }
  }

  /** The sort picks one representative of each multiset. */
  lemma SortIsCanonical(a: seq<Text>, b: seq<Text>)
    ensures Sort(a) == Sort(b) <==> multiset(a) == multiset(b)
  {
    SortSorts(a);
    SortSorts(b);
    if multiset(a) == multiset(b) { SortedIsUnique(Sort(a), Sort(b)); }
  }
}
