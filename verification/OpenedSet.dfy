/** The canonical preimage of an opened vote set (scripts/proof/opened-set-preimage.ts). */
module OpenedSet {
  import opened CodeUnits
  import opened Json

  datatype Answer = Answer(questionCode: Text, optionCodes: seq<Text>)
  datatype Entry = Entry(ballotId: Text, answers: seq<Answer>)

  // ---------------------------------------------------------------- the canonical form

  function InsertAnswer(x: Answer, s: seq<Answer>): seq<Answer> {
    if s == [] || AtMost(x.questionCode, s[0].questionCode) then [x] + s else [s[0]] + InsertAnswer(x, s[1..])
  }

  /** The stable sort by question code: equal codes keep their order. */
  function SortAnswers(s: seq<Answer>): seq<Answer> {
    if s == [] then [] else InsertAnswer(s[0], SortAnswers(s[1..]))
  }

  function Strings(s: seq<Text>): seq<Value> {
    seq(|s|, i requires 0 <= i < |s| => Str(s[i]))
  }

  function ShapeAnswer(a: Answer): Value {
    Arr([Str(a.questionCode), Arr(Strings(Sort(a.optionCodes)))])
  }

  function ShapeAnswers(s: seq<Answer>): seq<Value> {
    seq(|s|, i requires 0 <= i < |s| => ShapeAnswer(s[i]))
  }

  function EntryValue(e: Entry): Value {
    Arr([Str(e.ballotId), Arr(ShapeAnswers(SortAnswers(e.answers)))])
  }

  function EntryText(e: Entry): Text {
    Render(EntryValue(e))
  }

  function EntryTexts(entries: seq<Entry>): seq<Text> {
    seq(|entries|, i requires 0 <= i < |entries| => EntryText(entries[i]))
  }

  /** `openedSetPreimage`. */
  function Preimage(entries: seq<Entry>): Text {
    Render(Arr(Strings(Sort(EntryTexts(entries)))))
  }

  // ---------------------------------------------------------------- what it stands for

  /** An answer up to the order of its option codes. */
  type AnswerClass = (Text, multiset<Text>)

  function ClassOfAnswer(a: Answer): AnswerClass {
    (a.questionCode, multiset(a.optionCodes))
  }

  function AnswerClasses(s: seq<Answer>): seq<AnswerClass> {
    seq(|s|, i requires 0 <= i < |s| => ClassOfAnswer(s[i]))
  }

  /** An entry up to the order of its answers and of their option codes. */
  type EntryClass = (Text, multiset<AnswerClass>)

  function ClassOf(e: Entry): EntryClass {
    (e.ballotId, multiset(AnswerClasses(e.answers)))
  }

  function Classes(entries: seq<Entry>): seq<EntryClass> {
    seq(|entries|, i requires 0 <= i < |entries| => ClassOf(entries[i]))
  }

  /** Answers to one question are the same answer; distinct question codes are the usual case. */
  ghost predicate Agreeing(s: seq<AnswerClass>) {
    forall i, j :: 0 <= i < |s| && 0 <= j < |s| && s[i].0 == s[j].0 ==> s[i] == s[j]
  }

  lemma DistinctQuestionsAgree(s: seq<Answer>)
    requires forall i, j :: 0 <= i < j < |s| ==> s[i].questionCode != s[j].questionCode
    ensures Agreeing(AnswerClasses(s))
  {
    var c := AnswerClasses(s);
    forall i, j | 0 <= i < |c| && 0 <= j < |c| && c[i].0 == c[j].0 ensures c[i] == c[j] {
      assert s[i].questionCode == s[j].questionCode;
    }
  }

  // ---------------------------------------------------------------- answers

  lemma StringsInjective(a: seq<Text>, b: seq<Text>)
    ensures Strings(a) == Strings(b) <==> a == b
  {
    if Strings(a) == Strings(b) {
      forall i | 0 <= i < |a| ensures a[i] == b[i] { assert Strings(a)[i] == Strings(b)[i]; }
    }
  }

  /** Two answers have the same shape exactly when they are the same up to the order of options. */
  lemma ShapeIsClass(a: Answer, b: Answer)
    ensures ShapeAnswer(a) == ShapeAnswer(b) <==> ClassOfAnswer(a) == ClassOfAnswer(b)
  {
    StringsInjective(Sort(a.optionCodes), Sort(b.optionCodes));
    SortIsCanonical(a.optionCodes, b.optionCodes);
    hide Sort;
    if ShapeAnswer(a) == ShapeAnswer(b) {
      var x, y := ShapeAnswer(a).items, ShapeAnswer(b).items;
      assert x[0] == y[0] && x[1] == y[1];
    }
  }

  lemma ShapesAreClasses(s: seq<Answer>, t: seq<Answer>)
    ensures ShapeAnswers(s) == ShapeAnswers(t) <==> AnswerClasses(s) == AnswerClasses(t)
  {
    hide ShapeAnswer, ClassOfAnswer;
    if ShapeAnswers(s) == ShapeAnswers(t) {
      assert |s| == |ShapeAnswers(s)| == |t|;
      forall i | 0 <= i < |s| ensures ClassOfAnswer(s[i]) == ClassOfAnswer(t[i]) {
        assert ShapeAnswers(s)[i] == ShapeAnswers(t)[i];
        ShapeIsClass(s[i], t[i]);
      }
    }
    if AnswerClasses(s) == AnswerClasses(t) {
      assert |s| == |AnswerClasses(s)| == |t|;
      forall i | 0 <= i < |s| ensures ShapeAnswer(s[i]) == ShapeAnswer(t[i]) {
        assert AnswerClasses(s)[i] == AnswerClasses(t)[i];
        ShapeIsClass(s[i], t[i]);
      }
    }
  }

  /** Sorted by question code. */
  ghost predicate Ordered(s: seq<AnswerClass>) {
    forall i, j :: 0 <= i < j < |s| ==> AtMost(s[i].0, s[j].0)
  }

  lemma ClassesCons(a: Answer, s: seq<Answer>)
    ensures AnswerClasses([a] + s) == [ClassOfAnswer(a)] + AnswerClasses(s)
  {}

  lemma {:induction false} InsertAnswerIs(x: Answer, s: seq<Answer>)
    requires Ordered(AnswerClasses(s))
    ensures Ordered(AnswerClasses(InsertAnswer(x, s)))
    ensures multiset(AnswerClasses(InsertAnswer(x, s))) == multiset{ClassOfAnswer(x)} + multiset(AnswerClasses(s))
  {
    hide Less, ClassOfAnswer;
    ClassKey(x);
    if s == [] || AtMost(x.questionCode, s[0].questionCode) {
      ClassesCons(x, s);
      var c := AnswerClasses(s);
      forall j | 0 <= j < |c| ensures AtMost(ClassOfAnswer(x).0, c[j].0) {
        ClassKey(s[0]);
        if j > 0 { AtMostTransitive(ClassOfAnswer(x).0, c[0].0, c[j].0); }
      }
    } else {
      ClassesCons(s[0], s[1..]);
      assert s == [s[0]] + s[1..];
      var c := AnswerClasses(s);
      assert c[1..] == AnswerClasses(s[1..]);
      InsertAnswerIs(x, s[1..]);
      var rest := AnswerClasses(InsertAnswer(x, s[1..]));
      ClassesCons(s[0], InsertAnswer(x, s[1..]));
      ClassKey(s[0]);
      LessTotal(x.questionCode, s[0].questionCode);
      forall j | 0 <= j < |rest| ensures AtMost(c[0].0, rest[j].0) {
        assert rest[j] in multiset(rest);
        if rest[j] != ClassOfAnswer(x) {
          assert rest[j] in c[1..];
          var i :| 0 <= i < |c[1..]| && c[1..][i] == rest[j];
          assert c[i + 1] == rest[j];
        }
      }
    }
  }

  lemma ClassKey(a: Answer)
    ensures ClassOfAnswer(a).0 == a.questionCode
  {}

  lemma {:induction false} SortAnswersIs(s: seq<Answer>)
    ensures Ordered(AnswerClasses(SortAnswers(s)))
    ensures multiset(AnswerClasses(SortAnswers(s))) == multiset(AnswerClasses(s))
  {
    hide Less, ClassOfAnswer, InsertAnswer;
    if s == [] {
      assert AnswerClasses([]) == [];
    } else {
      SortAnswersIs(s[1..]);
      InsertAnswerIs(s[0], SortAnswers(s[1..]));
      ClassesCons(s[0], s[1..]);
      assert s == [s[0]] + s[1..];
    }
  }

  lemma FirstIsLeast(s: seq<AnswerClass>)
    requires Ordered(s) && Agreeing(s) && s != []
    ensures Ordered(s[1..]) && Agreeing(s[1..]) && multiset(s[1..]) == multiset(s) - multiset{s[0]}
    ensures forall x :: x in multiset(s) ==> AtMost(s[0].0, x.0) && (x.0 == s[0].0 ==> x == s[0])
  {
    hide Less;
    LessTotal(s[0].0, s[0].0);
    assert s == [s[0]] + s[1..];
    forall x | x in multiset(s) ensures AtMost(s[0].0, x.0) && (x.0 == s[0].0 ==> x == s[0]) {
      var i :| 0 <= i < |s| && s[i] == x;
    }
  }

  /** When the answers agree the sorted sequence is determined by the multiset. */
  lemma {:induction false} OrderedIsUnique(s: seq<AnswerClass>, t: seq<AnswerClass>)
    requires Ordered(s) && Ordered(t) && Agreeing(s) && Agreeing(t) && multiset(s) == multiset(t)
    ensures s == t
  {
    hide Less, Ordered, Agreeing;
    assert |multiset(s)| == |multiset(t)|;
    if s != [] {
      FirstIsLeast(s);
      FirstIsLeast(t);
      assert s[0] in multiset(t) && t[0] in multiset(s);
      LessTotal(s[0].0, t[0].0);
      OrderedIsUnique(s[1..], t[1..]);
      assert s == [s[0]] + s[1..] && t == [t[0]] + t[1..];
    }
  }

  lemma AgreeingPermuted(s: seq<AnswerClass>, t: seq<AnswerClass>)
    requires Agreeing(s) && multiset(s) == multiset(t)
    ensures Agreeing(t)
  {
    forall i, j | 0 <= i < |t| && 0 <= j < |t| && t[i].0 == t[j].0 ensures t[i] == t[j] {
      assert t[i] in multiset(s) && t[j] in multiset(s);
      var a :| 0 <= a < |s| && s[a] == t[i];
      var b :| 0 <= b < |s| && s[b] == t[j];
    }
  }

  // ---------------------------------------------------------------- entries

  lemma EntryValueParts(e: Entry, f: Entry)
    ensures EntryValue(e) == EntryValue(f) <==>
      e.ballotId == f.ballotId && ShapeAnswers(SortAnswers(e.answers)) == ShapeAnswers(SortAnswers(f.answers))
  {
    hide ShapeAnswers, SortAnswers;
    if EntryValue(e) == EntryValue(f) {
      var x, y := EntryValue(e).items, EntryValue(f).items;
      assert x[0] == y[0] && x[1] == y[1];
    }
  }

  /** Entries whose answers agree have the same text exactly when they are the same up to order. */
  lemma EntryTextIsClass(e: Entry, f: Entry)
    requires Agreeing(AnswerClasses(e.answers)) && Agreeing(AnswerClasses(f.answers))
    ensures EntryText(e) == EntryText(f) <==> ClassOf(e) == ClassOf(f)
  {
    var s, t := SortAnswers(e.answers), SortAnswers(f.answers);
    RenderInjective(EntryValue(e), EntryValue(f));
    EntryValueParts(e, f);
    ShapesAreClasses(s, t);
    SortAnswersIs(e.answers);
    SortAnswersIs(f.answers);
    AgreeingPermuted(AnswerClasses(e.answers), AnswerClasses(s));
    AgreeingPermuted(AnswerClasses(f.answers), AnswerClasses(t));
    hide Agreeing, Ordered, EntryValue, SortAnswers, AnswerClasses, ShapeAnswers;
    if ClassOf(e) == ClassOf(f) { OrderedIsUnique(AnswerClasses(s), AnswerClasses(t)); }
  }

  // ---------------------------------------------------------------- sets of entries

  /** Sequences whose elements are equal in the same places are permutations of each other together. */
  lemma {:induction false} PermutedTogether<A, B>(a1: seq<A>, b1: seq<B>, a2: seq<A>, b2: seq<B>)
    requires |a1| == |b1| && |a2| == |b2|
    requires forall i, j :: 0 <= i < |a1| && 0 <= j < |a2| ==> (a1[i] == a2[j] <==> b1[i] == b2[j])
    requires multiset(a1) == multiset(a2)
    ensures multiset(b1) == multiset(b2)
  {
    assert |multiset(a1)| == |multiset(a2)|;
    if a1 != [] {
      assert a1[0] in multiset(a2);
      var j :| 0 <= j < |a2| && a2[j] == a1[0];
      DropFacts(a1, 0);
      DropFacts(b1, 0);
      DropFacts(a2, j);
      DropFacts(b2, j);
      hide Drop;
      PermutedTogether(Drop(a1, 0), Drop(b1, 0), Drop(a2, j), Drop(b2, j));
    }
  }

  function Drop<A>(s: seq<A>, i: nat): seq<A>
    requires i < |s|
  {
    s[..i] + s[i + 1..]
  }

  lemma DropFacts<A>(s: seq<A>, i: nat)
    requires i < |s|
    ensures |Drop(s, i)| == |s| - 1 && multiset(s) == multiset(Drop(s, i)) + multiset{s[i]}
    ensures multiset(Drop(s, i)) == multiset(s) - multiset{s[i]}
    ensures forall k :: 0 <= k < |Drop(s, i)| ==> Drop(s, i)[k] == s[if k < i then k else k + 1]
  {
    assert s == s[..i] + [s[i]] + s[i + 1..];
  }

  /**
   * Two opened sets whose entries agree have equal preimages if and only if they are equal as multisets of
   * entries, up to the order of answers and of option codes.
   */
  lemma PreimageIsCanonical(a: seq<Entry>, b: seq<Entry>)
    requires forall e :: e in a || e in b ==> Agreeing(AnswerClasses(e.answers))
    ensures Preimage(a) == Preimage(b) <==> multiset(Classes(a)) == multiset(Classes(b))
  {
    hide EntryText, ClassOf, Agreeing, AnswerClasses;
    var x, y := EntryTexts(a), EntryTexts(b);
    RenderInjective(Arr(Strings(Sort(x))), Arr(Strings(Sort(y))));
    StringsInjective(Sort(x), Sort(y));
    SortIsCanonical(x, y);
    forall i, j | 0 <= i < |a| && 0 <= j < |b| ensures x[i] == y[j] <==> Classes(a)[i] == Classes(b)[j] {
      EntryTextIsClass(a[i], b[j]);
    }
    hide Render, Sort, Strings;
    if multiset(x) == multiset(y) { PermutedTogether(x, Classes(a), y, Classes(b)); }
    if multiset(Classes(a)) == multiset(Classes(b)) { PermutedTogether(Classes(a), x, Classes(b), y); }
  }

  // ---------------------------------------------------------------- the text of an entry

  /** Sorting keeps the answers and puts them in ascending order of their questions. */
  lemma SortedByQuestion(s: seq<Answer>)
    ensures |SortAnswers(s)| == |s|
    ensures forall i, j :: 0 <= i < j < |s| ==> !Less(SortAnswers(s)[j].questionCode, SortAnswers(s)[i].questionCode)
  {
    hide Less, SortAnswers;
    SortAnswersIs(s);
    var t := SortAnswers(s);
    assert |multiset(AnswerClasses(t))| == |multiset(AnswerClasses(s))|;
    forall i, j | 0 <= i < j < |t| ensures !Less(t[j].questionCode, t[i].questionCode) {
      ClassKey(t[i]);
      ClassKey(t[j]);
      assert AtMost(AnswerClasses(t)[i].0, AnswerClasses(t)[j].0);
    }
  }

  function Quoted(s: Text): Text {
    Ascii("\"") + Body(s) + Ascii("\"")
  }

  function QuotedAll(s: seq<Text>): seq<Text> {
    seq(|s|, i requires 0 <= i < |s| => Quoted(s[i]))
  }

  /** `["question",["option",...]]`, the options sorted. */
  function AnswerText(a: Answer): Text {
    Ascii("[") + Quoted(a.questionCode) + Ascii(",[") + Commas(QuotedAll(Sort(a.optionCodes))) + Ascii("]]")
  }

  function AnswerTexts(s: seq<Answer>): seq<Text> {
    seq(|s|, i requires 0 <= i < |s| => AnswerText(s[i]))
  }

  lemma StringsSpelled(s: seq<Text>)
    ensures Render(Arr(Strings(s))) == Ascii("[") + Commas(QuotedAll(s)) + Ascii("]")
  {
    hide Render, Commas, Body, Ascii;
    RenderIs(Arr(Strings(s)));
    forall i | 0 <= i < |s| ensures Render(Str(s[i])) == Quoted(s[i]) { RenderIs(Str(s[i])); }
    assert Renders(Strings(s)) == QuotedAll(s);
  }

  /** An array of a string and another array. */
  lemma PairSpelled(first: Text, second: seq<Value>)
    ensures Render(Arr([Str(first), Arr(second)]))
         == Ascii("[") + Quoted(first) + Ascii(",[") + Commas(Renders(second)) + Ascii("]]")
  {
    hide Render, Body;
    var v := Arr([Str(first), Arr(second)]);
    RenderIs(v);
    RenderIs(Str(first));
    RenderIs(Arr(second));
    var parts := Renders(v.items);
    assert parts == [Quoted(first), Render(Arr(second))] && parts[1..] == [parts[1]];
    assert Ascii(",[") == Ascii(",") + Ascii("[") && Ascii("]]") == Ascii("]") + Ascii("]");
    hide Ascii, Renders;
    assert Commas(parts) == parts[0] + Ascii(",") + parts[1];
  }

  lemma AnswerSpelled(a: Answer)
    ensures Render(ShapeAnswer(a)) == AnswerText(a)
  {
    hide Render, Body, Commas, Ascii, Sort;
    var options := Sort(a.optionCodes);
    PairSpelled(a.questionCode, Strings(options));
    forall i | 0 <= i < |options| ensures Render(Str(options[i])) == Quoted(options[i]) { RenderIs(Str(options[i])); }
    assert Renders(Strings(options)) == QuotedAll(options);
  }

  /** `["ballot",[answer,...]]`, the answers sorted by question. */
  lemma EntrySpelled(e: Entry)
    ensures EntryText(e)
         == Ascii("[") + Quoted(e.ballotId) + Ascii(",[") + Commas(AnswerTexts(SortAnswers(e.answers))) + Ascii("]]")
  {
    hide Render, Commas, Quoted, Ascii, SortAnswers, ShapeAnswer, AnswerText;
    var answers := SortAnswers(e.answers);
    PairSpelled(e.ballotId, ShapeAnswers(answers));
    forall i | 0 <= i < |answers| ensures Render(ShapeAnswer(answers[i])) == AnswerText(answers[i]) {
      AnswerSpelled(answers[i]);
    }
    assert Renders(ShapeAnswers(answers)) == AnswerTexts(answers);
  }

  /** The preimage is the array of the sorted entry texts, each quoted again. */
  lemma PreimageSpelled(entries: seq<Entry>)
    ensures Preimage(entries) == Ascii("[") + Commas(QuotedAll(Sort(EntryTexts(entries)))) + Ascii("]")
  {
    hide Render, Commas, QuotedAll, Ascii, Sort, EntryTexts;
    StringsSpelled(Sort(EntryTexts(entries)));
  }

  // ---------------------------------------------------------------- entries whose answers disagree

  /** The first answer given to question `q`. */
  function FirstTo(q: Text, s: seq<Answer>): seq<AnswerClass> {
    if s == [] then [] else if s[0].questionCode == q then [ClassOfAnswer(s[0])] else FirstTo(q, s[1..])
  }

  lemma {:induction false} InsertKeepsFirst(q: Text, x: Answer, s: seq<Answer>)
    ensures FirstTo(q, InsertAnswer(x, s)) == FirstTo(q, [x] + s)
  {
    assert ([x] + s)[1..] == s;
    if s != [] && !AtMost(x.questionCode, s[0].questionCode) {
      InsertKeepsFirst(q, x, s[1..]);
      LessTotal(x.questionCode, s[0].questionCode);
      assert ([x] + s[1..])[1..] == s[1..];
    }
  }

  lemma {:induction false} SortKeepsFirst(q: Text, s: seq<Answer>)
    ensures FirstTo(q, SortAnswers(s)) == FirstTo(q, s)
  {
    hide InsertAnswer, Less;
    if s != [] {
      SortKeepsFirst(q, s[1..]);
      InsertKeepsFirst(q, s[0], SortAnswers(s[1..]));
      assert ([s[0]] + SortAnswers(s[1..]))[1..] == SortAnswers(s[1..]);
    }
  }

  lemma {:induction false} FirstToIsClass(q: Text, s: seq<Answer>, t: seq<Answer>)
    requires AnswerClasses(s) == AnswerClasses(t)
    ensures FirstTo(q, s) == FirstTo(q, t)
  {
    assert |s| == |AnswerClasses(s)| == |t|;
    if s != [] {
      assert AnswerClasses(s)[0] == AnswerClasses(t)[0];
      assert AnswerClasses(s)[1..] == AnswerClasses(s[1..]) && AnswerClasses(t)[1..] == AnswerClasses(t[1..]);
      FirstToIsClass(q, s[1..], t[1..]);
    }
  }

  /** Bringing answer `i` to the front changes nothing but the order. */
  function ToFront(s: seq<Answer>, i: nat): seq<Answer>
    requires i < |s|
  {
    [s[i]] + Drop(s, i)
  }

  lemma ToFrontSameClass(s: seq<Answer>, i: nat)
    requires i < |s|
    ensures multiset(AnswerClasses(ToFront(s, i))) == multiset(AnswerClasses(s))
  {
    var c := AnswerClasses(s);
    DropFacts(c, i);
    assert AnswerClasses(ToFront(s, i)) == [c[i]] + Drop(c, i);
  }

  /**
   * The canonical form needs the answers to agree: an entry with two different answers to one question has a
   * reordering with another text, because the sort is stable.
   */
  lemma TextIgnoresOrderIffAgreeing(e: Entry)
    ensures (forall f: Entry :: ClassOf(f) == ClassOf(e) ==> EntryText(f) == EntryText(e))
       <==> Agreeing(AnswerClasses(e.answers))
  {
    hide EntryText, Less;
    var s, c := e.answers, AnswerClasses(e.answers);
    if Agreeing(c) {
      forall f: Entry | ClassOf(f) == ClassOf(e) ensures EntryText(f) == EntryText(e) {
        AgreeingPermuted(c, AnswerClasses(f.answers));
        EntryTextIsClass(f, e);
      }
    } else {
      var i, j :| 0 <= i < |c| && 0 <= j < |c| && c[i].0 == c[j].0 && c[i] != c[j];
      var f, g := Entry(e.ballotId, ToFront(s, i)), Entry(e.ballotId, ToFront(s, j));
      ToFrontSameClass(s, i);
      ToFrontSameClass(s, j);
      DifferentFronts(f, g);
      assert ClassOf(f) == ClassOf(e) && ClassOf(g) == ClassOf(e);
    }
  }

  lemma DifferentFronts(f: Entry, g: Entry)
    requires f.answers != [] && g.answers != []
    requires f.answers[0].questionCode == g.answers[0].questionCode
    requires ClassOfAnswer(f.answers[0]) != ClassOfAnswer(g.answers[0])
    ensures EntryText(f) != EntryText(g)
  {
    var q := f.answers[0].questionCode;
    var s, t := SortAnswers(f.answers), SortAnswers(g.answers);
    SortKeepsFirst(q, f.answers);
    SortKeepsFirst(q, g.answers);
    RenderInjective(EntryValue(f), EntryValue(g));
    EntryValueParts(f, g);
    ShapesAreClasses(s, t);
    hide EntryValue, SortAnswers, ShapeAnswers;
    if EntryText(f) == EntryText(g) { FirstToIsClass(q, s, t); }
  }

  const FIRST := Answer([113], [[97]])
  const SECOND := Answer([113], [[98]])

  lemma ReversedIsSameClass(ballotId: Text, a: Answer, b: Answer)
    ensures multiset(Classes([Entry(ballotId, [a, b])])) == multiset(Classes([Entry(ballotId, [b, a])]))
  {
    hide ClassOfAnswer;
    var x, y := ClassOfAnswer(a), ClassOfAnswer(b);
    var e, f := Entry(ballotId, [a, b]), Entry(ballotId, [b, a]);
    assert AnswerClasses([a, b]) == [x, y] && AnswerClasses([b, a]) == [y, x];
    assert multiset{x, y} == multiset{y, x};
    assert ClassOf(e) == ClassOf(f);
    hide ClassOf;
    assert Classes([e]) == [ClassOf(e)] && Classes([f]) == [ClassOf(f)];
  }

  lemma ClassesOfBothDiffer()
    ensures ClassOfAnswer(FIRST) != ClassOfAnswer(SECOND)
  {
    assert FIRST.optionCodes[0] in multiset(FIRST.optionCodes) && FIRST.optionCodes[0] !in multiset(SECOND.optionCodes);
  }

  /** Two different answers to one question: given in the other order, the same opened set has another preimage. */
  lemma TwoAnswersBreakTheForm(ballotId: Text)
    ensures var e, f := Entry(ballotId, [FIRST, SECOND]), Entry(ballotId, [SECOND, FIRST]);
      multiset(Classes([e])) == multiset(Classes([f])) && Preimage([e]) != Preimage([f])
  {
    hide Classes, ClassOfAnswer, Preimage, EntryText;
    var e, f := Entry(ballotId, [FIRST, SECOND]), Entry(ballotId, [SECOND, FIRST]);
    ReversedIsSameClass(ballotId, FIRST, SECOND);
    ClassesOfBothDiffer();
    DifferentFronts(e, f);
    OneEntryPreimage(e, f);
  }

  lemma OneEntryPreimage(e: Entry, f: Entry)
    ensures Preimage([e]) == Preimage([f]) <==> EntryText(e) == EntryText(f)
  {
    hide EntryText;
    var x, y := EntryTexts([e]), EntryTexts([f]);
    assert x == [EntryText(e)] && y == [EntryText(f)];
    SortIsCanonical(x, y);
    RenderInjective(Arr(Strings(Sort(x))), Arr(Strings(Sort(y))));
    StringsInjective(Sort(x), Sort(y));
    hide Sort, Render, Strings;
    if multiset(x) == multiset(y) { assert x[0] in multiset(y); }
  }
}
