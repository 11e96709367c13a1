/**
 * Abort reasons and AbortSignal.any for Hermes (apps/VoteTorrentAuthority/polyfills/hermes-abort-reason.js).
 *
 * A combination listens to its inputs and, when it aborts, takes its listeners back off them - while those
 * inputs may be in the middle of dispatching. Signals are numbers in order of creation, so the inputs of a
 * combination are smaller than the combination and the signals form a DAG.
 */
module AbortSignals {
  import opened Common

  type Sig = nat

  /** A non-nullish reason; `AbortError` is the default one. */
  datatype Reason = AbortError | Given(id: int)

  /** The two closures `any` registers: input `k` of `combo`, and the one that detaches `combo`. */
  datatype Listener = Forward(combo: Sig, source: Sig, k: nat) | Detach(combo: Sig)

  datatype World = World(
    aborted: set<Sig>,
    reasons: map<Sig, Reason>,
    listeners: map<Sig, seq<Listener>>,              // every signal there is, with its abort listeners in order
    attached: map<Sig, seq<(Sig, Listener)>>,        // the `attached` array of each combination
    inputs: map<Sig, seq<Sig>>)                      // the inputs each combination was made from

  // ---------------------------------------------------------------- the DAG

  ghost predicate Edge(inputs: map<Sig, seq<Sig>>, a: Sig, b: Sig) {
    b in inputs && a in inputs[b]
  }

  ghost predicate Path(inputs: map<Sig, seq<Sig>>, p: seq<Sig>) {
    p != [] && forall i :: 0 <= i < |p| - 1 ==> Edge(inputs, p[i], p[i + 1])
  }

  /** `b` is `a` or combines, directly or not, a signal that is. */
  ghost predicate Reaches(inputs: map<Sig, seq<Sig>>, a: Sig, b: Sig) {
    exists p :: Path(inputs, p) && p[0] == a && p[|p| - 1] == b
  }

  lemma ReachesSelf(inputs: map<Sig, seq<Sig>>, a: Sig)
    ensures Reaches(inputs, a, a)
  {
    assert Path(inputs, [a]);
  }

  lemma ReachesVia(inputs: map<Sig, seq<Sig>>, a: Sig, b: Sig, c: Sig)
    requires Edge(inputs, a, b) && Reaches(inputs, b, c)
    ensures Reaches(inputs, a, c)
  {
    var p :| Path(inputs, p) && p[0] == b && p[|p| - 1] == c;
    var q := [a] + p;
    forall i | 0 <= i < |q| - 1 ensures Edge(inputs, q[i], q[i + 1]) {
      if i > 0 { assert q[i] == p[i - 1] && q[i + 1] == p[i]; }
    }
    assert Path(inputs, q);
  }

  // ---------------------------------------------------------------- listener lists

  function Without(s: seq<Listener>, x: Listener): seq<Listener> {
    if s == [] then [] else if s[0] == x then s[1..] else [s[0]] + Without(s[1..], x)
  }

  ghost predicate NoDup(s: seq<Listener>) {
    forall i, j :: 0 <= i < j < |s| ==> s[i] != s[j]
  }

  lemma {:induction false} WithoutHas(s: seq<Listener>, x: Listener, y: Listener)
    requires NoDup(s)
    ensures y in Without(s, x) <==> y in s && y != x
  {
    if s != [] && s[0] != x {
      WithoutHas(s[1..], x, y);
      assert y in s <==> y == s[0] || y in s[1..];
    } else if s != [] && y in s && y != x {
      var i :| 0 <= i < |s| && s[i] == y;
      assert y == s[1..][i - 1];
    }
  }

  lemma {:induction false} WithoutNoDup(s: seq<Listener>, x: Listener)
    requires NoDup(s)
    ensures NoDup(Without(s, x))
  {
    if s != [] && s[0] != x {
      WithoutNoDup(s[1..], x);
      WithoutHas(s[1..], x, s[0]);
      var rest := Without(s[1..], x);
      assert Without(s, x) == [s[0]] + rest && s[0] !in rest;
    }
  }

  lemma WithoutIs(s: seq<Listener>, x: Listener)
    requires NoDup(s)
    ensures NoDup(Without(s, x))
    ensures forall y :: y in Without(s, x) <==> y in s && y != x
    ensures s != [] && s[0] != x ==> Without(s, x) != [] && Without(s, x)[0] == s[0]
  {
    WithoutNoDup(s, x);
    forall y ensures y in Without(s, x) <==> y in s && y != x { WithoutHas(s, x, y); }
  }

  // ---------------------------------------------------------------- the invariant

  /** The `attached` array as `any` builds it: one pair per input occurrence. */
  function AllPairs(list: seq<Sig>, c: Sig): seq<(Sig, Listener)> {
    seq(|list|, k requires 0 <= k < |list| => (list[k], Forward(c, list[k], k)))
  }

  ghost predicate Belongs(w: World, s: Sig, x: Listener) {
    match x
    case Forward(c, source, k) => source == s && c in w.inputs && k < |w.inputs[c]| && w.inputs[c][k] == s
    case Detach(c) => c == s && c in w.inputs
  }

  ghost predicate Wf(w: World) {
    && w.aborted <= w.listeners.Keys
    && (forall s :: s in w.aborted ==> s in w.reasons)
    && (forall c :: c in w.inputs ==> c in w.listeners && c in w.attached)
    && (forall c, k :: c in w.inputs && 0 <= k < |w.inputs[c]| ==> w.inputs[c][k] < c && w.inputs[c][k] in w.listeners)
    && (forall s :: s in w.listeners ==> NoDup(w.listeners[s]))
    && (forall s, x :: s in w.listeners && x in w.listeners[s] ==> Belongs(w, s, x))
  }

  /** An un-aborted combination keeps its bookkeeping, and its own detaching listener comes first. */
  ghost predicate Loose(w: World, c: Sig)
    requires c in w.inputs && c in w.attached && c in w.listeners
  {
    w.attached[c] == AllPairs(w.inputs[c], c) && w.listeners[c] != [] && w.listeners[c][0] == Detach(c)
  }

  /** ... and one listener on each input occurrence. */
  ghost predicate Attached(w: World, c: Sig)
    requires c in w.inputs && c in w.attached && c in w.listeners
  {
    && Loose(w, c)
    && forall k :: 0 <= k < |w.inputs[c]| ==> Listens(w, c, k)
  }

  ghost predicate Listens(w: World, c: Sig, k: nat)
    requires c in w.inputs && k < |w.inputs[c]|
  {
    var s := w.inputs[c][k];
    s in w.listeners && Forward(c, s, k) in w.listeners[s]
  }

  /** No listener of `c` is left on any signal. */
  ghost predicate Gone(w: World, c: Sig)
    requires c in w.attached
  {
    && w.attached[c] == []
    && forall s, x :: s in w.listeners && x in w.listeners[s] ==> !(x.Forward? && x.combo == c)
  }

  /**
   * The state between two listener calls: `dispatching` are the signals whose dispatch is under way, and
   * `firing` is a combination one of whose listeners has just been taken off to be called.
   */
  ghost predicate Steady(w: World, dispatching: set<Sig>, firing: Option<Sig>) {
    && Wf(w)
    && (forall c :: c in w.inputs && c !in w.aborted ==> if firing == Some(c) then Loose(w, c) else Attached(w, c))
    && (forall c :: c in w.inputs && c in w.aborted ==> Gone(w, c))
    && (forall s :: s in w.aborted && s !in dispatching ==> w.listeners[s] == [])
  }

  /** Outside every dispatch. */
  ghost predicate Quiet(w: World) {
    Steady(w, {}, None)
  }

  /** `c` has just been marked aborted; its own listeners have not been called yet. */
  ghost predicate JustAborted(w: World, dispatching: set<Sig>, c: Sig) {
    && Wf(w) && c in w.aborted
    && (forall d :: d in w.inputs && d !in w.aborted ==> Attached(w, d))
    && (forall d :: d in w.inputs && d in w.aborted && d != c ==> Gone(w, d))
    && (c in w.inputs ==> Loose(w, c))
    && (forall s :: s in w.aborted && s !in dispatching && s != c ==> w.listeners[s] == [])
  }

  /** Listeners only come off, and the shape stays. */
  ghost predicate Shrinks(w: World, w': World) {
    && w'.inputs == w.inputs && w'.listeners.Keys == w.listeners.Keys
    && (forall s, x :: s in w'.listeners && x in w'.listeners[s] ==> x in w.listeners[s])
  }

  /** What an abort of `a` with reason `r` may have aborted so far. */
  ghost predicate Spreads(w: World, w': World, a: Sig, r: Reason) {
    && w.aborted <= w'.aborted
    && (forall s :: s in w.aborted ==> s in w.reasons && s in w'.reasons && w'.reasons[s] == w.reasons[s])
    && (forall s :: s in w'.aborted && s !in w.aborted ==> Reaches(w.inputs, a, s) && s in w'.reasons && w'.reasons[s] == r)
  }

  // ---------------------------------------------------------------- one step at a time

  lemma AttachedFrame(w: World, w': World, d: Sig)
    requires Wf(w) && Wf(w') && d in w.inputs && Attached(w, d)
    requires w'.inputs == w.inputs && w'.attached[d] == w.attached[d]
    requires w'.listeners[d] != [] && w'.listeners[d][0] == w.listeners[d][0]
    requires forall s, x :: s in w.listeners && x in w.listeners[s] && x.Forward? && x.combo == d ==>
               s in w'.listeners && x in w'.listeners[s]
    ensures Attached(w', d)
  {
    hide NoDup, Belongs;
    forall k | 0 <= k < |w'.inputs[d]| ensures Listens(w', d, k) { assert Listens(w, d, k); }
  }

  lemma MarkAborted(w: World, dispatching: set<Sig>, c: Sig, r: Reason)
    requires Steady(w, dispatching, Some(c)) && c !in w.aborted && c in w.listeners
    ensures JustAborted(w.(aborted := w.aborted + {c}, reasons := w.reasons[c := r]), dispatching, c)
  {
    hide NoDup, Belongs, Attached;
    var w' := w.(aborted := w.aborted + {c}, reasons := w.reasons[c := r]);
    forall s, x | s in w'.listeners && x in w'.listeners[s] ensures Belongs(w', s, x) { BelongsFrame(w, w', s, x); }
    forall d | d in w'.inputs && d !in w'.aborted ensures Attached(w', d) {
      AttachedHead(w, d);
      AttachedFrame(w, w', d);
    }
  }

  lemma BelongsFrame(w: World, w': World, s: Sig, x: Listener)
    requires Belongs(w, s, x) && w'.inputs == w.inputs
    ensures Belongs(w', s, x)
  {}

  lemma AttachedHead(w: World, d: Sig)
    requires d in w.inputs && d in w.attached && d in w.listeners && Attached(w, d)
    ensures Loose(w, d)
  {}

  lemma NoneIsSteady(w: World, dispatching: set<Sig>, c: Sig)
    requires Steady(w, dispatching, None) || (Steady(w, dispatching, Some(c)) && c in w.aborted)
    ensures Steady(w, dispatching, Some(c))
    ensures c in w.aborted ==> Steady(w, dispatching, None)
  {
    hide NoDup, Belongs;
  }

  lemma PlainJustAborted(w: World, dispatching: set<Sig>, c: Sig)
    requires JustAborted(w, dispatching, c) && c !in w.inputs
    ensures Steady(w, dispatching + {c}, None)
  {
    hide NoDup, Belongs, Attached, Gone;
  }

  /** Taking the listener of combination `x.combo` off `s` to call it. */
  lemma TakeOff(w: World, dispatching: set<Sig>, s: Sig, x: Listener)
    requires Steady(w, dispatching, None) && s in w.listeners && x in w.listeners[s] && x.Forward?
    ensures x.combo in w.inputs && x.combo !in w.aborted && Edge(w.inputs, s, x.combo)
    ensures var w' := w.(listeners := w.listeners[s := Without(w.listeners[s], x)]);
      Steady(w', dispatching, Some(x.combo)) && Shrinks(w, w')
  {
    hide NoDup, Attached;
    WithoutIs(w.listeners[s], x);
    assert Belongs(w, s, x);
    var w' := w.(listeners := w.listeners[s := Without(w.listeners[s], x)]);
    hide Belongs;
    forall t, y | t in w'.listeners && y in w'.listeners[t] ensures Belongs(w', t, y) { BelongsFrame(w, w', t, y); }
    forall d | d in w'.inputs && d !in w'.aborted
      ensures if d == x.combo then Loose(w', d) else Attached(w', d)
    {
      AttachedHead(w, d);
      if d != x.combo { AttachedFrame(w, w', d); }
    }
  }

  lemma DispatchOver(w: World, dispatching: set<Sig>, c: Sig)
    requires Steady(w, dispatching + {c}, None) && c in w.listeners && w.listeners[c] == []
    ensures Steady(w, dispatching, None)
  {
    hide NoDup, Belongs, Attached, Gone;
  }

  /** When the dust has settled, everything that combines an aborted signal is aborted. */
  lemma {:induction false} AbortedBelow(w: World, dispatching: set<Sig>, p: seq<Sig>, k: nat)
    requires Steady(w, dispatching, None) && Path(w.inputs, p) && k < |p|
    requires p[0] in w.aborted && forall z :: z in dispatching ==> z < p[0]
    ensures p[k] in w.aborted && p[0] <= p[k]
  {
    if k > 0 {
      AbortedBelow(w, dispatching, p, k - 1);
      var a, b := p[k - 1], p[k - 1 + 1];
      assert Edge(w.inputs, a, b);
      var i :| 0 <= i < |w.inputs[b]| && w.inputs[b][i] == a;
      assert b !in w.aborted ==> Attached(w, b);
      assert b !in w.aborted ==> Listens(w, b, i);
    }
  }

  lemma AllBelow(w: World, dispatching: set<Sig>, a: Sig)
    requires Steady(w, dispatching, None) && a in w.aborted && forall z :: z in dispatching ==> z < a
    ensures forall b :: Reaches(w.inputs, a, b) ==> b in w.aborted
  {
    hide Steady;
    forall b | Reaches(w.inputs, a, b) ensures b in w.aborted {
      var p :| Path(w.inputs, p) && p[0] == a && p[|p| - 1] == b;
      AbortedBelow(w, dispatching, p, |p| - 1);
    }
  }

  /**
   * Outside every dispatch: an un-aborted combination has exactly one listener for each input occurrence, no
   * input of it is aborted, and an aborted combination has no listener anywhere.
   */
  lemma QuietListeners(w: World, c: Sig)
    requires Quiet(w) && c in w.inputs
    ensures c !in w.aborted ==>
              && (forall s, k: nat :: s in w.listeners ==>
                    (Forward(c, s, k) in w.listeners[s] <==> k < |w.inputs[c]| && w.inputs[c][k] == s))
              && (forall k :: 0 <= k < |w.inputs[c]| ==> w.inputs[c][k] !in w.aborted)
    ensures c in w.aborted ==> forall s, k: nat :: s in w.listeners ==> Forward(c, s, k) !in w.listeners[s]
  {
    if c !in w.aborted {
      forall s, k: nat | s in w.listeners
        ensures Forward(c, s, k) in w.listeners[s] <==> k < |w.inputs[c]| && w.inputs[c][k] == s
      {
        if Forward(c, s, k) in w.listeners[s] { assert Belongs(w, s, Forward(c, s, k)); }
        if k < |w.inputs[c]| && w.inputs[c][k] == s { assert Listens(w, c, k); }
      }
      forall k | 0 <= k < |w.inputs[c]| ensures w.inputs[c][k] !in w.aborted { assert Listens(w, c, k); }
    }
  }

  // ---------------------------------------------------------------- a combination detaches itself

  /** The detaching loop of `c` has taken its first `k` listeners off. */
  ghost predicate Detaching(w: World, dispatching: set<Sig>, c: Sig, k: nat) {
    && Wf(w) && c in w.aborted && c in w.inputs && w.attached[c] == AllPairs(w.inputs[c], c)
    && (forall d :: d in w.inputs && d !in w.aborted ==> Attached(w, d))
    && (forall d :: d in w.inputs && d in w.aborted && d != c ==> Gone(w, d))
    && (forall s :: s in w.aborted && s !in dispatching && s != c ==> w.listeners[s] == [])
    && (forall s, x :: s in w.listeners && x in w.listeners[s] && x.Forward? && x.combo == c ==> x.k >= k)
  }

  /** Taking off a listener that belongs to the aborted `c` leaves every other combination alone. */
  lemma OthersUnmoved(w: World, s: Sig, x: Listener, c: Sig)
    requires Wf(w) && s in w.listeners && x.combo == c && c in w.aborted
    requires forall d :: d in w.inputs && d !in w.aborted ==> Attached(w, d)
    requires forall d :: d in w.inputs && d in w.aborted && d != c ==> Gone(w, d)
    ensures var w' := w.(listeners := w.listeners[s := Without(w.listeners[s], x)]);
      && Wf(w') && Shrinks(w, w')
      && (forall d :: d in w'.inputs && d !in w'.aborted ==> Attached(w', d))
      && (forall d :: d in w'.inputs && d in w'.aborted && d != c ==> Gone(w', d))
  {
    hide NoDup, Attached, Belongs;
    WithoutIs(w.listeners[s], x);
    var w' := w.(listeners := w.listeners[s := Without(w.listeners[s], x)]);
    forall t, y | t in w'.listeners && y in w'.listeners[t] ensures Belongs(w', t, y) { BelongsFrame(w, w', t, y); }
    forall d | d in w'.inputs && d !in w'.aborted ensures Attached(w', d) {
      AttachedHead(w, d);
      AttachedFrame(w, w', d);
    }
  }

  lemma DetachStart(w: World, dispatching: set<Sig>, c: Sig)
    requires JustAborted(w, dispatching, c) && c in w.inputs
    ensures var w' := w.(listeners := w.listeners[c := Without(w.listeners[c], Detach(c))]);
      Detaching(w', dispatching, c, 0) && Shrinks(w, w')
  {
    hide NoDup, Attached, Belongs, Gone;
    OthersUnmoved(w, c, Detach(c), c);
  }

  lemma DetachStep(w: World, dispatching: set<Sig>, c: Sig, k: nat)
    requires Detaching(w, dispatching, c, k) && k < |w.inputs[c]|
    ensures var s := w.inputs[c][k];
      var w' := w.(listeners := w.listeners[s := Without(w.listeners[s], Forward(c, s, k))]);
      Detaching(w', dispatching, c, k + 1) && Shrinks(w, w')
  {
    var s := w.inputs[c][k];
    var x := Forward(c, s, k);
    var w' := w.(listeners := w.listeners[s := Without(w.listeners[s], x)]);
    forall t, y | t in w'.listeners && y in w'.listeners[t] && y.Forward? && y.combo == c ensures y.k >= k + 1 {
      WithoutIs(w.listeners[s], x);
      assert y in w.listeners[t] && Belongs(w, t, y);
    }
    hide NoDup, Attached, Belongs, Gone;
    OthersUnmoved(w, s, x, c);
    WithoutIs(w.listeners[s], x);
  }

  lemma DetachEnd(w: World, dispatching: set<Sig>, c: Sig)
    requires c in w.inputs && Detaching(w, dispatching, c, |w.inputs[c]|)
    ensures var w' := w.(attached := w.attached[c := []]);
      Steady(w', dispatching + {c}, None) && Shrinks(w, w')
  {
    hide NoDup, Attached;
    var w' := w.(attached := w.attached[c := []]);
    forall t, y | t in w'.listeners && y in w'.listeners[t] ensures Belongs(w', t, y) && !(y.Forward? && y.combo == c) {
      assert Belongs(w, t, y);
    }
    forall d | d in w'.inputs && d !in w'.aborted ensures Attached(w', d) {
      AttachedHead(w, d);
      AttachedFrame(w, w', d);
    }
  }

  lemma ShrinksTransitive(a: World, b: World, c: World)
    requires Shrinks(a, b) && Shrinks(b, c)
    ensures Shrinks(a, c)
  {}

  /** An abort that reached `d` from its input `c` is part of the abort of `c`. */
  lemma SpreadsVia(w0: World, w1: World, w2: World, c: Sig, d: Sig, r: Reason)
    requires Spreads(w0, w1, c, r) && Spreads(w1, w2, d, r) && w1.inputs == w0.inputs && Edge(w0.inputs, c, d)
    ensures Spreads(w0, w2, c, r)
  {
    hide Reaches;
    forall s | s in w2.aborted && s !in w0.aborted ensures Reaches(w0.inputs, c, s) {
      if s !in w1.aborted { ReachesVia(w0.inputs, c, d, s); }
    }
  }

  /** What the listener list of a signal under dispatch looks like. */
  lemma ListFacts(w: World, dispatching: set<Sig>, c: Sig)
    requires JustAborted(w, dispatching, c)
    ensures c in w.listeners && c in w.reasons && NoDup(w.listeners[c])
    ensures forall x :: x in w.listeners[c] ==> if x.Detach? then x == Detach(c) && c in w.inputs else ForwardOf(w, c, x)
    ensures c in w.inputs ==> w.listeners[c] != [] && w.listeners[c][0] == Detach(c)
    ensures forall s :: s in w.aborted ==> s in w.reasons
  {
    forall x | x in w.listeners[c]
      ensures if x.Detach? then x == Detach(c) && c in w.inputs else ForwardOf(w, c, x)
    {
      assert Belongs(w, c, x);
    }
  }

  ghost predicate ForwardOf(w: World, c: Sig, x: Listener) {
    && x.Forward? && x.source == c && x.combo > c
    && x.combo in w.inputs && x.combo in w.listeners && x.k < |w.inputs[x.combo]| && w.inputs[x.combo][x.k] == c
  }

  /** A listener taken off before its turn belonged to a combination that has aborted since. */
  lemma StaleMeansAborted(w: World, dispatching: set<Sig>, c: Sig, x: Listener)
    requires Steady(w, dispatching, None) && c in w.listeners && x !in w.listeners[c] && ForwardOf(w, c, x)
    ensures x.combo in w.aborted
  {
    assert x.combo !in w.aborted ==> Attached(w, x.combo);
    assert x.combo !in w.aborted ==> Listens(w, x.combo, x.k);
  }

  lemma MarkSpreads(w0: World, w1: World, w2: World, c: Sig, r: Reason)
    requires c !in w0.aborted && w1 == w0.(aborted := w0.aborted + {c}, reasons := w0.reasons[c := r])
    requires (forall s :: s in w0.aborted ==> s in w0.reasons) && Spreads(w1, w2, c, r)
    ensures Spreads(w0, w2, c, r)
  {
    ReachesSelf(w0.inputs, c);
    hide Reaches;
  }

  lemma ReasonsKnown(w: World, dispatching: set<Sig>, firing: Option<Sig>)
    requires Steady(w, dispatching, firing)
    ensures forall s :: s in w.aborted ==> s in w.reasons && s in w.listeners
  {}

  lemma SteadyNoDup(w: World, dispatching: set<Sig>, c: Sig)
    requires Steady(w, dispatching, None) && c in w.listeners
    ensures NoDup(w.listeners[c])
  {}

  lemma DetachingFacts(w: World, dispatching: set<Sig>, c: Sig, k: nat)
    requires Detaching(w, dispatching, c, k)
    ensures c in w.inputs && c in w.attached && w.attached[c] == AllPairs(w.inputs[c], c)
    ensures forall i :: 0 <= i < |w.inputs[c]| ==> w.inputs[c][i] in w.listeners
  {}

  lemma AllCalled(list: seq<Listener>, left: seq<Listener>)
    requires forall x :: x in left ==> x in list
    requires forall i :: 0 <= i < |list| ==> list[i] !in left
    ensures left == []
  {
    HeadIn(left);
  }

  lemma HeadIn(s: seq<Listener>)
    ensures s != [] ==> s[0] in s
  {}

  // ---------------------------------------------------------------- a new combination

  lemma NewIsQuiet(w: World, c: Sig)
    requires Quiet(w) && c !in w.listeners
    ensures Quiet(w.(listeners := w.listeners[c := []])) && c !in w.inputs && c !in w.aborted
  {
    hide Attached;
    var w' := w.(listeners := w.listeners[c := []]);
    forall s, x | s in w'.listeners && x in w'.listeners[s] ensures Belongs(w', s, x) { assert Belongs(w, s, x); }
    forall d | d in w'.inputs && d !in w'.aborted ensures Attached(w', d) {
      AttachedHead(w, d);
      AttachedGrows(w, w', d);
    }
  }

  lemma AttachedGrows(w: World, w': World, d: Sig)
    requires d in w.inputs && d in w.attached && d in w.listeners && Attached(w, d)
    requires d in w'.inputs && w'.inputs[d] == w.inputs[d] && d in w'.attached && w'.attached[d] == w.attached[d]
    requires d in w'.listeners && w'.listeners[d] != [] && w'.listeners[d][0] == w.listeners[d][0]
    requires forall s, x :: s in w.listeners && x in w.listeners[s] ==> s in w'.listeners && x in w'.listeners[s]
    ensures Attached(w', d)
  {
    forall k | 0 <= k < |w'.inputs[d]| ensures Listens(w', d, k) { assert Listens(w, d, k); }
  }

  /** The first `k` inputs listen for `c`, which is not yet recorded as a combination. */
  ghost predicate Attaching(w: World, c: Sig, list: seq<Sig>, k: nat) {
    && w.aborted <= w.listeners.Keys && (forall s :: s in w.aborted ==> s in w.reasons)
    && (forall d :: d in w.inputs ==> d in w.listeners && d in w.attached)
    && (forall d, j :: d in w.inputs && 0 <= j < |w.inputs[d]| ==> w.inputs[d][j] < d && w.inputs[d][j] in w.listeners)
    && c in w.listeners && c !in w.aborted && c !in w.inputs && w.listeners[c] == [] && k <= |list|
    && (forall i :: 0 <= i < |list| ==> list[i] in w.listeners && list[i] !in w.aborted && list[i] < c)
    && (forall s :: s in w.listeners ==> NoDup(w.listeners[s]))
    && (forall s, x :: s in w.listeners && x in w.listeners[s] ==>
          Belongs(w, s, x) || (x.Forward? && x.combo == c && x.k < k && x.source == s && list[x.k] == s))
    && (forall i :: 0 <= i < k ==> Forward(c, list[i], i) in w.listeners[list[i]])
    && (forall d :: d in w.inputs && d !in w.aborted ==> Attached(w, d))
    && (forall d :: d in w.inputs && d in w.aborted ==> Gone(w, d))
    && (forall s :: s in w.aborted ==> w.listeners[s] == [])
  }

  lemma AttachStart(w: World, c: Sig, list: seq<Sig>)
    requires Quiet(w) && c in w.listeners && c !in w.aborted && c !in w.inputs && w.listeners[c] == []
    requires forall i :: 0 <= i < |list| ==> list[i] in w.listeners && list[i] !in w.aborted && list[i] < c
    ensures Attaching(w, c, list, 0)
  {
    hide Attached, NoDup, Gone;
  }

  lemma SnocNoDup(s: seq<Listener>, x: Listener)
    requires NoDup(s) && x !in s
    ensures NoDup(s + [x]) && forall y :: y in s + [x] <==> y in s || y == x
  {}

  lemma NextIsFresh(w: World, c: Sig, list: seq<Sig>, k: nat)
    requires Attaching(w, c, list, k) && k < |list|
    ensures Forward(c, list[k], k) !in w.listeners[list[k]]
  {
    hide Attached, NoDup, Gone;
  }

  lemma AttachStep(w: World, c: Sig, list: seq<Sig>, k: nat)
    requires Attaching(w, c, list, k) && k < |list|
    ensures var s, x := list[k], Forward(c, list[k], k);
      Attaching(w.(listeners := w.listeners[s := w.listeners[s] + [x]]), c, list, k + 1)
  {
    var s, x := list[k], Forward(c, list[k], k);
    var w' := w.(listeners := w.listeners[s := w.listeners[s] + [x]]);
    hide Attached;
    NextIsFresh(w, c, list, k);
    SnocNoDup(w.listeners[s], x);
    hide NoDup;
    forall t, y | t in w'.listeners && y in w'.listeners[t]
      ensures Belongs(w', t, y) || (y.Forward? && y.combo == c && y.k < k + 1 && y.source == t && list[y.k] == t)
    {
      if y in w.listeners[t] && Belongs(w, t, y) { assert Belongs(w', t, y); }
    }
    forall d | d in w'.inputs && d !in w'.aborted ensures Attached(w', d) {
      AttachedHead(w, d);
      AttachedGrows(w, w', d);
    }
  }

  function WithCombination(w: World, c: Sig, list: seq<Sig>): World
    requires c in w.listeners
  {
    w.(attached := w.attached[c := AllPairs(list, c)], inputs := w.inputs[c := list],
       listeners := w.listeners[c := w.listeners[c] + [Detach(c)]])
  }

  lemma NewIsAttached(w: World, c: Sig, list: seq<Sig>)
    requires Attaching(w, c, list, |list|)
    ensures c in w.listeners && Attached(WithCombination(w, c, list), c)
  {
    hide NoDup, Belongs, Gone;
    var w' := WithCombination(w, c, list);
    forall k | 0 <= k < |w'.inputs[c]| ensures Listens(w', c, k) {
      assert Forward(c, list[k], k) in w.listeners[list[k]];
    }
  }

  lemma NewIsWf(w: World, c: Sig, list: seq<Sig>)
    requires Attaching(w, c, list, |list|)
    ensures c in w.listeners && Wf(WithCombination(w, c, list))
  {
    hide Attached, Listens, Gone;
    var w' := WithCombination(w, c, list);
    forall t, y | t in w'.listeners && y in w'.listeners[t] ensures Belongs(w', t, y) {
      if t != c { assert y in w.listeners[t]; }
    }
  }

  lemma AttachEnd(w: World, c: Sig, list: seq<Sig>)
    requires Attaching(w, c, list, |list|)
    ensures c in w.listeners && Quiet(WithCombination(w, c, list)) && Attached(WithCombination(w, c, list), c)
  {
    NewIsAttached(w, c, list);
    NewIsWf(w, c, list);
    hide Attached, Wf, Belongs, NoDup;
    var w' := WithCombination(w, c, list);
    forall d | d in w'.inputs && d !in w'.aborted ensures Attached(w', d) {
      if d != c {
        AttachedHead(w, d);
        AttachedGrows(w, w', d);
      }
    }
  }

  // ---------------------------------------------------------------- the polyfill

  class Signals {
    var aborted: set<Sig>
    var reasons: map<Sig, Reason>
    var listeners: map<Sig, seq<Listener>>
    var attached: map<Sig, seq<(Sig, Listener)>>
    ghost var inputs: map<Sig, seq<Sig>>
    var next: Sig

    ghost function View(): World reads this {
      World(aborted, reasons, listeners, attached, inputs)
    }

    /** What any call may do to the world: listeners come off, `a` and what combines it abort, all with `r`. */
    twostate predicate Only(a: Sig, r: Reason) reads this {
      Shrinks(old(View()), View()) && Spreads(old(View()), View(), a, r) && next == old(next)
    }

    /** The patched `abort`, called at any moment of other signals' dispatches. */
    method Abort(c: Sig, reason: Option<Reason>, ghost dispatching: set<Sig>)
      requires c in listeners && Steady(View(), dispatching, Some(c))
      requires c in aborted || forall z :: z in dispatching ==> z < c
      modifies this
      ensures Steady(View(), dispatching, None) && c in aborted
      ensures old(c in aborted) ==> View() == old(View())
      ensures Only(c, if reason.Some? then reason.value else AbortError)
      decreases listeners.Keys - aborted, 0
    {
      hide Steady, JustAborted, Wf, Reaches;
      ReasonsKnown(View(), dispatching, Some(c));
      if c in aborted {
        NoneIsSteady(View(), dispatching, c);
        return;
      }
      ghost var r := if reason.Some? then reason.value else AbortError;
      MarkAborted(View(), dispatching, c, r);
      reasons := reasons[c := if reason.Some? then reason.value else AbortError];
      aborted := aborted + {c};
      ghost var w1 := View();
      Dispatch(c, dispatching);
      MarkSpreads(old(View()), w1, View(), c, r);
    }

    /**
     * The dispatch of the abort event: every listener the signal had, in order, each taken off before it is
     * called. One that an earlier call took off may be skipped or called all the same.
     */
    method Dispatch(c: Sig, ghost dispatching: set<Sig>)
      requires c in listeners && c in aborted && c in reasons && JustAborted(View(), dispatching, c)
      requires forall z :: z in dispatching ==> z < c
      modifies this
      ensures Steady(View(), dispatching, None) && Only(c, old(reasons[c]))
      decreases listeners.Keys - aborted, 3
    {
      hide Steady, JustAborted, Wf, Reaches, Belongs;
      ListFacts(View(), dispatching, c);
      ghost var w0, r := View(), reasons[c];
      ghost var now := dispatching + {c};
      if c !in inputs { PlainJustAborted(View(), dispatching, c); }
      var list := listeners[c];
      for j := 0 to |list|
        invariant next == old(next) && Shrinks(w0, View()) && Spreads(w0, View(), c, r)
        invariant if j == 0 && c in w0.inputs then View() == w0 else Steady(View(), now, None)
        invariant forall i :: 0 <= i < j ==> list[i] !in listeners[c]
      {
        var x := list[j];
        assert x in w0.listeners[c];
        ghost var w1 := View();
        if x in listeners[c] {
          if x.Detach? {
            assert j == 0;
            RunDetach(c, dispatching);
          } else {
            CallOff(c, x, now);
            SpreadsVia(w0, w1, View(), c, x.combo, r);
          }
          ShrinksTransitive(w0, w1, View());
        } else {
          var called: bool := *;
          if called {
            StaleMeansAborted(View(), now, c, x);
            NoneIsSteady(View(), now, x.combo);
            InvokeForward(x, now);
          }
        }
      }
      AllCalled(list, listeners[c]);
      DispatchOver(View(), dispatching, c);
    }

    /** Takes the listener `x` of a combination off `c`, then calls it. */
    method CallOff(c: Sig, x: Listener, ghost now: set<Sig>)
      requires c in aborted && c in listeners && c in reasons && x in listeners[c] && ForwardOf(View(), c, x)
      requires Steady(View(), now, None) && forall z :: z in now ==> z < x.combo
      modifies this
      ensures Steady(View(), now, None) && c in listeners && x !in listeners[c]
      ensures Edge(old(inputs), c, x.combo) && Only(x.combo, old(reasons[c]))
      decreases listeners.Keys - aborted, 2
    {
      hide Steady, Wf, Reaches;
      SteadyNoDup(View(), now, c);
      WithoutIs(listeners[c], x);
      TakeOff(View(), now, c, x);
      listeners := listeners[c := Without(listeners[c], x)];
      ghost var w1 := View();
      InvokeForward(x, now);
      ShrinksTransitive(old(View()), w1, View());
    }

    /** The closure `any` registers on an input. */
    method InvokeForward(x: Listener, ghost now: set<Sig>)
      requires x.Forward? && x.combo in listeners && x.source in reasons && Steady(View(), now, Some(x.combo))
      requires x.combo in aborted || forall z :: z in now ==> z < x.combo
      modifies this
      ensures Steady(View(), now, None) && Only(x.combo, old(reasons[x.source]))
      ensures old(x.combo in aborted) ==> View() == old(View())
      decreases listeners.Keys - aborted, 1
    {
      hide Steady, Wf, Reaches;
      ReasonsKnown(View(), now, Some(x.combo));
      if x.combo in aborted {
        NoneIsSteady(View(), now, x.combo);
        return;
      }
      Abort(x.combo, Some(reasons[x.source]), now);
    }

    /** The detaching closure: taken off its own signal, then takes every listener of `c` off its inputs. */
    method RunDetach(c: Sig, ghost dispatching: set<Sig>)
      requires c in listeners && c in aborted && c in inputs && JustAborted(View(), dispatching, c)
      modifies this`listeners, this`attached
      ensures Steady(View(), dispatching + {c}, None) && Shrinks(old(View()), View())
      ensures c in listeners && Detach(c) !in listeners[c]
    {
      hide Steady, JustAborted, Wf, Detaching;
      ListFacts(View(), dispatching, c);
      WithoutIs(listeners[c], Detach(c));
      DetachStart(View(), dispatching, c);
      listeners := listeners[c := Without(listeners[c], Detach(c))];
      ghost var w1 := View();
      DetachingFacts(View(), dispatching, c, 0);
      var pairs := attached[c];
      for k := 0 to |pairs|
        invariant Detaching(View(), dispatching, c, k) && Shrinks(w1, View()) && attached == w1.attached
      {
        ghost var w2 := View();
        DetachingFacts(View(), dispatching, c, k);
        DetachStep(View(), dispatching, c, k);
        var (signal, listener) := pairs[k];
        listeners := listeners[signal := Without(listeners[signal], listener)];
        ShrinksTransitive(w1, w2, View());
      }
      DetachEnd(View(), dispatching, c);
      attached := attached[c := []];
      ShrinksTransitive(old(View()), w1, View());
    }

    constructor ()
      ensures Quiet(View()) && listeners == map[] && aborted == {}
    {
      aborted, reasons, listeners, attached, inputs, next := {}, map[], map[], map[], map[], 0;
    }

    ghost predicate Valid() reads this {
      Quiet(View()) && forall s :: s in listeners ==> s < next
    }

    /** `new AbortController().signal`. */
    method NewSignal() returns (c: Sig)
      requires Valid()
      modifies this
      ensures Valid() && c == old(next) && next == c + 1 && c !in inputs && c !in aborted
      ensures View() == old(View()).(listeners := old(listeners)[c := []])
    {
      hide Reaches;
      c := next;
      next := next + 1;
      NewIsQuiet(View(), c);
      listeners := listeners[c := []];
    }

    /**
     * `controller.abort(reason)`, outside every dispatch: exactly the signals not yet aborted that combine `c`,
     * directly or not, abort, all with the same reason; and no first reason is overwritten.
     */
    method AbortSignal(c: Sig, reason: Option<Reason>)
      requires Valid() && c in listeners
      modifies this
      ensures Valid() && inputs == old(inputs) && listeners.Keys == old(listeners).Keys
      ensures old(c in aborted) ==> View() == old(View())
      ensures forall s :: s in aborted <==> s in old(aborted) || (c !in old(aborted) && Reaches(inputs, c, s))
      ensures forall s :: s in old(aborted) ==> s in reasons && s in old(reasons) && reasons[s] == old(reasons)[s]
      ensures forall s :: s in aborted && s !in old(aborted) ==>
                s in reasons && reasons[s] == if reason.Some? then reason.value else AbortError
    {
      hide Steady, Reaches;
      NoneIsSteady(View(), {}, c);
      ReasonsKnown(View(), {}, None);
      Abort(c, reason, {});
      ReasonsKnown(View(), {}, None);
      AllBelow(View(), {}, c);
    }

    /**
     * `AbortSignal.any`. With an aborted input the result is aborted at once with the reason of the first, and
     * nothing is registered; otherwise each input occurrence gets one listener.
     */
    method Any(list: seq<Sig>) returns (c: Sig)
      requires Valid() && forall i :: 0 <= i < |list| ==> list[i] in listeners
      modifies this
      ensures Valid() && c == old(next) && c in listeners
      ensures (forall i :: 0 <= i < |list| ==> list[i] !in old(aborted)) ==>
                && aborted == old(aborted) && reasons == old(reasons)
                && inputs == old(inputs)[c := list] && Attached(View(), c)
      ensures (exists i :: 0 <= i < |list| && list[i] in old(aborted)) ==>
                && aborted == old(aborted) + {c} && inputs == old(inputs) && listeners == old(listeners)[c := []]
                && exists i :: 0 <= i < |list| && list[i] in old(aborted) && list[i] in old(reasons)
                     && (forall j :: 0 <= j < i ==> list[j] !in old(aborted))
                     && reasons == old(reasons)[c := old(reasons)[list[i]]]
    {
      hide Steady, Reaches, Attached;
      ReasonsKnown(View(), {}, None);
      c := NewSignal();
      for i := 0 to |list|
        invariant forall j :: 0 <= j < i ==> list[j] !in aborted
        invariant View() == old(View()).(listeners := old(listeners)[c := []]) && Valid() && c == old(next)
      {
        if list[i] in aborted {
          AbortFresh(c, reasons[list[i]]);
          return;
        }
      }
      Attach(c, list);
    }

    /** Aborting a signal nobody listens to. */
    method AbortFresh(c: Sig, r: Reason)
      requires Valid() && c in listeners && c !in aborted && c !in inputs && listeners[c] == []
      modifies this
      ensures Valid() && View() == old(View()).(aborted := old(aborted) + {c}, reasons := old(reasons)[c := r])
    {
      hide Steady, JustAborted, Reaches;
      NoneIsSteady(View(), {}, c);
      MarkAborted(View(), {}, c, r);
      reasons := reasons[c := r];
      aborted := aborted + {c};
      PlainJustAborted(View(), {}, c);
      DispatchOver(View(), {}, c);
    }

    /** The registration loop, and the detaching listener. */
    method Attach(c: Sig, list: seq<Sig>)
      requires Valid() && c in listeners && c !in aborted && c !in inputs && listeners[c] == []
      requires forall i :: 0 <= i < |list| ==> list[i] in listeners && list[i] !in aborted && list[i] < c
      modifies this
      ensures Valid() && aborted == old(aborted) && reasons == old(reasons) && inputs == old(inputs)[c := list]
      ensures c in listeners && c in attached && Attached(View(), c) && next == old(next)
    {
      hide Steady, Reaches, Attached, Attaching;
      AttachStart(View(), c, list);
      var pairs: seq<(Sig, Listener)> := [];
      for k := 0 to |list|
        invariant Attaching(View(), c, list, k) && pairs == AllPairs(list[..k], c)
        invariant aborted == old(aborted) && reasons == old(reasons)
        invariant inputs == old(inputs) && attached == old(attached) && next == old(next)
        invariant listeners.Keys == old(listeners).Keys
      {
        AttachStep(View(), c, list, k);
        pairs := pairs + [(list[k], Forward(c, list[k], k))];
        listeners := listeners[list[k] := listeners[list[k]] + [Forward(c, list[k], k)]];
      }
      AttachEnd(View(), c, list);
      assert list[..|list|] == list;
      attached := attached[c := pairs];
      inputs := inputs[c := list];
      listeners := listeners[c := listeners[c] + [Detach(c)]];
    }
  }
}
