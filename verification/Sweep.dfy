/**
 * The retention sweep (packages/bootstrap-rendezvous-service/src/sweeper.ts, sweepOnce) over the record
 * store, the ciphertext store (store.ts) and the claim markers (claim.ts).
 *
 * Ciphertext is erased at expiry; the record and then its marker go once the grace window has passed.
 * Here one sweep runs against the store: to the end, cut by a crash, or with store calls that throw.
 * Lifecycle.dfy lets sweeps and claims interleave.
 */
module Sweep {
  import opened Common
  import opened CanonicalTime
  import opened CodeUnits
  import opened Claim

  type Id = string

  datatype Record = Record(expiresAt: Text, used: bool)

  /** A record file; `Corrupt` is one that JSON.parse rejects. */
  datatype Stored = Parsed(record: Record) | Corrupt

  datatype Store = Store(records: map<Id, Stored>, ciphertext: map<Id, string>, markers: set<Id>)

  // ---------------------------------------------------------------- what a sweep is for

  predicate Expired(st: Store, id: Id, now: Text) {
    && SafeLookupId(id) && id in st.records && st.records[id].Parsed?
    && AtMost(st.records[id].record.expiresAt, now)
  }

  predicate PastGrace(st: Store, id: Id, now: Text, horizon: Text) {
    Expired(st, id, now) && AtMost(st.records[id].record.expiresAt, horizon)
  }

  /** The store after a sweep that met no failure: the retention rule, stated for each id on its own. */
  function Swept(st: Store, now: Text, horizon: Text): Store {
    Store(
      map id | id in st.records && !PastGrace(st, id, now, horizon) :: st.records[id],
      map id | id in st.ciphertext && !Expired(st, id, now) :: st.ciphertext[id],
      set id | id in st.markers && !PastGrace(st, id, now, horizon))
  }

  /** No ciphertext rests without its record. */
  ghost predicate CiphertextHasRecord(st: Store) {
    forall id :: id in st.ciphertext ==> id in st.records
  }

  // ---------------------------------------------------------------- store operations, one at a time

  datatype Op = DeleteCiphertext(id: Id) | DeleteRecord(id: Id) | DeleteMarker(id: Id)

  function Apply(st: Store, op: Op): Store {
    match op
    case DeleteCiphertext(id) => st.(ciphertext := st.ciphertext - {id})
    case DeleteRecord(id) => st.(records := st.records - {id})
    case DeleteMarker(id) => st.(markers := st.markers - {id})
  }

  function ApplyAll(st: Store, ops: seq<Op>): Store {
    if ops == [] then st else Apply(ApplyAll(st, ops[..|ops| - 1]), ops[|ops| - 1])
  }

  /** The operations a sweep performs for one id, in their order. */
  function PlanOne(st: Store, id: Id, now: Text, horizon: Text): seq<Op> {
    if !Expired(st, id, now) then []
    else if !PastGrace(st, id, now, horizon) then if id in st.ciphertext then [DeleteCiphertext(id)] else []
    else if id in st.ciphertext then [DeleteCiphertext(id), DeleteRecord(id), DeleteMarker(id)]
    else [DeleteRecord(id), DeleteMarker(id)]
  }

  function Plan(st: Store, ids: seq<Id>, now: Text, horizon: Text): seq<Op> {
    if ids == [] then [] else Plan(st, ids[..|ids| - 1], now, horizon) + PlanOne(st, ids[|ids| - 1], now, horizon)
  }

  /** `listRecordIds`: every record once, in some order. */
  ghost predicate Lists(st: Store, ids: seq<Id>) {
    && (forall id :: id in ids <==> id in st.records)
    && (forall i, j :: 0 <= i < j < |ids| ==> ids[i] != ids[j])
  }

  lemma {:induction false} ApplyAllConcat(st: Store, a: seq<Op>, b: seq<Op>)
    ensures ApplyAll(st, a + b) == ApplyAll(ApplyAll(st, a), b)
  {
    if b == [] {
      assert a + b == a;
    } else {
      ApplyAllConcat(st, a, b[..|b| - 1]);
      assert (a + b)[..|a + b| - 1] == a + b[..|b| - 1];
    }
  }

  lemma ApplyFew(st: Store, a: Op, b: Op, c: Op)
    ensures ApplyAll(st, []) == st
    ensures ApplyAll(st, [a]) == Apply(st, a)
    ensures ApplyAll(st, [a, b]) == Apply(Apply(st, a), b)
    ensures ApplyAll(st, [a, b, c]) == Apply(Apply(Apply(st, a), b), c)
  {
    assert [a][..0] == [] && [a, b][..1] == [a] && [a, b, c][..2] == [a, b];
  }

  /** The store halfway: ids in `done` swept, the others as they were. */
  function Partly(st: Store, done: set<Id>, now: Text, horizon: Text): Store {
    Store(
      map id | id in st.records && !(id in done && PastGrace(st, id, now, horizon)) :: st.records[id],
      map id | id in st.ciphertext && !(id in done && Expired(st, id, now)) :: st.ciphertext[id],
      set id | id in st.markers && !(id in done && PastGrace(st, id, now, horizon)))
  }

  function Elements(ids: seq<Id>): set<Id> {
    set id | id in ids
  }

  lemma PlanOneSweeps(st: Store, done: set<Id>, id: Id, now: Text, horizon: Text)
    ensures ApplyAll(Partly(st, done, now, horizon), PlanOne(st, id, now, horizon))
         == Partly(st, done + {id}, now, horizon)
  {
    hide Expired;
    var p := Partly(st, done, now, horizon);
    ApplyFew(p, DeleteCiphertext(id), DeleteRecord(id), DeleteMarker(id));
    ApplyFew(p, DeleteRecord(id), DeleteMarker(id), DeleteMarker(id));
    assert Partly(st, done + {id}, now, horizon) == ApplyAll(p, PlanOne(st, id, now, horizon));
  }

  lemma {:induction false} PlanSweepsPrefix(st: Store, ids: seq<Id>, now: Text, horizon: Text)
    ensures ApplyAll(st, Plan(st, ids, now, horizon)) == Partly(st, Elements(ids), now, horizon)
  {
    if ids == [] {
      assert Partly(st, {}, now, horizon) == st;
    } else {
      var before, id := ids[..|ids| - 1], ids[|ids| - 1];
      PlanSweepsPrefix(st, before, now, horizon);
      ApplyAllConcat(st, Plan(st, before, now, horizon), PlanOne(st, id, now, horizon));
      PlanOneSweeps(st, Elements(before), id, now, horizon);
      assert Elements(ids) == Elements(before) + {id};
    }
  }

  /** Running the plan to its end applies the retention rule to every record. */
  lemma PlanSweeps(st: Store, ids: seq<Id>, now: Text, horizon: Text)
    requires Lists(st, ids)
    ensures ApplyAll(st, Plan(st, ids, now, horizon)) == Swept(st, now, horizon)
  {
    PlanSweepsPrefix(st, ids, now, horizon);
    assert Partly(st, Elements(ids), now, horizon) == Swept(st, now, horizon);
  }

  // ---------------------------------------------------------------- a crash

  /**
   * What a sweep may have done at any moment, whatever failed: every erasure was due, ciphertext went before
   * its record and the record before its marker.
   */
  ghost predicate Eroded(st: Store, cut: Store, now: Text, horizon: Text) {
    && (forall id :: id in cut.records ==> id in st.records && cut.records[id] == st.records[id])
    && (forall id :: id in cut.ciphertext ==> id in st.ciphertext && cut.ciphertext[id] == st.ciphertext[id])
    && cut.markers <= st.markers
    && (forall id :: id in st.records && id !in cut.records ==> PastGrace(st, id, now, horizon) && id !in cut.ciphertext)
    && (forall id :: id in st.ciphertext && id !in cut.ciphertext ==> Expired(st, id, now))
    && (forall id :: id in st.markers && id !in cut.markers ==> PastGrace(st, id, now, horizon) && id !in cut.records)
  }

  /** A crash without other failures: moreover only `orphan` has lost its record while its marker stays. */
  ghost predicate Interrupted(st: Store, cut: Store, now: Text, horizon: Text, orphan: Option<Id>) {
    && Eroded(st, cut, now, horizon)
    && (forall id :: id in st.records && id !in cut.records && id in cut.markers ==> orphan == Some(id))
  }

  /** The promises of the retention rule, whatever part of a sweep has run and whatever has thrown. */
  lemma ErodedKeepsPromises(st: Store, cut: Store, now: Text, horizon: Text, id: Id)
    requires Eroded(st, cut, now, horizon)
    ensures CiphertextHasRecord(st) ==> CiphertextHasRecord(cut)
    ensures id in st.records && !Expired(st, id, now) ==>
              && id in cut.records && cut.records[id] == st.records[id]
              && (id in st.ciphertext <==> id in cut.ciphertext)
              && (id in st.markers <==> id in cut.markers)
    ensures id in st.records && !PastGrace(st, id, now, horizon) ==>
              id in cut.records && cut.records[id] == st.records[id] && (id in st.markers <==> id in cut.markers)
    ensures id in cut.records ==> (id in st.markers <==> id in cut.markers)
  {
    hide Less, SafeLookupId;
  }

  /** The deletion is due, and comes in its turn. */
  predicate Due(st: Store, cut: Store, op: Op, now: Text, horizon: Text) {
    match op
    case DeleteCiphertext(id) => Expired(st, id, now)
    case DeleteRecord(id) => PastGrace(st, id, now, horizon) && id !in cut.ciphertext
    case DeleteMarker(id) => PastGrace(st, id, now, horizon) && id !in cut.records
  }

  lemma ErodeStep(st: Store, cut: Store, op: Op, now: Text, horizon: Text)
    requires Eroded(st, cut, now, horizon) && Due(st, cut, op, now, horizon)
    ensures Eroded(st, Apply(cut, op), now, horizon)
  {
    hide Expired;
  }

  lemma ErodedAtFirst(st: Store, now: Text, horizon: Text)
    ensures Eroded(st, st, now, horizon)
  {}

  lemma StartPartly(st: Store, now: Text, horizon: Text)
    ensures Partly(st, Elements([]), now, horizon) == st && Eroded(st, st, now, horizon)
    ensures Plan(st, [], now, horizon) == [] && CountAll(st, [], now, horizon) == Counts(0, 0, 0)
  {
    assert Partly(st, Elements([]), now, horizon) == st;
  }

  lemma ErodedTransitive(a: Store, b: Store, c: Store, now: Text, horizon: Text)
    requires Eroded(a, b, now, horizon) && Eroded(b, c, now, horizon)
    ensures Eroded(a, c, now, horizon)
  {
    hide Less, SafeLookupId;
  }

  lemma PartlyInterrupted(st: Store, done: set<Id>, now: Text, horizon: Text, orphan: Option<Id>)
    ensures Interrupted(st, Partly(st, done, now, horizon), now, horizon, orphan)
  {
    hide Less, SafeLookupId;
  }

  lemma InterruptedStep(st: Store, cut: Store, op: Op, now: Text, horizon: Text)
    requires Interrupted(st, cut, now, horizon, Some(op.id)) && Due(st, cut, op, now, horizon)
    ensures Interrupted(st, Apply(cut, op), now, horizon, Some(op.id))
  {
    hide Eroded, Expired;
    ErodeStep(st, cut, op, now, horizon);
  }

  lemma CutInsideOne(st: Store, done: set<Id>, id: Id, now: Text, horizon: Text, k: nat)
    requires k <= |PlanOne(st, id, now, horizon)|
    ensures Interrupted(st, ApplyAll(Partly(st, done, now, horizon), PlanOne(st, id, now, horizon)[..k]), now, horizon, Some(id))
  {
    hide Expired, Eroded, Interrupted;
    var plan, p := PlanOne(st, id, now, horizon), Partly(st, done, now, horizon);
    PartlyInterrupted(st, done, now, horizon, Some(id));
    for j := 0 to k
      invariant Interrupted(st, ApplyAll(p, plan[..j]), now, horizon, Some(id))
      invariant j > 0 && plan[j - 1] == DeleteCiphertext(id) ==> id !in ApplyAll(p, plan[..j]).ciphertext
      invariant j > 0 && plan[j - 1] == DeleteRecord(id) ==> id !in ApplyAll(p, plan[..j]).records
    {
      assert plan[..j + 1][..j] == plan[..j];
      InterruptedStep(st, ApplyAll(p, plan[..j]), plan[j], now, horizon);
    }
  }

  lemma NothingCut(st: Store, now: Text, horizon: Text)
    ensures Interrupted(st, ApplyAll(st, []), now, horizon, None)
  {}

  /** Cutting a sweep after any number of store operations leaves an interrupted store. */
  lemma {:induction false} CutAnywhere(st: Store, ids: seq<Id>, now: Text, horizon: Text, k: nat)
    returns (orphan: Option<Id>)
    requires k <= |Plan(st, ids, now, horizon)|
    ensures Interrupted(st, ApplyAll(st, Plan(st, ids, now, horizon)[..k]), now, horizon, orphan)
  {
    hide PlanOne, ApplyAll, Interrupted;
    if ids == [] {
      orphan := None;
      NothingCut(st, now, horizon);
    } else {
      var before, id := ids[..|ids| - 1], ids[|ids| - 1];
      var first := Plan(st, before, now, horizon);
      if k <= |first| {
        orphan := CutAnywhere(st, before, now, horizon, k);
        assert Plan(st, ids, now, horizon)[..k] == first[..k];
      } else {
        var one := PlanOne(st, id, now, horizon)[..k - |first|];
        assert Plan(st, ids, now, horizon)[..k] == first + one;
        ApplyAllConcat(st, first, one);
        PlanSweepsPrefix(st, before, now, horizon);
        CutInsideOne(st, Elements(before), id, now, horizon, k - |first|);
        orphan := Some(id);
      }
    }
  }

  lemma LaterDue(st: Store, id: Id, now: Text, horizon: Text, later: Text, laterHorizon: Text)
    requires AtMost(now, later) && AtMost(horizon, laterHorizon)
    ensures Expired(st, id, now) ==> Expired(st, id, later)
    ensures PastGrace(st, id, now, horizon) ==> PastGrace(st, id, later, laterHorizon)
  {
    if Expired(st, id, now) {
      var e := st.records[id].record.expiresAt;
      AtMostTransitive(e, now, later);
      if AtMost(e, horizon) { AtMostTransitive(e, horizon, laterHorizon); }
    }
  }

  /** A later full sweep finishes an interrupted one. */
  lemma ResumeConverges(st: Store, cut: Store, now: Text, horizon: Text, orphan: Option<Id>,
                        later: Text, laterHorizon: Text)
    requires Interrupted(st, cut, now, horizon, orphan)
    requires AtMost(now, later) && AtMost(horizon, laterHorizon)
    requires CiphertextHasRecord(st)
    ensures var resumed, full := Swept(cut, later, laterHorizon), Swept(st, later, laterHorizon);
      && resumed.records == full.records && resumed.ciphertext == full.ciphertext
      && full.markers <= resumed.markers
      && (forall id :: id in resumed.markers - full.markers ==> orphan == Some(id) && id !in resumed.records)
  {
    hide SafeLookupId, Less;
    forall id: Id
      ensures Expired(cut, id, later) <==> Expired(st, id, later) && id in cut.records
      ensures PastGrace(cut, id, later, laterHorizon) <==> PastGrace(st, id, later, laterHorizon) && id in cut.records
      ensures id in st.records && id !in cut.records ==> PastGrace(st, id, later, laterHorizon)
      ensures id in st.ciphertext && id !in cut.ciphertext ==> Expired(st, id, later)
      ensures id in st.markers && id !in cut.markers ==> PastGrace(st, id, later, laterHorizon)
    {
      LaterDue(st, id, now, horizon, later, laterHorizon);
    }
  }

  /**
   * Crash convergence: cut a sweep at `now` after any number of store operations, then sweep fully at `later`.
   * Records and ciphertext are what one full sweep at `later` leaves, and so are the markers, except at most one
   * marker whose record is gone.
   */
  lemma CrashConverges(st: Store, ids: seq<Id>, now: Text, horizon: Text, k: nat, later: Text, laterHorizon: Text)
    requires Lists(st, ids) && CiphertextHasRecord(st)
    requires k <= |Plan(st, ids, now, horizon)|
    requires AtMost(now, later) && AtMost(horizon, laterHorizon)
    ensures var cut := ApplyAll(st, Plan(st, ids, now, horizon)[..k]);
      var resumed, full := Swept(cut, later, laterHorizon), Swept(st, later, laterHorizon);
      && CiphertextHasRecord(cut)
      && resumed.records == full.records && resumed.ciphertext == full.ciphertext
      && full.markers <= resumed.markers && |resumed.markers - full.markers| <= 1
      && (forall id :: id in resumed.markers - full.markers ==> id !in resumed.records)
  {
    var cut := ApplyAll(st, Plan(st, ids, now, horizon)[..k]);
    var orphan := CutAnywhere(st, ids, now, horizon, k);
    ResumeConverges(st, cut, now, horizon, orphan, later, laterHorizon);
    var extra := Swept(cut, later, laterHorizon).markers - Swept(st, later, laterHorizon).markers;
    assert extra <= (if orphan.Some? then {orphan.value} else {});
    if orphan.Some? { SmallSet(extra, orphan.value); }
  }

  lemma SmallSet(s: set<Id>, id: Id)
    requires s <= {id}
    ensures |s| <= 1
  {
    if id in s { assert s == {id}; } else { assert s == {}; }
  }

  /** The same, for sweeps whose horizons are computed from their own `now`, the second not before the first. */
  lemma CrashConvergesOnTheClock(st: Store, ids: seq<Id>, grace: nat, now: Text, k: nat, later: Text)
    requires Lists(st, ids) && CiphertextHasRecord(st)
    requires IsInstant(now) && IsInstant(later) && AtMost(now, later)
    requires CanonicalMinusMinutes(now, grace).Ok? && CanonicalMinusMinutes(later, grace).Ok?
    requires k <= |Plan(st, ids, now, CanonicalMinusMinutes(now, grace).value)|
    ensures var horizon, laterHorizon := CanonicalMinusMinutes(now, grace).value, CanonicalMinusMinutes(later, grace).value;
      var cut := ApplyAll(st, Plan(st, ids, now, horizon)[..k]);
      var resumed, full := Swept(cut, later, laterHorizon), Swept(st, later, laterHorizon);
      && CiphertextHasRecord(cut)
      && resumed.records == full.records && resumed.ciphertext == full.ciphertext
      && full.markers <= resumed.markers && |resumed.markers - full.markers| <= 1
      && (forall id :: id in resumed.markers - full.markers ==> id !in resumed.records)
  {
    var horizon, laterHorizon := CanonicalMinusMinutes(now, grace).value, CanonicalMinusMinutes(later, grace).value;
    HorizonMonotone(now, later, grace, horizon, laterHorizon);
    CrashConverges(st, ids, now, horizon, k, later, laterHorizon);
  }

  // ---------------------------------------------------------------- a full sweep

  function CiphertextDue(st: Store, now: Text): set<Id> {
    set id | id in st.ciphertext && Expired(st, id, now)
  }

  function RecordsDue(st: Store, now: Text, horizon: Text): set<Id> {
    set id | id in st.records && PastGrace(st, id, now, horizon)
  }

  /** Records a sweep reads and keeps; one it cannot read is counted nowhere. */
  function Kept(st: Store, now: Text, horizon: Text): set<Id> {
    set id | id in st.records && SafeLookupId(id) && st.records[id].Parsed? && !PastGrace(st, id, now, horizon)
  }

  /** After a failure-free sweep nothing due is left, and a second one at the same time changes and drops nothing. */
  lemma SweptIsSettled(st: Store, now: Text, horizon: Text)
    ensures var s1 := Swept(st, now, horizon);
      && CiphertextDue(s1, now) == {} && RecordsDue(s1, now, horizon) == {}
      && Swept(s1, now, horizon) == s1 && Kept(s1, now, horizon) == Kept(st, now, horizon)
      && Eroded(st, s1, now, horizon)
  {
    hide Less, SafeLookupId;
    var s1 := Swept(st, now, horizon);
    assert forall id :: Expired(s1, id, now) ==> Expired(st, id, now) && id in s1.records;
    assert Swept(s1, now, horizon) == s1;
  }

  // ---------------------------------------------------------------- the retention rule on the clock

  /** A record a sweep can read, with an expiry that names an instant. */
  predicate Readable(st: Store, id: Id) {
    SafeLookupId(id) && id in st.records && st.records[id].Parsed? && IsInstant(st.records[id].record.expiresAt)
  }

  /**
   * At least `minutes` have passed since the record expired. One instant written in two ways is left out: an expiry
   * at 00:00:00 seen by a sweep whose own clock says 24:00:00 of the day before.
   */
  predicate Lapsed(st: Store, id: Id, now: Text, minutes: int)
    requires Readable(st, id) && IsInstant(now)
  {
    var e, t := Parse(st.records[id].record.expiresAt), Parse(now);
    && e.Epoch() + 60 * minutes <= t.Epoch()
    && !(e.Epoch() == t.Epoch() && e.hour != 24 && t.hour == 24)
  }

  lemma ReadableIsRuled(st: Store, id: Id, now: Text, grace: int, horizon: Text)
    requires Readable(st, id) && CanonicalMinusMinutes(now, grace) == Ok(horizon)
    ensures IsInstant(now) && 0 <= grace
    ensures Expired(st, id, now) <==> Lapsed(st, id, now, 0)
    ensures PastGrace(st, id, now, horizon) <==> Lapsed(st, id, now, grace)
  {
    hide CanonicalMinusMinutes, Less, SafeLookupId;
    ShiftIsExact(now, grace);
    StringsCompareInstants(now, st.records[id].record.expiresAt);
    PastGraceMeansElapsed(st.records[id].record.expiresAt, now, grace, horizon);
  }

  /** What a sweep may not do, whatever throws: nothing goes before its time, and what it cannot read stays. */
  ghost predicate NothingEarly(st: Store, cut: Store, now: Text, grace: int)
    requires IsInstant(now)
  {
    && (forall id :: Readable(st, id) ==>
          && (id !in cut.records ==> Lapsed(st, id, now, grace))
          && (id in st.ciphertext && id !in cut.ciphertext ==> Lapsed(st, id, now, 0))
          && (id in st.markers && id !in cut.markers ==> Lapsed(st, id, now, grace)))
    && SparesUnread(st, cut)
  }

  /** What cannot be read, and what has no record, stays as it is. */
  ghost predicate SparesUnread(st: Store, cut: Store) {
    forall id :: id !in st.records || st.records[id].Corrupt? || !SafeLookupId(id) ==>
      && (id in st.records ==> id in cut.records)
      && (id in st.ciphertext ==> id in cut.ciphertext)
      && (id in st.markers ==> id in cut.markers)
  }

  lemma ErodedSparesUnread(st: Store, cut: Store, now: Text, horizon: Text)
    requires Eroded(st, cut, now, horizon)
    ensures SparesUnread(st, cut)
  {
    hide Less, SafeLookupId;
  }

  /** What a sweep without faults does besides: everything whose time has come is gone, and it counts it. */
  ghost predicate NothingLate(st: Store, cut: Store, now: Text, grace: int)
    requires IsInstant(now)
  {
    forall id :: Readable(st, id) ==>
      && (Lapsed(st, id, now, grace) ==> id !in cut.records && id !in cut.markers)
      && (Lapsed(st, id, now, 0) ==> id !in cut.ciphertext)
  }

  lemma ErodedIsNeverEarly(st: Store, cut: Store, now: Text, grace: int, horizon: Text)
    requires Eroded(st, cut, now, horizon) && CanonicalMinusMinutes(now, grace) == Ok(horizon)
    ensures IsInstant(now) && NothingEarly(st, cut, now, grace)
  {
    hide CanonicalMinusMinutes, Less, SafeLookupId, Lapsed, SparesUnread, Expired, PastGrace;
    ShiftIsExact(now, grace);
    ErodedSparesUnread(st, cut, now, horizon);
    forall id | Readable(st, id)
      ensures (id !in cut.records ==> Lapsed(st, id, now, grace))
        && (id in st.ciphertext && id !in cut.ciphertext ==> Lapsed(st, id, now, 0))
        && (id in st.markers && id !in cut.markers ==> Lapsed(st, id, now, grace))
    {
      ReadableIsRuled(st, id, now, grace, horizon);
    }
  }

  lemma SweptIsNeverLate(st: Store, now: Text, grace: int, horizon: Text)
    requires CanonicalMinusMinutes(now, grace) == Ok(horizon)
    ensures IsInstant(now) && NothingLate(st, Swept(st, now, horizon), now, grace)
  {
    hide CanonicalMinusMinutes, Less, SafeLookupId, Lapsed;
    ShiftIsExact(now, grace);
    forall id | Readable(st, id)
      ensures (Lapsed(st, id, now, grace) ==> id !in Swept(st, now, horizon).records && id !in Swept(st, now, horizon).markers)
        && (Lapsed(st, id, now, 0) ==> id !in Swept(st, now, horizon).ciphertext)
    {
      ReadableIsRuled(st, id, now, grace, horizon);
    }
  }

  /** Which records each of the three counts counts. */
  lemma CountsAreByTheClock(st: Store, now: Text, grace: int, horizon: Text, id: Id)
    requires Readable(st, id) && CanonicalMinusMinutes(now, grace) == Ok(horizon)
    ensures IsInstant(now)
    ensures id in CiphertextDue(st, now) <==> id in st.ciphertext && Lapsed(st, id, now, 0)
    ensures id in RecordsDue(st, now, horizon) <==> Lapsed(st, id, now, grace)
    ensures id in Kept(st, now, horizon) <==> !Lapsed(st, id, now, grace)
  {
    hide CanonicalMinusMinutes, Less, SafeLookupId, Lapsed, Expired, PastGrace;
    ReadableIsRuled(st, id, now, grace, horizon);
  }

  datatype Counts = Counts(ciphertextDropped: nat, recordsDropped: nat, recordsRetained: nat)

  /** What one record adds to the report when nothing throws. */
  function CountOne(st: Store, id: Id, now: Text, horizon: Text, c: Counts): Counts {
    if !SafeLookupId(id) || id !in st.records || st.records[id].Corrupt? then c
    else
      var c1 := if Expired(st, id, now) && id in st.ciphertext then c.(ciphertextDropped := c.ciphertextDropped + 1) else c;
      if PastGrace(st, id, now, horizon) then c1.(recordsDropped := c1.recordsDropped + 1)
      else c1.(recordsRetained := c1.recordsRetained + 1)
  }

  function CountAll(st: Store, ids: seq<Id>, now: Text, horizon: Text): Counts {
    if ids == [] then Counts(0, 0, 0)
    else CountOne(st, ids[|ids| - 1], now, horizon, CountAll(st, ids[..|ids| - 1], now, horizon))
  }

  lemma AddOne(s: set<Id>, t: set<Id>, id: Id)
    requires id !in s && t == s + {id}
    ensures |t| == |s| + 1
  {}

  lemma CountOneIs(st: Store, id: Id, now: Text, horizon: Text, c: Counts)
    requires id in st.records
    ensures CountOne(st, id, now, horizon, c) == Counts(
      c.ciphertextDropped + (if id in CiphertextDue(st, now) then 1 else 0),
      c.recordsDropped + (if id in RecordsDue(st, now, horizon) then 1 else 0),
      c.recordsRetained + (if id in Kept(st, now, horizon) then 1 else 0))
  {
    hide Less, SafeLookupId;
  }

  /** Counting record by record gives the sizes of the three sets. */
  lemma {:induction false} CountsAreSizes(st: Store, ids: seq<Id>, now: Text, horizon: Text)
    requires forall i, j :: 0 <= i < j < |ids| ==> ids[i] != ids[j]
    requires forall id :: id in ids ==> id in st.records
    ensures CountAll(st, ids, now, horizon) == Counts(
      |CiphertextDue(st, now) * Elements(ids)|, |RecordsDue(st, now, horizon) * Elements(ids)|,
      |Kept(st, now, horizon) * Elements(ids)|)
  {
    hide CountOne, CiphertextDue, RecordsDue, Kept;
    if ids == [] {
      assert Elements(ids) == {};
    } else {
      var before, id := ids[..|ids| - 1], ids[|ids| - 1];
      CountsAreSizes(st, before, now, horizon);
      CountOneIs(st, id, now, horizon, CountAll(st, before, now, horizon));
      SizeGrows(CiphertextDue(st, now), before, ids);
      SizeGrows(RecordsDue(st, now, horizon), before, ids);
      SizeGrows(Kept(st, now, horizon), before, ids);
    }
  }

  lemma SizeGrows(s: set<Id>, before: seq<Id>, ids: seq<Id>)
    requires ids != [] && before == ids[..|ids| - 1] && ids[|ids| - 1] !in before
    ensures |s * Elements(ids)| == |s * Elements(before)| + if ids[|ids| - 1] in s then 1 else 0
  {
    var id := ids[|ids| - 1];
    assert Elements(ids) == Elements(before) + {id};
    if id in s {
      AddOne(s * Elements(before), s * Elements(ids), id);
    } else {
      assert s * Elements(ids) == s * Elements(before);
    }
  }

  lemma FullCount(st: Store, ids: seq<Id>, now: Text, horizon: Text)
    requires Lists(st, ids)
    ensures CountAll(st, ids, now, horizon)
         == Counts(|CiphertextDue(st, now)|, |RecordsDue(st, now, horizon)|, |Kept(st, now, horizon)|)
  {
    CountsAreSizes(st, ids, now, horizon);
    assert CiphertextDue(st, now) * Elements(ids) == CiphertextDue(st, now);
    assert RecordsDue(st, now, horizon) * Elements(ids) == RecordsDue(st, now, horizon);
    assert Kept(st, now, horizon) * Elements(ids) == Kept(st, now, horizon);
  }

  /** An id not yet swept looks as it did at the start. */
  lemma NotYetSwept(st: Store, done: set<Id>, id: Id, now: Text, horizon: Text, c: Counts)
    requires id !in done
    ensures PlanOne(Partly(st, done, now, horizon), id, now, horizon) == PlanOne(st, id, now, horizon)
    ensures CountOne(Partly(st, done, now, horizon), id, now, horizon, c) == CountOne(st, id, now, horizon, c)
  {
    hide Less, SafeLookupId;
  }

  /** One more id of the listing. */
  lemma NextSwept(st: Store, ids: seq<Id>, k: nat, now: Text, horizon: Text)
    requires Lists(st, ids) && k < |ids|
    ensures var p := Partly(st, Elements(ids[..k]), now, horizon);
      && ApplyAll(p, PlanOne(p, ids[k], now, horizon)) == Partly(st, Elements(ids[..k + 1]), now, horizon)
      && Plan(st, ids[..k + 1], now, horizon) == Plan(st, ids[..k], now, horizon) + PlanOne(p, ids[k], now, horizon)
      && CountAll(st, ids[..k + 1], now, horizon)
           == CountOne(p, ids[k], now, horizon, CountAll(st, ids[..k], now, horizon))
  {
    hide Partly, PlanOne, CountOne, ApplyAll;
    var done := Elements(ids[..k]);
    assert ids[k] !in done;
    assert ids[..k + 1][..k] == ids[..k];
    assert Elements(ids[..k + 1]) == done + {ids[k]};
    NotYetSwept(st, done, ids[k], now, horizon, CountAll(st, ids[..k], now, horizon));
    PlanOneSweeps(st, done, ids[k], now, horizon);
  }

  lemma AllSwept(st: Store, ids: seq<Id>, now: Text, horizon: Text)
    requires Lists(st, ids)
    ensures ids[..|ids|] == ids
    ensures Partly(st, Elements(ids), now, horizon) == Swept(st, now, horizon)
    ensures CountAll(st, ids, now, horizon)
         == Counts(|CiphertextDue(st, now)|, |RecordsDue(st, now, horizon)|, |Kept(st, now, horizon)|)
  {
    PlanSweeps(st, ids, now, horizon);
    PlanSweepsPrefix(st, ids, now, horizon);
    FullCount(st, ids, now, horizon);
  }

  /**
   * The two file stores and the claims directory. Every call may throw, with or without its effect;
   * `faults` counts those that did, and `log` lists the deletions that took effect.
   */
  class FileStores {
    var records: map<Id, Stored>
    var ciphertext: map<Id, string>
    var markers: set<Id>
    ghost var faults: nat
    ghost var log: seq<Op>

    ghost function View(): Store reads this {
      Store(records, ciphertext, markers)
    }

    method ListRecordIds() returns (r: Result<seq<Id>, string>)
      modifies this`faults
      ensures r.Ok? ==> Lists(View(), r.value)
      ensures faults >= old(faults) && (faults == old(faults) ==> r.Ok?)
    {
      var ids: seq<Id> := [];
      var rest := records.Keys;
      while rest != {}
        invariant rest <= records.Keys
        invariant forall id :: id in ids <==> id in records && id !in rest
        invariant forall i, j :: 0 <= i < j < |ids| ==> ids[i] != ids[j]
        decreases rest
      {
        var id :| id in rest;
        ids := ids + [id];
        rest := rest - {id};
      }
      var fails: bool := *;
      if fails {
        faults := faults + 1;
        return Err("list");
      }
      return Ok(ids);
    }

    method GetRecord(id: Id) returns (r: Result<Option<Record>, string>)
      modifies this`faults
      ensures r.Ok? ==> SafeLookupId(id)
                        && r.value == if id in records && records[id].Parsed? then Some(records[id].record) else None
      ensures r.Ok? && id in records ==> records[id].Parsed?
      ensures faults >= old(faults)
      ensures faults == old(faults) ==> (r.Err? <==> !SafeLookupId(id) || (id in records && records[id].Corrupt?))
    {
      var fails: bool := *;
      if fails {
        faults := faults + 1;
        return Err("read");
      }
      if !SafeLookupId(id) { return Err("lookupId"); }
      if id !in records { return Ok(None); }
      match records[id]
      case Corrupt => return Err("JSON");
      case Parsed(record) => return Ok(Some(record));
    }

    method GetCiphertext(id: Id) returns (r: Result<Option<string>, string>)
      requires SafeLookupId(id)
      modifies this`faults
      ensures r.Ok? ==> r.value == if id in ciphertext then Some(ciphertext[id]) else None
      ensures faults >= old(faults) && (faults == old(faults) ==> r.Ok?)
    {
      var fails: bool := *;
      if fails {
        faults := faults + 1;
        return Err("read");
      }
      r := Ok(if id in ciphertext then Some(ciphertext[id]) else None);
    }

    /** One deletion; a throwing call may have deleted or not. */
    method Delete(op: Op) returns (ok: bool)
      modifies this
      ensures View() == Apply(old(View()), op) || (View() == old(View()) && !ok)
      ensures faults == old(faults) ==> ok && log == old(log) + [op]
      ensures faults >= old(faults) && (!ok ==> faults > old(faults))
    {
      var happens: bool := *;
      var fails: bool := *;
      ok := true;
      if fails {
        faults := faults + 1;
        ok := false;
        if !happens { return; }
      }
      log := log + [op];
      match op
      case DeleteCiphertext(id) => ciphertext := ciphertext - {id};
      case DeleteRecord(id) => records := records - {id};
      case DeleteMarker(id) => markers := markers - {id};
    }

    /** The `try` block of the loop for one id; a throw leaves the counts as far as they got. */
    method SweepRecord(id: Id, now: Text, horizon: Text, counts: Counts) returns (c: Counts)
      modifies this
      ensures Eroded(old(View()), View(), now, horizon)
      ensures faults >= old(faults)
      ensures faults == old(faults) ==>
                && View() == ApplyAll(old(View()), PlanOne(old(View()), id, now, horizon))
                && log == old(log) + PlanOne(old(View()), id, now, horizon)
                && c == CountOne(old(View()), id, now, horizon, counts)
    {
      hide Less, Eroded, ApplyAll;
      ghost var st := View();
      ApplyFew(st, DeleteCiphertext(id), DeleteRecord(id), DeleteMarker(id));
      ApplyFew(st, DeleteRecord(id), DeleteMarker(id), DeleteMarker(id));
      ErodedAtFirst(st, now, horizon);
      c := counts;
      if !SafeLookupId(id) { return; }
      var got := GetRecord(id);
      if got.Err? || got.value.None? { return; }
      var record := got.value.value;
      var expired := !Less(now, record.expiresAt);
      if !expired {
        c := c.(recordsRetained := c.recordsRetained + 1);
        return;
      }
      var probe := GetCiphertext(id);
      if probe.Err? { return; }
      if probe.value.Some? {
        ErodeStep(st, View(), DeleteCiphertext(id), now, horizon);
        var erased := Delete(DeleteCiphertext(id));
        if !erased { return; }
        c := c.(ciphertextDropped := c.ciphertextDropped + 1);
      }
      var pastGrace := !Less(horizon, record.expiresAt);
      if pastGrace {
        ErodeStep(st, View(), DeleteRecord(id), now, horizon);
        var dropped := Delete(DeleteRecord(id));
        if !dropped { return; }
        ErodeStep(st, View(), DeleteMarker(id), now, horizon);
        var retired := Delete(DeleteMarker(id));
        if !retired { return; }
        c := c.(recordsDropped := c.recordsDropped + 1);
      } else {
        c := c.(recordsRetained := c.recordsRetained + 1);
      }
    }

    /**
     * One sweep. A clock reading that does not give a horizon, or a store that cannot enumerate, rejects
     * before anything is touched. Otherwise every erasure was due and came in its turn, whatever threw; and
     * when nothing threw the store is exactly `Swept`, by exactly the planned deletions, and the report is
     * the three set sizes.
     */
    method SweepOnce(graceWindowMinutes: int, now: Text) returns (r: Result<Counts, string>, ghost ids: seq<Id>)
      modifies this
      ensures r.Err? ==> View() == old(View()) && log == old(log)
      ensures faults == old(faults) ==> (r.Ok? <==> CanonicalMinusMinutes(now, graceWindowMinutes).Ok?)
      ensures r.Ok? ==> CanonicalMinusMinutes(now, graceWindowMinutes).Ok? && Lists(old(View()), ids)
      ensures r.Ok? ==> IsInstant(now) && NothingEarly(old(View()), View(), now, graceWindowMinutes)
      ensures r.Ok? && faults == old(faults) ==> NothingLate(old(View()), View(), now, graceWindowMinutes)
      ensures r.Ok? ==>
                var horizon := CanonicalMinusMinutes(now, graceWindowMinutes).value;
                && Eroded(old(View()), View(), now, horizon)
                && (faults == old(faults) ==>
                      && View() == Swept(old(View()), now, horizon)
                      && log == old(log) + Plan(old(View()), ids, now, horizon)
                      && r.value == Counts(|CiphertextDue(old(View()), now)|, |RecordsDue(old(View()), now, horizon)|,
                                           |Kept(old(View()), now, horizon)|))
    {
      hide CanonicalMinusMinutes, Lists, Elements, Eroded, CiphertextDue, RecordsDue, Kept, Swept, ApplyAll, Plan, PlanOne,
        CountAll, CountOne, Partly, NothingEarly, NothingLate, IsInstant;
      ids := [];
      var shifted := CanonicalMinusMinutes(now, graceWindowMinutes);
      if shifted.Err? { return Err(shifted.error), []; }
      var horizon := shifted.value;
      var listed := ListRecordIds();
      if listed.Err? { return Err(listed.error), []; }
      var list := listed.value;
      ids := list;
      ghost var st := View();
      var counts := Counts(0, 0, 0);
      StartPartly(st, now, horizon);
      for k := 0 to |list|
        invariant faults >= old(faults) && Eroded(st, View(), now, horizon)
        invariant faults == old(faults) ==>
                    && View() == Partly(st, Elements(ids[..k]), now, horizon)
                    && log == old(log) + Plan(st, ids[..k], now, horizon)
                    && counts == CountAll(st, ids[..k], now, horizon)
      {
        ghost var before := View();
        NextSwept(st, ids, k, now, horizon);
        counts := SweepRecord(list[k], now, horizon, counts);
        ErodedTransitive(st, before, View(), now, horizon);
      }
      AllSwept(st, ids, now, horizon);
      ErodedIsNeverEarly(st, View(), now, graceWindowMinutes, horizon);
      SweptIsNeverLate(st, now, graceWindowMinutes, horizon);
      r := Ok(counts);
    }
  }
}
