/**
 * Claims and sweeps of the rendezvous service in every interleaving
 * (packages/bootstrap-rendezvous-service/src/claim.ts and sweeper.ts).
 *
 * Each file-system call is one step, and any number of claimants and sweeps run at once; each may crash
 * between two calls, and a call may throw with or without its effect. Records are minted before the run
 * and never re-created.
 */
module Lifecycle {
  import opened Common
  import opened CanonicalTime
  import opened CodeUnits
  import opened Claim
  import Sweep

  type Id = string

  datatype ClaimOutcome = ReturnTrue | ReturnFalse | Throw

  datatype ClaimPhase =
    | Creating                              // 111, before the temp file exists
    | Writing
    | Linking                               // 113
    | Unlinking(outcome: ClaimOutcome)      // 120
    | Returned(outcome: ClaimOutcome)
    | UnlinkThrew
    | Crashed
  {
    predicate Running() { !Returned? && !UnlinkThrew? && !Crashed? }
  }

  /** One call of claimSingleUse; `linked` once its link(2) has published the marker. */
  datatype Claimant = Claimant(id: Id, phase: ClaimPhase, linked: bool)

  datatype SweepPhase =
    | Reading                                       // 201
    | Probing(record: Sweep.Record)                 // 226
    | Erasing(record: Sweep.Record)                 // 232
    | Judging(record: Sweep.Record)                 // 239
    | Dropping                                      // 241
    | Retiring                                      // 249
    | Over

  /** One id of one sweep: overlapping sweeps are any number of these. */
  datatype Visit = Visit(id: Id, now: Text, horizon: Text, phase: SweepPhase)

  datatype State = State(
    grace: nat,                            // graceWindowMinutes
    minted: map<Id, Sweep.Stored>,         // every record there ever was
    sealed: set<Id>,                       // every ciphertext there ever was
    records: map<Id, Sweep.Stored>,
    ciphertext: set<Id>,
    served: set<Id>,                       // ids whose ciphertext a redemption erased
    entries: map<Name, nat>,               // directory: name to inode
    bodies: map<nat, Body>,                // inode to content; inode k belongs to claimant k
    claimants: map<nat, Claimant>,
    visits: map<nat, Visit>,
    retired: map<Id, nat>,                 // how many markers of an id sweeps have unlinked
    clock: Text)

  datatype ClaimAct =
    | Begin(id: Id)
    | CreateTemp | CreateFails
    | WriteBody | WriteFails(effect: bool)           // a failing call throws, with or without its effect
    | Link | LinkFails(effect: bool)
    | UnlinkTemp | UnlinkFails(effect: bool)
    | CrashClaim

  datatype VisitAct =
    | Start(id: Id)
    | Read
    | Probe
    | EraseCiphertext
    | Judge
    | DropRecord
    | RetireMarker
    | ThrowOrCrash(effect: bool)                     // the pending call throws, or the process dies around it

  datatype Action =
    | Tick(clock: Text)
    | Serve(id: Id)                                  // redemption erases the ciphertext it serves
    | OfClaim(c: nat, claim: ClaimAct)
    | OfVisit(v: nat, visit: VisitAct)

  function TempOf(s: State, c: nat): Name
    requires c in s.claimants
  {
    Temp(s.claimants[c].id, c)
  }

  predicate ClaimEnabled(s: State, c: nat, a: ClaimAct) {
    match a
    case Begin(id) => c !in s.claimants && c !in s.bodies && SafeLookupId(id)
    case CreateTemp => c in s.claimants && s.claimants[c].phase.Creating?
    case CreateFails => c in s.claimants && s.claimants[c].phase.Creating?
    case WriteBody => c in s.claimants && s.claimants[c].phase.Writing?
    case WriteFails(_) => c in s.claimants && s.claimants[c].phase.Writing?
    case Link => c in s.claimants && s.claimants[c].phase.Linking?
    case LinkFails(_) => c in s.claimants && s.claimants[c].phase.Linking?
    case UnlinkTemp => c in s.claimants && s.claimants[c].phase.Unlinking?
    case UnlinkFails(_) => c in s.claimants && s.claimants[c].phase.Unlinking?
    case CrashClaim => c in s.claimants && s.claimants[c].phase.Running()
  }

  predicate VisitEnabled(s: State, v: nat, a: VisitAct) {
    match a
    case Start(id) => v !in s.visits && SafeLookupId(id) && CanonicalMinusMinutes(s.clock, s.grace).Ok?
    case Read => v in s.visits && s.visits[v].phase.Reading?
    case Probe => v in s.visits && s.visits[v].phase.Probing?
    case EraseCiphertext => v in s.visits && s.visits[v].phase.Erasing?
    case Judge => v in s.visits && s.visits[v].phase.Judging?
    case DropRecord => v in s.visits && s.visits[v].phase.Dropping?
    case RetireMarker => v in s.visits && s.visits[v].phase.Retiring?
    case ThrowOrCrash(_) => v in s.visits && !s.visits[v].phase.Over?
  }

  predicate Enabled(s: State, a: Action) {
    match a
    case Tick(clock) => IsReal(clock) && AtMost(s.clock, clock)
    case Serve(id) => true
    case OfClaim(c, claim) => ClaimEnabled(s, c, claim)
    case OfVisit(v, visit) => VisitEnabled(s, v, visit)
  }

  function ClaimTo(s: State, c: nat, p: ClaimPhase): State
    requires c in s.claimants
  {
    s.(claimants := s.claimants[c := s.claimants[c].(phase := p)])
  }

  /** The call publishes the marker. */
  predicate Publishes(s: State, c: nat, a: ClaimAct) {
    && (a.Link? || (a.LinkFails? && a.effect)) && c in s.claimants
    && Marker(s.claimants[c].id) !in s.entries && TempOf(s, c) in s.entries
  }

  /** What the file-system call of a claimant does to the directory. */
  function EntriesAfter(s: State, c: nat, a: ClaimAct): map<Name, nat>
    requires c in s.claimants
  {
    if a.CreateTemp? then s.entries[TempOf(s, c) := c]
    else if Publishes(s, c, a) then s.entries[Marker(s.claimants[c].id) := s.entries[TempOf(s, c)]]
    else if a.UnlinkTemp? || (a.UnlinkFails? && a.effect) then s.entries - {TempOf(s, c)}
    else s.entries
  }

  function BodiesAfter(s: State, c: nat, a: ClaimAct): map<nat, Body>
    requires c in s.claimants
  {
    if a.CreateTemp? then s.bodies[c := Partial]
    else if a.WriteBody? || (a.WriteFails? && a.effect) then s.bodies[c := Complete(s.claimants[c].id)]
    else s.bodies
  }

  function CallEffect(s: State, c: nat, a: ClaimAct): State
    requires c in s.claimants
  {
    var k := s.claimants[c];
    s.(entries := EntriesAfter(s, c, a), bodies := BodiesAfter(s, c, a),
       claimants := s.claimants[c := k.(linked := k.linked || Publishes(s, c, a))])
  }

  /** Where the claimant goes on from there. */
  function Onwards(s: State, c: nat, a: ClaimAct): ClaimPhase
    requires ClaimEnabled(s, c, a) && !a.Begin?
  {
    match a
    case CreateTemp => Writing
    case CreateFails => Unlinking(Throw)
    case WriteBody => Linking
    case WriteFails(_) => Unlinking(Throw)
    case Link =>
      Unlinking(if Marker(s.claimants[c].id) in s.entries then ReturnFalse
                else if TempOf(s, c) in s.entries then ReturnTrue else Throw)
    case LinkFails(_) => Unlinking(Throw)
    case UnlinkTemp => Returned(s.claimants[c].phase.outcome)
    case UnlinkFails(_) => UnlinkThrew
    case CrashClaim => Crashed
  }

  function ClaimStep(s: State, c: nat, a: ClaimAct): State
    requires ClaimEnabled(s, c, a)
  {
    if a.Begin? then s.(claimants := s.claimants[c := Claimant(a.id, Creating, false)])
    else ClaimTo(CallEffect(s, c, a), c, Onwards(s, c, a))
  }

  function VisitTo(s: State, v: nat, p: SweepPhase): State
    requires v in s.visits
  {
    s.(visits := s.visits[v := s.visits[v].(phase := p)])
  }

  function Retired(s: State, id: Id): nat {
    if id in s.retired then s.retired[id] else 0
  }

  /** The store call a visit is about to make takes effect. */
  function Effect(s: State, w: Visit): State {
    var retires := w.phase.Retiring? && Marker(w.id) in s.entries;
    s.(ciphertext := if w.phase.Erasing? then s.ciphertext - {w.id} else s.ciphertext,
       records := if w.phase.Dropping? then s.records - {w.id} else s.records,
       entries := if retires then s.entries - {Marker(w.id)} else s.entries,
       retired := if retires then s.retired[w.id := Retired(s, w.id) + 1] else s.retired)
  }

  function VisitStep(s: State, v: nat, a: VisitAct): State
    requires VisitEnabled(s, v, a)
  {
    if a.Start? then
      s.(visits := s.visits[v := Visit(a.id, s.clock, CanonicalMinusMinutes(s.clock, s.grace).value, Reading)])
    else
      var w := s.visits[v];
      match a
      case Read =>
        VisitTo(s, v, if w.id in s.records && s.records[w.id].Parsed? && AtMost(s.records[w.id].record.expiresAt, w.now)
                      then Probing(s.records[w.id].record) else Over)
      case Probe => VisitTo(s, v, if w.id in s.ciphertext then Erasing(w.phase.record) else Judging(w.phase.record))
      case EraseCiphertext => VisitTo(Effect(s, w), v, Judging(w.phase.record))
      case Judge => VisitTo(s, v, if AtMost(w.phase.record.expiresAt, w.horizon) then Dropping else Over)
      case DropRecord => VisitTo(Effect(s, w), v, Retiring)
      case RetireMarker => VisitTo(Effect(s, w), v, Over)
      case ThrowOrCrash(effect) => VisitTo(if effect then Effect(s, w) else s, v, Over)
  }

  function Step(s: State, a: Action): State
    requires Enabled(s, a)
  {
    match a
    case Tick(clock) => s.(clock := clock)
    case Serve(id) => s.(ciphertext := s.ciphertext - {id}, served := s.served + {id})
    case OfClaim(c, claim) => ClaimStep(s, c, claim)
    case OfVisit(v, visit) => VisitStep(s, v, visit)
  }

  // ---------------------------------------------------------------- the invariant

  /** The claimants of `id` whose link(2) published the marker. */
  function Winners(s: State, id: Id): set<nat> {
    set c | c in s.claimants && s.claimants[c].id == id && s.claimants[c].linked
  }

  ghost predicate ClaimantOk(s: State, c: nat)
    requires c in s.claimants
  {
    var k := s.claimants[c];
    && (k.phase.Creating? ==> TempOf(s, c) !in s.entries && c !in s.bodies)
    && (k.phase.Writing? || k.phase.Linking? ==> TempOf(s, c) in s.entries && c in s.bodies)
    && (k.phase.Linking? ==> s.bodies[c] == Complete(k.id))
    && (k.phase.Creating? || k.phase.Writing? || k.phase.Linking? ==> !k.linked)
    && (k.linked ==> c in s.bodies && s.bodies[c] == Complete(k.id))
    && (k.phase.Unlinking? && k.phase.outcome == ReturnTrue ==> k.linked)
    && (k.phase.Returned? && k.phase.outcome == ReturnTrue ==> k.linked)
    && (k.phase.Unlinking? && k.phase.outcome == ReturnFalse ==> !k.linked)
    && (k.phase.Returned? && k.phase.outcome == ReturnFalse ==> !k.linked)
    && (k.phase.Returned? ==> TempOf(s, c) !in s.entries)
  }

  /** Every name in the directory leads to the inode of the claimant it came from. */
  ghost predicate EntryOk(s: State, n: Name)
    requires n in s.entries
  {
    var c := s.entries[n];
    && c in s.claimants && s.claimants[c].id == n.id
    && (n.Temp? ==> n.owner == c)
    && (n.Marker? ==> s.claimants[c].linked)
  }

  ghost predicate VisitOk(s: State, v: nat)
    requires v in s.visits
  {
    var w := s.visits[v];
    && IsReal(w.now) && AtMost(w.now, s.clock) && CanonicalMinusMinutes(w.now, s.grace) == Ok(w.horizon)
    && (w.phase.Probing? || w.phase.Erasing? || w.phase.Judging? ==>
          ExpiredBy(s, w.id, w.now) && s.minted[w.id] == Sweep.Parsed(w.phase.record))
    && (w.phase.Judging? || w.phase.Dropping? || w.phase.Retiring? ==> w.id !in s.ciphertext)
    && (w.phase.Dropping? || w.phase.Retiring? ==> ExpiredBy(s, w.id, w.horizon))
    && (w.phase.Retiring? ==> w.id !in s.records)
  }

  /** The record minted for `id` had expired at `t`. */
  predicate ExpiredBy(s: State, id: Id, t: Text) {
    id in s.minted && s.minted[id].Parsed? && AtMost(s.minted[id].record.expiresAt, t)
  }

  /** Its grace window had passed as well, on the clock of this moment. */
  predicate GraceOver(s: State, id: Id) {
    CanonicalMinusMinutes(s.clock, s.grace).Ok? && ExpiredBy(s, id, CanonicalMinusMinutes(s.clock, s.grace).value)
  }

  ghost predicate IdOk(s: State, id: Id) {
    && |Winners(s, id)| == Retired(s, id) + (if Marker(id) in s.entries then 1 else 0)
    && (id in s.records ==> id in s.minted && s.minted[id] == s.records[id] && Retired(s, id) == 0)
    && (id in s.ciphertext ==> id in s.records)
    && (id in s.minted && id !in s.records ==> GraceOver(s, id))
    && (id in s.sealed && id !in s.ciphertext && id !in s.served ==> ExpiredBy(s, id, s.clock))
  }

  ghost predicate Inv(s: State) {
    && IsReal(s.clock)
    && (forall c :: c in s.claimants ==> ClaimantOk(s, c))
    && (forall n :: n in s.entries ==> EntryOk(s, n))
    && (forall v :: v in s.visits ==> VisitOk(s, v))
    && (forall id :: IdOk(s, id))
  }

  /** Where a run starts: no claim, no sweep, an empty claims directory, and ciphertext only beside its record. */
  ghost predicate Init(s: State) {
    && IsReal(s.clock) && s.records == s.minted && s.ciphertext == s.sealed && s.sealed <= s.minted.Keys
    && s.served == {} && s.entries == map[] && s.bodies == map[] && s.claimants == map[] && s.visits == map[]
    && s.retired == map[]
  }

  lemma InitInv(s: State)
    requires Init(s)
    ensures Inv(s)
  {
    forall id ensures IdOk(s, id) { assert Winners(s, id) == {}; }
  }

  // ---------------------------------------------------------------- a claimant moves

  /** All that a step of claimant `c` can touch. */
  ghost predicate ClaimTouches(s: State, s': State, c: nat) {
    && s' == s.(claimants := s'.claimants, entries := s'.entries, bodies := s'.bodies)
    && c in s'.claimants
    && (forall d :: d != c ==> (d in s'.claimants <==> d in s.claimants) && (d in s'.bodies <==> d in s.bodies))
    && (forall d :: d != c && d in s.claimants ==> s'.claimants[d] == s.claimants[d])
    && (forall d :: d != c && d in s.bodies ==> s'.bodies[d] == s.bodies[d])
    && (forall n :: n in s.entries && n in s'.entries ==> s'.entries[n] == s.entries[n] || n == TempOf(s', c))
    && (forall n :: n != TempOf(s', c) && n in s.entries ==> n in s'.entries)
    && (forall n :: n != TempOf(s', c) && n != Marker(s'.claimants[c].id) && n in s'.entries ==> n in s.entries)
    && (c in s.claimants ==> s'.claimants[c].id == s.claimants[c].id && (s.claimants[c].linked ==> s'.claimants[c].linked))
  }

  lemma CallEffectIs(s: State, c: nat, a: ClaimAct)
    requires c in s.claimants
    ensures var s' := CallEffect(s, c, a);
      && c in s'.claimants && s' == s.(claimants := s.claimants[c := s'.claimants[c]], entries := s'.entries, bodies := s'.bodies)
      && s'.claimants[c] == s.claimants[c].(linked := s.claimants[c].linked || Publishes(s, c, a))
      && (if Publishes(s, c, a) then s'.entries == s.entries[Marker(s.claimants[c].id) := s.entries[TempOf(s, c)]]
          else || s'.entries == s.entries
               || s'.entries == s.entries[TempOf(s, c) := c]
               || s'.entries == s.entries - {TempOf(s, c)})
      && (s'.bodies == s.bodies || (c in s'.bodies && s'.bodies == s.bodies[c := s'.bodies[c]]))
  {
    hide Publishes;
    if Publishes(s, c, a) { PublisherLinks(s, c, a); }
  }

  lemma PublisherLinks(s: State, c: nat, a: ClaimAct)
    requires Publishes(s, c, a)
    ensures a.Link? || a.LinkFails?
    ensures TempOf(s, c) in s.entries && Marker(s.claimants[c].id) !in s.entries
  {}

  /** A step of claimant `c` rewrites its own entry of the directory, its own inode, or publishes its marker. */
  lemma ClaimStepIs(s: State, c: nat, a: ClaimAct)
    requires ClaimEnabled(s, c, a)
    ensures var s' := ClaimStep(s, c, a);
      && c in s'.claimants && s' == s.(claimants := s.claimants[c := s'.claimants[c]], entries := s'.entries, bodies := s'.bodies)
      && (c in s.claimants ==>
            && s'.claimants[c].id == s.claimants[c].id
            && s'.claimants[c].linked == (s.claimants[c].linked || Publishes(s, c, a)))
      && (if Publishes(s, c, a) then s'.entries == s.entries[Marker(s.claimants[c].id) := s.entries[TempOf(s, c)]]
          else || s'.entries == s.entries
               || s'.entries == s.entries[TempOf(s', c) := c]
               || s'.entries == s.entries - {TempOf(s', c)})
      && (s'.bodies == s.bodies || (c in s'.bodies && s'.bodies == s.bodies[c := s'.bodies[c]]))
  {
    hide CallEffect, Onwards, SafeLookupId, Publishes;
    if a.Begin? { NotYetPublishing(s, c, a); } else { CallEffectIs(s, c, a); }
  }

  lemma NotYetPublishing(s: State, c: nat, a: ClaimAct)
    requires a.Begin?
    ensures !Publishes(s, c, a)
  {}

  lemma ClaimStepTouches(s: State, c: nat, a: ClaimAct)
    requires ClaimEnabled(s, c, a)
    ensures ClaimTouches(s, ClaimStep(s, c, a), c)
  {
    hide ClaimStep, ClaimEnabled, Publishes;
    ClaimStepIs(s, c, a);
    if Publishes(s, c, a) { PublisherExists(s, c, a); }
  }

  lemma OtherClaimant(s: State, s': State, c: nat, d: nat)
    requires ClaimTouches(s, s', c) && d != c && d in s.claimants && ClaimantOk(s, d)
    ensures ClaimantOk(s', d)
  {}

  lemma ClaimantWrites(s: State, c: nat, a: ClaimAct)
    requires ClaimEnabled(s, c, a) && (a.Begin? || a.CreateTemp? || a.CreateFails? || a.WriteBody? || a.WriteFails?)
    requires c in s.claimants ==> ClaimantOk(s, c)
    requires a.Begin? ==> Temp(a.id, c) !in s.entries
    ensures c in ClaimStep(s, c, a).claimants && ClaimantOk(ClaimStep(s, c, a), c)
  {
    hide SafeLookupId;
  }

  lemma ClaimantLinks(s: State, c: nat, a: ClaimAct)
    requires ClaimEnabled(s, c, a) && (a.Link? || a.LinkFails?) && ClaimantOk(s, c)
    requires TempOf(s, c) in s.entries ==> s.entries[TempOf(s, c)] == c
    ensures c in ClaimStep(s, c, a).claimants && ClaimantOk(ClaimStep(s, c, a), c)
  {
    hide SafeLookupId, Publishes, EntriesAfter;
    if Publishes(s, c, a) { PublisherLinks(s, c, a); }
    LinkOutcome(s, c, a);
  }

  /** Only a link that published reports success. */
  lemma LinkOutcome(s: State, c: nat, a: ClaimAct)
    requires ClaimEnabled(s, c, a) && (a.Link? || a.LinkFails?)
    ensures Onwards(s, c, a).Unlinking? && (Onwards(s, c, a).outcome == ReturnTrue ==> Publishes(s, c, a))
    ensures Onwards(s, c, a).outcome == ReturnFalse ==> !Publishes(s, c, a)
  {}

  lemma ClaimantLeaves(s: State, c: nat, a: ClaimAct)
    requires ClaimEnabled(s, c, a) && (a.UnlinkTemp? || a.UnlinkFails? || a.CrashClaim?) && ClaimantOk(s, c)
    ensures c in ClaimStep(s, c, a).claimants && ClaimantOk(ClaimStep(s, c, a), c)
  {
    hide SafeLookupId;
  }

  lemma OwnClaimant(s: State, c: nat, a: ClaimAct)
    requires ClaimEnabled(s, c, a) && (c in s.claimants ==> ClaimantOk(s, c))
    requires a.Begin? ==> Temp(a.id, c) !in s.entries
    requires c in s.claimants && TempOf(s, c) in s.entries ==> s.entries[TempOf(s, c)] == c
    ensures c in ClaimStep(s, c, a).claimants && ClaimantOk(ClaimStep(s, c, a), c)
  {
    hide ClaimStep, ClaimantOk, SafeLookupId;
    if a.Link? || a.LinkFails? {
      ClaimantLinks(s, c, a);
    } else if a.UnlinkTemp? || a.UnlinkFails? || a.CrashClaim? {
      ClaimantLeaves(s, c, a);
    } else {
      ClaimantWrites(s, c, a);
    }
  }

  lemma OtherEntry(s: State, s': State, c: nat, n: Name)
    requires ClaimTouches(s, s', c) && n in s.entries && EntryOk(s, n) && n in s'.entries && n != TempOf(s', c)
    ensures EntryOk(s', n)
  {}

  lemma OwnEntry(s: State, c: nat, a: ClaimAct, n: Name)
    requires ClaimEnabled(s, c, a) && n in ClaimStep(s, c, a).entries && c in ClaimStep(s, c, a).claimants
    requires n == TempOf(ClaimStep(s, c, a), c) || n !in s.entries
    requires forall id :: Temp(id, c) in s.entries ==> c in s.claimants && EntryOk(s, Temp(id, c))
    ensures EntryOk(ClaimStep(s, c, a), n)
  {
    hide ClaimStep, ClaimEnabled;
    ClaimStepIs(s, c, a);
  }

  lemma TempsOwned(s: State, c: nat)
    requires Inv(s)
    ensures forall id :: Temp(id, c) in s.entries ==> c in s.claimants && EntryOk(s, Temp(id, c))
  {
    forall id | Temp(id, c) in s.entries ensures c in s.claimants && EntryOk(s, Temp(id, c)) {
      assert EntryOk(s, Temp(id, c));
    }
  }

  /** A publishing claimant had published nothing before, and its temp name led to its own complete inode. */
  lemma PublishesOnce(s: State, c: nat, a: ClaimAct)
    requires ClaimEnabled(s, c, a) && Publishes(s, c, a) && ClaimantOk(s, c)
    ensures !s.claimants[c].linked
  {}

  lemma WinnersAfterClaim(s: State, c: nat, a: ClaimAct, id: Id)
    requires ClaimEnabled(s, c, a) && (c in s.claimants ==> ClaimantOk(s, c))
    ensures |Winners(ClaimStep(s, c, a), id)| == |Winners(s, id)|
        + if Publishes(s, c, a) && s.claimants[c].id == id then 1 else 0
  {
    hide ClaimStep, ClaimantOk, SafeLookupId, Publishes, ClaimEnabled;
    var s' := ClaimStep(s, c, a);
    ClaimStepIs(s, c, a);
    if c in s.claimants && Publishes(s, c, a) && s.claimants[c].id == id {
      PublishesOnce(s, c, a);
      assert Winners(s', id) == Winners(s, id) + {c};
    } else {
      if Publishes(s, c, a) { PublisherExists(s, c, a); }
      BeginsUnlinked(s, c, a);
      assert Winners(s', id) == Winners(s, id);
    }
  }

  lemma PublisherExists(s: State, c: nat, a: ClaimAct)
    requires Publishes(s, c, a)
    ensures c in s.claimants && Marker(s.claimants[c].id) !in s.entries
  {}

  lemma BeginsUnlinked(s: State, c: nat, a: ClaimAct)
    requires ClaimEnabled(s, c, a)
    ensures c !in s.claimants ==> !ClaimStep(s, c, a).claimants[c].linked
  {}

  lemma IdAfterClaim(s: State, c: nat, a: ClaimAct, id: Id)
    requires ClaimEnabled(s, c, a) && (c in s.claimants ==> ClaimantOk(s, c)) && IdOk(s, id)
    ensures IdOk(ClaimStep(s, c, a), id)
  {
    hide ClaimStep, ClaimEnabled, ClaimantOk, IsReal, Less, CanonicalMinusMinutes, Winners, Publishes;
    WinnersAfterClaim(s, c, a, id);
    ClaimStepIs(s, c, a);
    if Publishes(s, c, a) { PublisherExists(s, c, a); }
  }

  lemma VisitUntouched(s: State, s': State, v: nat)
    requires v in s.visits && VisitOk(s, v)
    requires v in s'.visits && s'.visits[v] == s.visits[v]
    requires s'.grace == s.grace && s'.minted == s.minted && s'.clock == s.clock
    requires (forall id :: id in s'.records ==> id in s.records) && s'.ciphertext <= s.ciphertext
    ensures VisitOk(s', v)
  {
    hide IsReal, Less, CanonicalMinusMinutes;
  }

  lemma ClaimKeepsInv(s: State, c: nat, a: ClaimAct)
    requires Inv(s) && ClaimEnabled(s, c, a)
    ensures Inv(ClaimStep(s, c, a))
  {
    hide ClaimantOk, EntryOk, VisitOk, IdOk, IsReal, ClaimStep, ClaimEnabled;
    var s' := ClaimStep(s, c, a);
    ClaimStepTouches(s, c, a);
    TempsOwned(s, c);
    forall d | d in s'.claimants ensures ClaimantOk(s', d) {
      if d == c { OwnClaimantIn(s, c, a); } else { OtherClaimant(s, s', c, d); }
    }
    forall n | n in s'.entries ensures EntryOk(s', n) {
      if n == TempOf(s', c) || n !in s.entries { OwnEntryIn(s, c, a, n); } else { OtherEntry(s, s', c, n); }
    }
    forall v | v in s'.visits ensures VisitOk(s', v) { VisitUntouched(s, s', v); }
    forall id ensures IdOk(s', id) { IdAfterClaim(s, c, a, id); }
  }

  lemma OwnClaimantIn(s: State, c: nat, a: ClaimAct)
    requires Inv(s) && ClaimEnabled(s, c, a)
    ensures c in ClaimStep(s, c, a).claimants && ClaimantOk(ClaimStep(s, c, a), c)
  {
    hide ClaimantOk, VisitOk, IdOk, ClaimStep, SafeLookupId;
    TempsOwned(s, c);
    OwnClaimant(s, c, a);
  }

  lemma OwnEntryIn(s: State, c: nat, a: ClaimAct, n: Name)
    requires Inv(s) && ClaimEnabled(s, c, a) && n in ClaimStep(s, c, a).entries && c in ClaimStep(s, c, a).claimants
    requires n == TempOf(ClaimStep(s, c, a), c) || n !in s.entries
    ensures EntryOk(ClaimStep(s, c, a), n)
  {
    hide ClaimantOk, VisitOk, IdOk, EntryOk, ClaimStep, SafeLookupId;
    TempsOwned(s, c);
    OwnEntry(s, c, a, n);
  }

  // ---------------------------------------------------------------- time passes

  lemma HorizonLater(now: Text, later: Text, grace: nat)
    requires IsReal(now) && IsReal(later) && AtMost(now, later) && CanonicalMinusMinutes(now, grace).Ok?
    ensures CanonicalMinusMinutes(later, grace).Ok?
    ensures AtMost(CanonicalMinusMinutes(now, grace).value, CanonicalMinusMinutes(later, grace).value)
  {
    hide CanonicalMinusMinutes, Less, DayFromYear, DaysBefore;
    ShiftIsExact(now, grace);
    ShiftOfReading(now, grace);
    ShiftOfReading(later, grace);
    StringsCompareInstants(now, later);
    HorizonMonotone(now, later, grace, CanonicalMinusMinutes(now, grace).value, CanonicalMinusMinutes(later, grace).value);
  }

  lemma ExpiredForward(s: State, id: Id, t: Text, later: Text)
    requires ExpiredBy(s, id, t) && AtMost(t, later)
    ensures ExpiredBy(s, id, later)
  {
    AtMostTransitive(s.minted[id].record.expiresAt, t, later);
  }

  lemma GraceForward(s: State, id: Id, later: Text)
    requires IsReal(s.clock) && IsReal(later) && AtMost(s.clock, later) && GraceOver(s, id)
    ensures GraceOver(s.(clock := later), id)
  {
    hide CanonicalMinusMinutes, IsReal, Less;
    HorizonLater(s.clock, later, s.grace);
    ExpiredForward(s, id, CanonicalMinusMinutes(s.clock, s.grace).value, CanonicalMinusMinutes(later, s.grace).value);
  }

  lemma TickKeepsInv(s: State, later: Text)
    requires Inv(s) && IsReal(later) && AtMost(s.clock, later)
    ensures Inv(s.(clock := later))
  {
    hide CanonicalMinusMinutes, IsReal, Less, SafeLookupId;
    var s' := s.(clock := later);
    forall c | c in s'.claimants ensures ClaimantOk(s', c) { assert ClaimantOk(s, c); }
    forall n | n in s'.entries ensures EntryOk(s', n) { assert EntryOk(s, n); }
    forall v | v in s'.visits ensures VisitOk(s', v) {
      assert VisitOk(s, v);
      AtMostTransitive(s.visits[v].now, s.clock, later);
    }
    forall id ensures IdOk(s', id) {
      assert IdOk(s, id);
      assert Winners(s', id) == Winners(s, id);
      if GraceOver(s, id) { GraceForward(s, id, later); }
      if ExpiredBy(s, id, s.clock) { ExpiredForward(s, id, s.clock, later); }
    }
  }

  lemma ServeKeepsInv(s: State, id: Id)
    requires Inv(s)
    ensures Inv(s.(ciphertext := s.ciphertext - {id}, served := s.served + {id}))
  {
    hide CanonicalMinusMinutes, IsReal, Less, SafeLookupId;
    var s' := s.(ciphertext := s.ciphertext - {id}, served := s.served + {id});
    forall c | c in s'.claimants ensures ClaimantOk(s', c) { assert ClaimantOk(s, c); }
    forall n | n in s'.entries ensures EntryOk(s', n) { assert EntryOk(s, n); }
    forall v | v in s'.visits ensures VisitOk(s', v) { VisitUntouched(s, s', v); }
    forall j ensures IdOk(s', j) {
      assert IdOk(s, j);
      assert Winners(s', j) == Winners(s, j);
    }
  }

  // ---------------------------------------------------------------- a sweep moves

  /** All that a step of visit `v` can touch. */
  ghost predicate VisitTouches(s: State, s': State, v: nat) {
    && s' == s.(visits := s'.visits, records := s'.records, ciphertext := s'.ciphertext, entries := s'.entries, retired := s'.retired)
    && v in s'.visits
    && (forall u :: u != v ==> (u in s'.visits <==> u in s.visits))
    && (forall u :: u != v && u in s.visits ==> s'.visits[u] == s.visits[u])
    && (forall id :: id in s'.records ==> id in s.records && s'.records[id] == s.records[id])
    && s'.ciphertext <= s.ciphertext
    && (forall n :: n in s'.entries ==> n in s.entries && s'.entries[n] == s.entries[n])
    && (forall n: Name :: n.Temp? && n in s.entries ==> n in s'.entries)
  }

  lemma EffectFrame(s: State, w: Visit)
    ensures var s' := Effect(s, w);
      s' == s.(records := s'.records, ciphertext := s'.ciphertext, entries := s'.entries, retired := s'.retired)
  {
    hide Retired;
  }

  lemma EffectFrameHidden(s: State, w: Visit)
    ensures Effect(s, w).visits == s.visits
  {
    hide Effect;
    EffectFrame(s, w);
  }

  lemma EffectTouches(s: State, w: Visit)
    ensures var s' := Effect(s, w);
      && s' == s.(records := s'.records, ciphertext := s'.ciphertext, entries := s'.entries, retired := s'.retired)
      && (forall id :: id in s'.records ==> id in s.records && s'.records[id] == s.records[id])
      && s'.ciphertext <= s.ciphertext
      && (forall n :: n in s'.entries ==> n in s.entries && s'.entries[n] == s.entries[n])
      && (forall n: Name :: n.Temp? && n in s.entries ==> n in s'.entries)
  {
    hide Retired;
    EffectFrame(s, w);
    var s' := Effect(s, w);
    if w.phase.Erasing? {
      assert s'.records == s.records && s'.entries == s.entries && s'.ciphertext == s.ciphertext - {w.id};
      hide Effect;
    } else if w.phase.Dropping? {
      assert s'.records == s.records - {w.id} && s'.entries == s.entries && s'.ciphertext == s.ciphertext;
      hide Effect;
    } else {
      assert s'.records == s.records && s'.ciphertext == s.ciphertext;
      assert s'.entries == s.entries || s'.entries == s.entries - {Marker(w.id)};
      hide Effect;
    }
  }

  /** Every visit step is: possibly the pending effect, then a new phase. */
  lemma VisitStepIs(s: State, v: nat, a: VisitAct)
    requires VisitEnabled(s, v, a)
    ensures var s' := VisitStep(s, v, a);
      && v in s'.visits && s'.visits == s.visits[v := s'.visits[v]]
      && (s' == s.(visits := s'.visits) || (v in s.visits && s' == Effect(s, s.visits[v]).(visits := s'.visits)))
  {
    hide SafeLookupId, CanonicalMinusMinutes, AtMost, Effect;
    if v in s.visits { EffectFrameHidden(s, s.visits[v]); }
  }

  lemma VisitStepTouches(s: State, v: nat, a: VisitAct)
    requires VisitEnabled(s, v, a)
    ensures VisitTouches(s, VisitStep(s, v, a), v)
  {
    hide VisitStep, VisitEnabled, Effect;
    VisitStepIs(s, v, a);
    if v in s.visits { EffectTouches(s, s.visits[v]); }
  }

  /** The part of IdOk a visit relies on. */
  ghost predicate RecordOk(s: State, id: Id) {
    && (id in s.records ==> id in s.minted && s.minted[id] == s.records[id])
    && (id in s.ciphertext ==> id in s.records)
  }

  lemma VisitStarts(s: State, v: nat, a: VisitAct)
    requires VisitEnabled(s, v, a) && a.Start? && IsReal(s.clock)
    ensures v in VisitStep(s, v, a).visits && VisitOk(VisitStep(s, v, a), v)
  {
    hide IsReal, SafeLookupId, CanonicalMinusMinutes, Less;
    LessTotal(s.clock, s.clock);
  }

  /** Reading, probing and judging change only the phase. */
  lemma VisitLooks(s: State, v: nat, a: VisitAct)
    requires VisitEnabled(s, v, a) && (a.Read? || a.Probe? || a.Judge?)
    requires VisitOk(s, v) && RecordOk(s, s.visits[v].id)
    ensures v in VisitStep(s, v, a).visits && VisitOk(VisitStep(s, v, a), v)
  {
    hide IsReal, SafeLookupId, CanonicalMinusMinutes, Less;
  }

  lemma VisitErases(s: State, v: nat)
    requires VisitEnabled(s, v, EraseCiphertext) && VisitOk(s, v)
    ensures v in VisitStep(s, v, EraseCiphertext).visits && VisitOk(VisitStep(s, v, EraseCiphertext), v)
  {
    hide IsReal, SafeLookupId, CanonicalMinusMinutes, AtMost, Retired;
  }

  lemma VisitDrops(s: State, v: nat)
    requires VisitEnabled(s, v, DropRecord) && VisitOk(s, v)
    ensures v in VisitStep(s, v, DropRecord).visits && VisitOk(VisitStep(s, v, DropRecord), v)
  {
    hide IsReal, SafeLookupId, CanonicalMinusMinutes, AtMost, Retired;
  }

  /** Retiring the marker or throwing ends the visit. */
  lemma VisitEnds(s: State, v: nat, a: VisitAct)
    requires VisitEnabled(s, v, a) && (a.RetireMarker? || a.ThrowOrCrash?) && VisitOk(s, v)
    ensures v in VisitStep(s, v, a).visits && VisitOk(VisitStep(s, v, a), v)
  {
    hide IsReal, SafeLookupId, CanonicalMinusMinutes, AtMost, Effect, ExpiredBy;
    EffectFrame(s, s.visits[v]);
  }

  lemma OwnVisit(s: State, v: nat, a: VisitAct)
    requires VisitEnabled(s, v, a) && IsReal(s.clock)
    requires v in s.visits ==> VisitOk(s, v) && IdOk(s, s.visits[v].id)
    ensures v in VisitStep(s, v, a).visits && VisitOk(VisitStep(s, v, a), v)
  {
    hide VisitOk, VisitStep, IsReal, Winners;
    if a.Start? {
      VisitStarts(s, v, a);
    } else if a.Read? || a.Probe? || a.Judge? {
      VisitLooks(s, v, a);
    } else if a.EraseCiphertext? {
      VisitErases(s, v);
    } else if a.DropRecord? {
      VisitDrops(s, v);
    } else {
      VisitEnds(s, v, a);
    }
  }

  lemma IdIgnoresVisits(s: State, s': State, id: Id)
    requires IdOk(s, id) && s' == s.(visits := s'.visits)
    ensures IdOk(s', id)
  {
    assert Winners(s', id) == Winners(s, id);
    hide Less, CanonicalMinusMinutes, Winners;
  }

  lemma IdAfterErase(s: State, w: Visit, id: Id)
    requires IsReal(s.clock) && IdOk(s, id) && w.phase.Erasing?
    requires AtMost(w.now, s.clock) && ExpiredBy(s, w.id, w.now)
    ensures IdOk(Effect(s, w), id)
  {
    assert Winners(Effect(s, w), id) == Winners(s, id);
    hide IsReal, Less, CanonicalMinusMinutes, Winners;
    ExpiredForward(s, w.id, w.now, s.clock);
  }

  lemma IdAfterDrop(s: State, w: Visit, id: Id)
    requires IdOk(s, id) && w.phase.Dropping?
    requires w.id !in s.ciphertext && GraceOver(s, w.id)
    ensures IdOk(Effect(s, w), id)
  {
    assert Winners(Effect(s, w), id) == Winners(s, id);
    hide IsReal, AtMost, CanonicalMinusMinutes, Winners;
  }

  lemma IdAfterRetire(s: State, w: Visit, id: Id)
    requires IdOk(s, id) && w.phase.Retiring? && w.id !in s.records
    ensures IdOk(Effect(s, w), id)
  {
    assert Winners(Effect(s, w), id) == Winners(s, id);
    hide IsReal, Less, CanonicalMinusMinutes, Winners;
  }

  lemma IdAfterEffect(s: State, v: nat, id: Id)
    requires IsReal(s.clock) && v in s.visits && VisitOk(s, v) && IdOk(s, id)
    ensures IdOk(Effect(s, s.visits[v]), id)
  {
    hide IsReal, Less, CanonicalMinusMinutes, IdOk;
    var w := s.visits[v];
    if w.phase.Erasing? {
      hide Effect;
      IdAfterErase(s, w, id);
    } else if w.phase.Dropping? {
      hide Effect;
      HorizonLater(w.now, s.clock, s.grace);
      ExpiredForward(s, w.id, w.horizon, CanonicalMinusMinutes(s.clock, s.grace).value);
      IdAfterDrop(s, w, id);
    } else if w.phase.Retiring? {
      hide Effect;
      IdAfterRetire(s, w, id);
    }
  }

  lemma IdAfterVisit(s: State, v: nat, a: VisitAct, id: Id)
    requires VisitEnabled(s, v, a) && IsReal(s.clock)
    requires v in s.visits ==> VisitOk(s, v)
    requires IdOk(s, id)
    ensures IdOk(VisitStep(s, v, a), id)
  {
    hide IdOk, VisitOk, IsReal, VisitStep, VisitEnabled, Effect;
    VisitStepIs(s, v, a);
    if v in s.visits {
      IdAfterEffect(s, v, id);
      EffectTouches(s, s.visits[v]);
      IdIgnoresVisits(Effect(s, s.visits[v]), Effect(s, s.visits[v]).(visits := VisitStep(s, v, a).visits), id);
    }
    IdIgnoresVisits(s, s.(visits := VisitStep(s, v, a).visits), id);
  }

  lemma OwnVisitIn(s: State, v: nat, a: VisitAct)
    requires Inv(s) && VisitEnabled(s, v, a)
    ensures v in VisitStep(s, v, a).visits && VisitOk(VisitStep(s, v, a), v)
  {
    hide VisitOk, IdOk, ClaimantOk, EntryOk, VisitStep, SafeLookupId, IsReal;
    OwnVisit(s, v, a);
  }

  lemma VisitKeepsInv(s: State, v: nat, a: VisitAct)
    requires Inv(s) && VisitEnabled(s, v, a)
    ensures Inv(VisitStep(s, v, a))
  {
    hide VisitOk, IdOk, IsReal, VisitStep, VisitEnabled;
    var s' := VisitStep(s, v, a);
    VisitStepTouches(s, v, a);
    forall c | c in s'.claimants ensures ClaimantOk(s', c) { assert ClaimantOk(s, c); }
    forall n | n in s'.entries ensures EntryOk(s', n) { assert EntryOk(s, n); }
    hide ClaimantOk, EntryOk;
    forall u | u in s'.visits ensures VisitOk(s', u) {
      if u == v { OwnVisitIn(s, v, a); } else { VisitUntouched(s, s', u); }
    }
    forall id ensures IdOk(s', id) { IdAfterVisit(s, v, a, id); }
  }

  /** The invariant is inductive, whatever interleaves and whatever throws or crashes. */
  lemma InvStep(s: State, a: Action)
    requires Inv(s) && Enabled(s, a)
    ensures Inv(Step(s, a))
  {
    hide Inv, ClaimStep, VisitStep, ClaimEnabled, VisitEnabled;
    match a
    case Tick(clock) => TickKeepsInv(s, clock);
    case Serve(id) => ServeKeepsInv(s, id);
    case OfClaim(c, claim) => ClaimKeepsInv(s, c, claim);
    case OfVisit(v, visit) => VisitKeepsInv(s, v, visit);
  }

  // ---------------------------------------------------------------- whole runs

  ghost predicate Run(ss: seq<State>, acts: seq<Action>) {
    && |ss| == |acts| + 1 && Init(ss[0])
    && forall k :: 0 <= k < |acts| ==> Enabled(ss[k], acts[k]) && ss[k + 1] == Step(ss[k], acts[k])
  }

  ghost predicate Reachable(s: State) {
    exists ss, acts :: Run(ss, acts) && ss[|acts|] == s
  }

  lemma {:induction false} RunInv(ss: seq<State>, acts: seq<Action>, k: nat)
    requires Run(ss, acts) && k <= |acts|
    ensures Inv(ss[k])
  {
    hide Inv, Init, Enabled, Step;
    if k == 0 {
      InitInv(ss[0]);
    } else {
      RunInv(ss, acts, k - 1);
      assert Enabled(ss[k - 1], acts[k - 1]) && ss[k - 1 + 1] == Step(ss[k - 1], acts[k - 1]);
      InvStep(ss[k - 1], acts[k - 1]);
    }
  }

  lemma ReachableInv(s: State)
    requires Reachable(s)
    ensures Inv(s)
  {
    hide Inv;
    var ss, acts :| Run(ss, acts) && ss[|acts|] == s;
    RunInv(ss, acts, |acts|);
  }

  /** `c` is a claim of `id` that returned true. */
  predicate Succeeded(s: State, c: nat, id: Id) {
    c in s.claimants && s.claimants[c].id == id && s.claimants[c].phase == Returned(ReturnTrue)
  }

  /** A claim that returned true published the marker. */
  lemma SuccessesWon(s: State, id: Id)
    requires Inv(s)
    ensures forall c :: Succeeded(s, c, id) ==> c in Winners(s, id)
    ensures |Winners(s, id)| == Retired(s, id) + (if Marker(id) in s.entries then 1 else 0)
    ensures id in s.records ==> Retired(s, id) == 0
  {
    hide EntryOk, VisitOk, IsReal, GraceOver, ExpiredBy;
    assert IdOk(s, id);
    forall c | Succeeded(s, c, id) ensures c in Winners(s, id) { assert ClaimantOk(s, c); }
  }

  /** Single use: while the record of an id is present, at most one claim of it has returned true. */
  lemma SingleUse(s: State, id: Id, c: nat, d: nat)
    requires Reachable(s) && id in s.records && Succeeded(s, c, id) && Succeeded(s, d, id)
    ensures c == d
  {
    hide Inv, Reachable, Winners, Retired, Succeeded;
    ReachableInv(s);
    SuccessesWon(s, id);
    if c != d {
      assert {c, d} <= Winners(s, id);
      SubsetSize({c, d}, Winners(s, id));
    }
  }

  lemma SubsetSize(a: set<nat>, b: set<nat>)
    requires a <= b
    ensures |a| <= |b|
  {
    assert b == a + (b - a);
  }

  /** In all, at most one claim more than the markers retired has returned true; every marker retired means a record long gone. */
  lemma SuccessesBounded(s: State, id: Id)
    requires Reachable(s)
    ensures |set c | c in s.claimants && Succeeded(s, c, id)| <= 1 + Retired(s, id)
    ensures Retired(s, id) > 0 ==> id !in s.records
  {
    hide Inv, Reachable, Winners, Retired, Succeeded;
    ReachableInv(s);
    SuccessesWon(s, id);
    var successes := set c | c in s.claimants && Succeeded(s, c, id);
    SubsetSize(successes, Winners(s, id));
  }

  /** A marker disappears only when the record it belongs to is already absent. */
  lemma MarkerOutlivesRecord(s: State, a: Action, id: Id)
    requires Reachable(s) && Enabled(s, a)
    requires Marker(id) in s.entries && Marker(id) !in Step(s, a).entries
    ensures id !in s.records
  {
    hide Inv, ClaimStep, VisitStep, ClaimEnabled, VisitEnabled, Effect, VisitOk;
    ReachableInv(s);
    if a.OfClaim? {
      ClaimStepTouches(s, a.c, a.claim);
    } else if a.OfVisit? {
      VisitStepIs(s, a.v, a.visit);
      EffectOnMarkers(s, a.v, id);
    }
  }

  lemma EffectOnMarkers(s: State, v: nat, id: Id)
    requires Inv(s) && v in s.visits && Marker(id) in s.entries && Marker(id) !in Effect(s, s.visits[v]).entries
    ensures id !in s.records
  {
    hide IsReal, Less, CanonicalMinusMinutes, ClaimantOk, EntryOk, IdOk;
    assert VisitOk(s, v);
  }

  /** Every visible marker is complete, and leads to a claim of its own id that published it. */
  lemma MarkersComplete(s: State, id: Id)
    requires Reachable(s) && Marker(id) in s.entries
    ensures var c := s.entries[Marker(id)];
      && c in s.bodies && s.bodies[c] == Complete(id)
      && c in s.claimants && s.claimants[c].id == id && s.claimants[c].linked
  {
    ReachableInv(s);
    assert EntryOk(s, Marker(id));
    assert ClaimantOk(s, s.entries[Marker(id)]);
  }

  /** A temp name belongs to a claim that has not returned: unfinished, crashed, or thrown out of its own unlink. */
  lemma TempsBelong(s: State, id: Id, c: nat)
    requires Reachable(s) && Temp(id, c) in s.entries
    ensures c in s.claimants && s.claimants[c].id == id && s.entries[Temp(id, c)] == c
    ensures !s.claimants[c].phase.Creating? && !s.claimants[c].phase.Returned?
  {
    ReachableInv(s);
    assert EntryOk(s, Temp(id, c));
    assert ClaimantOk(s, c);
  }

  /**
   * The retention rule in real time, over any run: no ciphertext without its record; a record goes only once its
   * expiry lies the whole grace window in the past; ciphertext is erased by a sweep only once it has expired.
   */
  lemma Retention(s: State, id: Id)
    requires Reachable(s)
    requires id in s.minted && s.minted[id].Parsed? ==> IsInstant(s.minted[id].record.expiresAt)
    ensures IsReal(s.clock)
    ensures id in s.ciphertext ==> id in s.records
    ensures id in s.minted && id !in s.records ==>
              && s.minted[id].Parsed?
              && Parse(s.minted[id].record.expiresAt).Epoch() + 60 * s.grace <= Parse(s.clock).Epoch()
    ensures id in s.minted && id in s.sealed && id !in s.ciphertext && id !in s.served ==>
              && s.minted[id].Parsed?
              && Parse(s.minted[id].record.expiresAt).Epoch() <= Parse(s.clock).Epoch()
  {
    hide Reachable, Less, CanonicalMinusMinutes, Winners;
    ReachableInv(s);
    assert IdOk(s, id);
    hide Inv, ClaimantOk, EntryOk, VisitOk;
    if GraceOver(s, id) { GraceOverMeansElapsed(s, id); }
    if ExpiredBy(s, id, s.clock) { StringsCompareInstants(s.minted[id].record.expiresAt, s.clock); }
  }

  lemma GraceOverMeansElapsed(s: State, id: Id)
    requires IsReal(s.clock) && GraceOver(s, id) && IsInstant(s.minted[id].record.expiresAt)
    ensures Parse(s.minted[id].record.expiresAt).Epoch() + 60 * s.grace <= Parse(s.clock).Epoch()
  {
    hide Less, CanonicalMinusMinutes;
    PastGraceMeansElapsed(s.minted[id].record.expiresAt, s.clock, s.grace, CanonicalMinusMinutes(s.clock, s.grace).value);
  }

  // ---------------------------------------------------------------- what a claim answers, and what a visit does

  /** A claim that returned false did not publish the marker, and one that returned true did. */
  lemma AnswersTellWhoPublished(s: State, c: nat)
    requires Reachable(s) && c in s.claimants && s.claimants[c].phase.Returned? && s.claimants[c].phase.outcome != Throw
    ensures s.claimants[c].linked <==> s.claimants[c].phase.outcome == ReturnTrue
  {
    hide Reachable, IdOk, VisitOk, EntryOk;
    ReachableInv(s);
    assert ClaimantOk(s, c);
  }

  lemma LinkAnswers(s: State, c: nat)
    requires ClaimEnabled(s, c, Link) && TempOf(s, c) in s.entries
    ensures var s1, marker := ClaimStep(s, c, Link), Marker(s.claimants[c].id);
      && marker in s1.entries && c in s1.claimants && s1.bodies == s.bodies && s1.claimants[c].id == s.claimants[c].id
      && (marker !in s.entries ==> s1.entries[marker] == s.entries[TempOf(s, c)])
      && s1.claimants[c].phase == Unlinking(if marker in s.entries then ReturnFalse else ReturnTrue)
  {}

  lemma UnlinkAnswers(s: State, c: nat)
    requires c in s.claimants && s.claimants[c].phase.Unlinking?
    ensures ClaimEnabled(s, c, UnlinkTemp)
    ensures c in ClaimStep(s, c, UnlinkTemp).claimants
    ensures ClaimStep(s, c, UnlinkTemp).claimants[c].phase == Returned(s.claimants[c].phase.outcome)
  {
    hide Publishes;
  }

  lemma LinkingOwns(s: State, c: nat)
    requires Reachable(s) && c in s.claimants && s.claimants[c].phase.Linking?
    ensures TempOf(s, c) in s.entries && s.entries[TempOf(s, c)] == c
    ensures c in s.bodies && s.bodies[c] == Complete(s.claimants[c].id)
  {
    hide Reachable, IdOk, VisitOk, IsReal;
    ReachableInv(s);
    assert ClaimantOk(s, c);
    assert EntryOk(s, TempOf(s, c));
  }

  /** Without a failing call, a claim at its link publishes and returns true, or finds the marker and returns false. */
  lemma FaultFreeClaim(s: State, c: nat)
    requires Reachable(s) && c in s.claimants && s.claimants[c].phase.Linking?
    ensures ClaimEnabled(s, c, Link)
    ensures var marker, s1 := Marker(s.claimants[c].id), ClaimStep(s, c, Link);
      && marker in s1.entries && ClaimEnabled(s1, c, UnlinkTemp)
      && (marker !in s.entries ==> s1.entries[marker] == c && c in s1.bodies && s1.bodies[c] == Complete(s.claimants[c].id))
      && var s2 := ClaimStep(s1, c, UnlinkTemp);
         c in s2.claimants && s2.claimants[c].phase == Returned(if marker in s.entries then ReturnFalse else ReturnTrue)
  {
    hide ClaimStep, Reachable;
    LinkingOwns(s, c);
    LinkAnswers(s, c);
    UnlinkAnswers(ClaimStep(s, c, Link), c);
  }

  /** The step a visit takes next when nothing fails. */
  function NextAct(p: SweepPhase): VisitAct
    requires !p.Over?
  {
    match p
    case Reading => Read
    case Probing(_) => Probe
    case Erasing(_) => EraseCiphertext
    case Judging(_) => Judge
    case Dropping => DropRecord
    case Retiring => RetireMarker
  }

  function Rank(p: SweepPhase): nat {
    match p
    case Reading => 6
    case Probing(_) => 5
    case Erasing(_) => 4
    case Judging(_) => 3
    case Dropping => 2
    case Retiring => 1
    case Over => 0
  }

  lemma RankFalls(s: State, v: nat)
    requires v in s.visits && !s.visits[v].phase.Over?
    ensures var a := NextAct(s.visits[v].phase);
      VisitEnabled(s, v, a) && v in VisitStep(s, v, a).visits
      && Rank(VisitStep(s, v, a).visits[v].phase) < Rank(s.visits[v].phase)
  {
    hide AtMost, Effect;
    EffectFrame(s, s.visits[v]);
  }

  /** The visit runs to its end with nothing in between. */
  function Finish(s: State, v: nat): State
    requires v in s.visits
    decreases Rank(s.visits[v].phase)
  {
    if s.visits[v].phase.Over? then s
    else
      RankFalls(s, v);
      Finish(VisitStep(s, v, NextAct(s.visits[v].phase)), v)
  }

  /** From the drop on: the record and the marker go. */
  lemma FinishDropping(s: State, v: nat)
    requires v in s.visits && s.visits[v].phase.Dropping?
    ensures var s', id := Finish(s, v), s.visits[v].id;
      && s'.records == s.records - {id} && s'.ciphertext == s.ciphertext && s'.entries == s.entries - {Marker(id)}
  {
    hide AtMost;
    var s1 := VisitStep(s, v, DropRecord);
    var s2 := VisitStep(s1, v, RetireMarker);
    assert Finish(s, v) == Finish(s1, v) == Finish(s2, v) == s2;
    assert s.entries - {Marker(s.visits[v].id)} == s2.entries;
  }

  lemma FinishJudging(s: State, v: nat)
    requires v in s.visits && s.visits[v].phase.Judging?
    ensures var s', w := Finish(s, v), s.visits[v];
      && s'.ciphertext == s.ciphertext
      && if AtMost(w.phase.record.expiresAt, w.horizon)
         then s'.records == s.records - {w.id} && s'.entries == s.entries - {Marker(w.id)}
         else s'.records == s.records && s'.entries == s.entries
  {
    hide AtMost;
    var s1 := VisitStep(s, v, Judge);
    assert Finish(s, v) == Finish(s1, v);
    if s1.visits[v].phase.Dropping? { FinishDropping(s1, v); }
  }

  lemma FinishProbing(s: State, v: nat)
    requires v in s.visits && s.visits[v].phase.Probing?
    ensures var s', w := Finish(s, v), s.visits[v];
      && s'.ciphertext == s.ciphertext - {w.id}
      && if AtMost(w.phase.record.expiresAt, w.horizon)
         then s'.records == s.records - {w.id} && s'.entries == s.entries - {Marker(w.id)}
         else s'.records == s.records && s'.entries == s.entries
  {
    hide AtMost;
    var s1 := VisitStep(s, v, Probe);
    assert Finish(s, v) == Finish(s1, v);
    if s1.visits[v].phase.Judging? {
      FinishJudging(s1, v);
      assert s.ciphertext - {s.visits[v].id} == s.ciphertext;
    } else {
      var s2 := VisitStep(s1, v, EraseCiphertext);
      assert Finish(s1, v) == Finish(s2, v);
      FinishJudging(s2, v);
    }
  }

  /**
   * A visit that nothing interrupts does to its id what the retention rule says: ciphertext goes at expiry, the
   * record and its marker once the grace window has passed, and other ids are untouched.
   */
  lemma WholeVisit(s: State, v: nat, id: Id)
    requires IsReal(s.clock) && VisitEnabled(s, v, Start(id)) && id in s.records && s.records[id].Parsed?
    requires IsInstant(s.records[id].record.expiresAt)
    ensures var e, t := Parse(s.records[id].record.expiresAt).Epoch(), Parse(s.clock).Epoch();
      var s1 := VisitStep(s, v, Start(id));
      && v in s1.visits
      && var s' := Finish(s1, v);
      && s'.ciphertext == (if e <= t then s.ciphertext - {id} else s.ciphertext)
      && s'.records == (if e + 60 * s.grace <= t then s.records - {id} else s.records)
      && s'.entries == (if e + 60 * s.grace <= t then s.entries - {Marker(id)} else s.entries)
  {
    hide CanonicalMinusMinutes, SafeLookupId, Less;
    var record := s.records[id].record;
    var horizon := CanonicalMinusMinutes(s.clock, s.grace).value;
    PastGraceMeansElapsed(record.expiresAt, s.clock, s.grace, horizon);
    StringsCompareInstants(record.expiresAt, s.clock);
    hide IsReal, IsInstant, AtMost;
    var s1 := VisitStep(s, v, Start(id));
    var s2 := VisitStep(s1, v, Read);
    assert Finish(s1, v) == Finish(s2, v);
    if s2.visits[v].phase.Probing? { FinishProbing(s2, v); }
  }
}
