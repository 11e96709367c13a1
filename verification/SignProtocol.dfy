/**
 * The one-slot biometric sign/cancel protocol
 * (packages/attestation-native/ios/AttestationNativeModule.swift, signWith, finishPendingSign, cancelPendingSign).
 *
 * Every region under `pendingSignLock` is one atomic step, and so is every action between two
 * regions that another thread can observe. Whether the key loads, what LocalAuthentication and
 * SecKeyCreateSignature answer and when the 2 s cap runs out are left open: they are parameters of
 * the steps, and any enabled step may happen next.
 */
module SignProtocol {
  import opened Common

  // ---------------------------------------------------------------- answers

  datatype Domain = LocalAuthentication | CryptoTokenKit | OtherDomain

  /** An NSError, as far as the mapping to a rejection code looks at it. */
  datatype SystemError = SystemError(domain: Domain, code: int)

  const LA_USER_CANCEL := -2
  const LA_USER_FALLBACK := -3
  const LA_SYSTEM_CANCEL := -4
  const LA_NOT_ENROLLED := -7
  const LA_LOCKOUT := -8
  const LA_APP_CANCEL := -9
  const ERR_SEC_USER_CANCELED := -128
  const ERR_SEC_ITEM_NOT_FOUND := -25300

  /** How an evaluation ended; `NoAccessControl` is the path that raises no evaluation at all. */
  datatype Evaluation = NoAccessControl | EvaluatedOk | EvaluationFailed(error: SystemError)

  /** What the system call left behind. */
  datatype CallResult = Signed | CallFailed(error: SystemError)

  datatype Outcome = Signature | Failure(code: string)

  /** What JavaScript sees. */
  datatype Reply = Resolved | Rejected(code: string)

  /** Only these evaluation failures end the sign before the direct signature is tried. */
  predicate KnownEvaluationAnswer(e: SystemError) {
    e.domain == LocalAuthentication &&
    e.code in {LA_USER_CANCEL, LA_USER_FALLBACK, LA_SYSTEM_CANCEL, LA_APP_CANCEL, LA_LOCKOUT, LA_NOT_ENROLLED}
  }

  /** The domain decides first: the code spaces overlap. */
  function FailureCode(e: SystemError): string {
    if e.domain == CryptoTokenKit then
      if e.code == -3 then "KEY_INVALIDATED_REASSOCIATE" else "BIOMETRIC_ERROR"
    else if e.code in {ERR_SEC_USER_CANCELED, LA_USER_CANCEL, LA_USER_FALLBACK} then "CANCELED"
    else if e.code in {LA_SYSTEM_CANCEL, LA_APP_CANCEL} then "SYSTEM_CANCELED"
    else if e.code == LA_NOT_ENROLLED then "NO_BIOMETRICS_ENROLLED"
    else if e.code == LA_LOCKOUT then "LOCKOUT_PERMANENT"
    else if e.code == ERR_SEC_ITEM_NOT_FOUND then "KEY_INVALIDATED_REASSOCIATE"
    else "BIOMETRIC_ERROR"
  }

  function ReplyOf(o: Outcome): Reply {
    match o
    case Signature => Resolved
    case Failure(code) => Rejected(code)
  }

  const CANCELED := Rejected("CANCELED")

  // ---------------------------------------------------------------- state

  /** Where an accepted sign stands; from `Started` to `Leaving` its block occupies the serial queue. */
  datatype Phase =
    | Reserved                        // holds the slot, block not yet handed to the queue
    | Queued
    | Started
    | Loading                         // loadKey
    | Loaded
    | Evaluating                      // counted as in flight from here ...
    | Evaluated(evaluation: Evaluation)
    | Calling                         // SecKeyCreateSignature
    | Returned(result: CallResult)    // ... to here
    | Finishing(outcome: Outcome)     // about to take the lock in finishPendingSign
    | Settling(final: Outcome, wasCanceled: bool, alreadySettled: bool)
    | Leaving                         // answered; about to leave the group
    | Left                            // done.leave() has run, the block has not returned
    | Finished
  {
    predicate InCall() { Evaluating? || Evaluated? || Calling? || Returned? }
    predicate InBlock() { !Reserved? && !Queued? && !Finished? }
    /** finishPendingSign has not yet taken the lock. */
    predicate Unfinished() { !Settling? && !Leaving? && !Left? && !Finished? }
    /** The block has yet to answer the promise. */
    predicate Owes() { Settling? && !alreadySettled }
  }

  /** `PendingSign`, with the cancel that claimed it and the replies its promise has received. */
  datatype Sign = Sign(phase: Phase, canceledBy: Option<nat>, settled: bool, replies: seq<Reply>) {
    predicate Canceled() { canceledBy.Some? }
  }

  datatype CancelPhase =
    | Invalidating | Waiting | CapHit | CapSettling(settleHere: bool) | Answering | Answered

  /** A cancelPendingSign call; it holds nothing when the slot was empty. */
  datatype Cancel = Cancel(held: Option<nat>, phase: CancelPhase)

  datatype State = State(
    signs: map<nat, Sign>, cancels: map<nat, Cancel>,
    slot: Option<nat>, inFlight: int,
    queue: seq<nat>, running: Option<nat>,
    nextSign: nat, nextCancel: nat)

  const Init := State(map[], map[], None, 0, [], None, 0, 0)

  /** signWith refuses PROMPT_BUSY. */
  predicate Busy(s: State) {
    s.slot.Some? || s.inFlight > 0
  }

  // ---------------------------------------------------------------- steps

  datatype Action =
    | SignWith                                  // 613-625: refuse, or take the slot
    | Enqueue(i: nat)                           // 627
    | Begin                                     // the queue starts its next block
    | CheckEntry(i: nat)                        // 628-636
    | LoadKey(i: nat, found: bool)              // 637-642
    | CountCall(i: nat)                         // 646-655
    | Evaluate(i: nat, evaluation: Evaluation)  // 665-678
    | CheckEvaluated(i: nat)                    // 680-698
    | Call(i: nat, result: CallResult)          // 704-706
    | UncountCall(i: nat, derOk: bool)          // 710-763
    | FinishLocked(i: nat)                      // 775-780
    | Settle(i: nat)                            // 786-801
    | Leave(i: nat)                             // 802
    | EndBlock(i: nat)                          // 764
    | CancelLocked                              // 828-837
    | Invalidate(c: nat)                        // 840
    | WaitEnds(c: nat)                          // 842, the sign left in time
    | CapRunsOut(c: nat)                        // 842-844
    | CapLocked(c: nat)                         // 845-848
    | CapSettle(c: nat)                         // 849-851
    | Answer(c: nat)                            // 855

  /** Cancel `c` claimed a sign, and is in a phase to act on it. */
  predicate Holds(s: State, c: nat) {
    c in s.cancels && s.cancels[c].held.Some? && s.cancels[c].held.value in s.signs
  }

  predicate Enabled(s: State, a: Action) {
    match a
    case SignWith => true
    case Enqueue(i) => i in s.signs && s.signs[i].phase.Reserved?
    case Begin => s.running.None? && s.queue != [] && s.queue[0] in s.signs
    case CheckEntry(i) => i in s.signs && s.signs[i].phase.Started?
    case LoadKey(i, _) => i in s.signs && s.signs[i].phase.Loading?
    case CountCall(i) => i in s.signs && s.signs[i].phase.Loaded?
    case Evaluate(i, _) => i in s.signs && s.signs[i].phase.Evaluating?
    case CheckEvaluated(i) => i in s.signs && s.signs[i].phase.Evaluated?
    case Call(i, _) => i in s.signs && s.signs[i].phase.Calling?
    case UncountCall(i, _) => i in s.signs && s.signs[i].phase.Returned?
    case FinishLocked(i) => i in s.signs && s.signs[i].phase.Finishing?
    case Settle(i) => i in s.signs && s.signs[i].phase.Settling?
    case Leave(i) => i in s.signs && s.signs[i].phase.Leaving?
    case EndBlock(i) => i in s.signs && s.signs[i].phase.Left?
    case CancelLocked => s.slot.Some? ==> s.slot.value in s.signs
    case Invalidate(c) => Holds(s, c) && s.cancels[c].phase.Invalidating?
    case WaitEnds(c) => Holds(s, c) && s.cancels[c].phase.Waiting? && HasLeft(s, s.cancels[c].held.value)
    case CapRunsOut(c) => Holds(s, c) && s.cancels[c].phase.Waiting?
    case CapLocked(c) => Holds(s, c) && s.cancels[c].phase.CapHit?
    case CapSettle(c) => Holds(s, c) && s.cancels[c].phase.CapSettling?
    case Answer(c) => Holds(s, c) && s.cancels[c].phase.Answering?
  }

  predicate HasLeft(s: State, i: nat) {
    i in s.signs && (s.signs[i].phase.Left? || s.signs[i].phase.Finished?)
  }

  function Put(s: State, i: nat, g: Sign): State {
    s.(signs := s.signs[i := g])
  }

  function To(s: State, i: nat, p: Phase): State
    requires i in s.signs
  {
    Put(s, i, s.signs[i].(phase := p))
  }

  function CancelTo(s: State, c: nat, p: CancelPhase): State
    requires c in s.cancels
  {
    s.(cancels := s.cancels[c := s.cancels[c].(phase := p)])
  }

  function Deliver(g: Sign, r: Reply): Sign {
    g.(replies := g.replies + [r])
  }

  function Step(s: State, a: Action): State
    requires Enabled(s, a)
  {
    match a
    case SignWith =>
      if Busy(s) then s
      else Put(s, s.nextSign, Sign(Reserved, None, false, [])).(slot := Some(s.nextSign), nextSign := s.nextSign + 1)
    case Enqueue(i) => To(s, i, Queued).(queue := s.queue + [i])
    case Begin => To(s, s.queue[0], Started).(queue := s.queue[1..], running := Some(s.queue[0]))
    case CheckEntry(i) => To(s, i, if s.signs[i].Canceled() then Finishing(Failure("CANCELED")) else Loading)
    case LoadKey(i, found) => To(s, i, if found then Loaded else Finishing(Failure("NO_KEY_PROVISIONED")))
    case CountCall(i) =>
      if s.signs[i].Canceled() then To(s, i, Finishing(Failure("CANCELED")))
      else To(s, i, Evaluating).(inFlight := s.inFlight + 1)
    case Evaluate(i, evaluation) => To(s, i, Evaluated(evaluation))
    case CheckEvaluated(i) =>
      var e := s.signs[i].phase.evaluation;
      To(s, i, if s.signs[i].Canceled() then Returned(CallFailed(SystemError(LocalAuthentication, LA_APP_CANCEL)))
               else if e.EvaluationFailed? && KnownEvaluationAnswer(e.error) then Returned(CallFailed(e.error))
               else Calling)
    case Call(i, result) => To(s, i, Returned(result))
    case UncountCall(i, derOk) =>
      var result := s.signs[i].phase.result;
      To(s, i, Finishing(if result.CallFailed? then Failure(FailureCode(result.error))
                         else if derOk then Signature else Failure("KEY_ERROR"))).(inFlight := s.inFlight - 1)
    case FinishLocked(i) =>
      var g := s.signs[i];
      Put(s, i, g.(phase := Settling(g.phase.outcome, g.Canceled(), g.settled), settled := true))
        .(slot := if s.slot == Some(i) then None else s.slot)
    case Settle(i) =>
      var g := s.signs[i];
      var p := g.phase;
      Put(s, i, (if p.alreadySettled then g
                 else if p.wasCanceled then Deliver(g, CANCELED)
                 else Deliver(g, ReplyOf(p.final))).(phase := Leaving))
    case Leave(i) => To(s, i, Left)
    case EndBlock(i) => To(s, i, Finished).(running := None)
    case CancelLocked =>
      (if s.slot.None? then s.(cancels := s.cancels[s.nextCancel := Cancel(None, Answered)])
       else Put(s, s.slot.value, s.signs[s.slot.value].(canceledBy := Some(s.nextCancel)))
              .(slot := None, cancels := s.cancels[s.nextCancel := Cancel(s.slot, Invalidating)]))
      .(nextCancel := s.nextCancel + 1)
    case Invalidate(c) => CancelTo(s, c, Waiting)
    case WaitEnds(c) => CancelTo(s, c, Answering)
    case CapRunsOut(c) => CancelTo(s, c, CapHit)
    case CapLocked(c) =>
      var i := s.cancels[c].held.value;
      CancelTo(Put(s, i, s.signs[i].(settled := true)), c, CapSettling(!s.signs[i].settled))
    case CapSettle(c) =>
      var i := s.cancels[c].held.value;
      CancelTo(if s.cancels[c].phase.settleHere then Put(s, i, Deliver(s.signs[i], CANCELED)) else s, c, Answering)
    case Answer(c) => CancelTo(s, c, Answered)
  }

  // ---------------------------------------------------------------- the invariant

  /** Some cancel's cap has taken the settlement of `i` and has yet to reject its promise. */
  predicate CancelOwes(s: State, i: nat)
    requires i in s.signs
  {
    var c := s.signs[i].canceledBy;
    c.Some? && c.value in s.cancels && s.cancels[c.value].phase == CapSettling(true)
  }

  /** The cap of `i`'s cancel has settled `i`, whether or not it has rejected the promise yet. */
  predicate Capped(s: State, c: nat)
    requires c in s.cancels
  {
    s.cancels[c].phase.CapSettling? || s.cancels[c].phase.Answering? || s.cancels[c].phase.Answered?
  }

  /** What holds of one accepted sign. */
  ghost predicate SignOk(s: State, i: nat)
    requires i in s.signs
  {
    var g := s.signs[i];
    && i < s.nextSign
    && (g.phase.InBlock() <==> s.running == Some(i))
    && (g.phase.Queued? <==> i in s.queue)
    // The slot: exactly the unfinished sign that no cancel has claimed.
    && (s.slot == Some(i) <==> g.phase.Unfinished() && !g.Canceled())
    // While the slot is held, a system call is the holder's.
    && (g.phase.InCall() && s.slot.Some? ==> s.slot == Some(i))
    // The settled flag.
    && (!g.phase.Unfinished() ==> g.settled)
    && (g.settled && g.phase.Unfinished() ==> g.Canceled())
    // Who cancelled it.
    && (g.Canceled() ==> g.canceledBy.value in s.cancels && s.cancels[g.canceledBy.value].held == Some(i))
    && (g.phase.Settling? ==> g.phase.wasCanceled == g.Canceled())
    // Replies: one, once someone settled it and nobody still owes the reply.
    && |g.replies| == (if g.settled && !g.phase.Owes() && !CancelOwes(s, i) then 1 else 0)
    && !(g.phase.Owes() && CancelOwes(s, i))
    && (g.Canceled() ==> forall r :: r in g.replies ==> r == CANCELED)
  }

  /** What holds of one cancel. */
  ghost predicate CancelOk(s: State, c: nat)
    requires c in s.cancels
  {
    var k := s.cancels[c];
    && c < s.nextCancel
    && (k.held.Some? ==>
        && k.held.value in s.signs
        && s.signs[k.held.value].canceledBy == Some(c)
        && (Capped(s, c) ==> s.signs[k.held.value].settled))
  }

  /** The flags of the queue as a whole. */
  ghost predicate QueueOk(s: State) {
    && (s.running.Some? ==> s.running.value in s.signs)
    && s.inFlight == (if s.running.Some? && s.running.value in s.signs && s.signs[s.running.value].phase.InCall() then 1 else 0)
    && (forall i :: i in s.queue ==> i in s.signs)
    && (forall j, k :: 0 <= j < k < |s.queue| ==> s.queue[j] != s.queue[k])
    && (s.slot.Some? ==> s.slot.value in s.signs && s.slot.value == s.nextSign - 1)
  }

  ghost predicate Inv(s: State) {
    && QueueOk(s)
    && (forall i :: i in s.signs ==> SignOk(s, i))
    && (forall c :: c in s.cancels ==> CancelOk(s, c))
  }

  // One step at a time. `SignFrame` and `CancelFrame` say what a sign or a cancel depends on.

  lemma SignFrame(s: State, s': State, j: nat)
    requires j in s.signs && SignOk(s, j)
    requires j in s'.signs && s'.signs[j] == s.signs[j] && s.nextSign <= s'.nextSign
    requires s'.slot == Some(j) <==> s.slot == Some(j)
    requires s'.running == Some(j) <==> s.running == Some(j)
    requires j in s'.queue <==> j in s.queue
    requires s.signs[j].phase.InCall() && s'.slot.Some? ==> s'.slot == Some(j)
    requires s.signs[j].Canceled() ==>
               var c := s.signs[j].canceledBy.value;
               && c in s.cancels && c in s'.cancels && s'.cancels[c].held == s.cancels[c].held
               && (s'.cancels[c].phase == CapSettling(true) <==> s.cancels[c].phase == CapSettling(true))
    ensures SignOk(s', j)
  {}

  lemma CancelFrame(s: State, s': State, c: nat)
    requires c in s.cancels && CancelOk(s, c)
    requires c in s'.cancels && s'.cancels[c] == s.cancels[c] && s.nextCancel <= s'.nextCancel
    requires s.cancels[c].held.Some? ==>
               var i := s.cancels[c].held.value;
               i in s.signs && i in s'.signs && s'.signs[i].canceledBy == s.signs[i].canceledBy
               && (s.signs[i].settled ==> s'.signs[i].settled)
    ensures CancelOk(s', c)
  {}

  /** The sign an action writes to. */
  function Touched(s: State, a: Action): Option<nat>
    requires Enabled(s, a)
  {
    match a
    case SignWith => if Busy(s) then None else Some(s.nextSign)
    case Enqueue(i) => Some(i)
    case Begin => Some(s.queue[0])
    case CheckEntry(i) => Some(i)
    case LoadKey(i, _) => Some(i)
    case CountCall(i) => Some(i)
    case Evaluate(i, _) => Some(i)
    case CheckEvaluated(i) => Some(i)
    case Call(i, _) => Some(i)
    case UncountCall(i, _) => Some(i)
    case FinishLocked(i) => Some(i)
    case Settle(i) => Some(i)
    case Leave(i) => Some(i)
    case EndBlock(i) => Some(i)
    case CancelLocked => s.slot
    case _ => s.cancels[a.c].held
  }

  /** A step of the queue or of a sign's block, as opposed to a new sign or a step of a cancel. */
  predicate OfBlock(a: Action) {
    a.Enqueue? || a.Begin? || OfCall(a) || OfEnd(a)
  }

  predicate OfCall(a: Action) {
    a.CheckEntry? || a.LoadKey? || a.CountCall? || a.Evaluate? || a.CheckEvaluated? || a.Call? || a.UncountCall?
  }

  predicate OfEnd(a: Action) {
    a.FinishLocked? || a.Settle? || a.Leave? || a.EndBlock?
  }

  /** Inside the block, before finishPendingSign, a step moves one phase and perhaps the counter. */
  lemma CallIs(s: State, a: Action)
    requires Enabled(s, a) && OfCall(a)
    ensures Touched(s, a).Some?
    ensures var i, s' := Touched(s, a).value, Step(s, a);
      && i in s.signs && i in s'.signs
      && s' == s.(signs := s.signs[i := s.signs[i].(phase := s'.signs[i].phase)], inFlight := s'.inFlight)
  {}

  lemma OtherSignCall(s: State, a: Action, j: nat)
    requires Inv(s) && Enabled(s, a) && j in s.signs && Touched(s, a) != Some(j) && OfCall(a)
    ensures j in Step(s, a).signs && SignOk(Step(s, a), j)
  {
    hide Enabled, Step, Touched, SignOk, CancelOk, QueueOk;
    CallIs(s, a);
    assert SignOk(s, j);
    NotHeldByOther(s, j);
    SignFrame(s, Step(s, a), j);
  }

  lemma NotHeldByOther(s: State, j: nat)
    requires Inv(s) && j in s.signs
    ensures s.signs[j].phase.InCall() && s.slot.Some? ==> s.slot == Some(j)
    ensures s.signs[j].Canceled() ==> s.signs[j].canceledBy.value in s.cancels
  {
    assert SignOk(s, j);
  }

  lemma OtherSignEnd(s: State, a: Action, j: nat)
    requires Inv(s) && Enabled(s, a) && j in s.signs && Touched(s, a) != Some(j) && OfEnd(a)
    ensures j in Step(s, a).signs && SignOk(Step(s, a), j)
  {
    hide CancelOk, QueueOk, CancelOwes;
    assert SignOk(s, j) && SignOk(s, Touched(s, a).value);
    NotHeldByOther(s, j);
    hide Inv, SignOk;
    SignFrame(s, Step(s, a), j);
  }

  lemma OtherSignQueue(s: State, a: Action, j: nat)
    requires Inv(s) && Enabled(s, a) && j in s.signs && Touched(s, a) != Some(j) && (a.Enqueue? || a.Begin?)
    ensures j in Step(s, a).signs && SignOk(Step(s, a), j)
  {
    hide CancelOk, QueueOk, CancelOwes;
    assert SignOk(s, j);
    NotHeldByOther(s, j);
    hide Inv;
    SignFrame(s, Step(s, a), j);
  }

  lemma OtherSignBlock(s: State, a: Action, j: nat)
    requires Inv(s) && Enabled(s, a) && j in s.signs && Touched(s, a) != Some(j) && OfBlock(a)
    ensures j in Step(s, a).signs && SignOk(Step(s, a), j)
  {
    hide Enabled, Step, Touched, SignOk, Inv;
    if OfCall(a) {
      OtherSignCall(s, a, j);
    } else if OfEnd(a) {
      OtherSignEnd(s, a, j);
    } else {
      OtherSignQueue(s, a, j);
    }
  }

  lemma OtherSignCancel(s: State, a: Action, j: nat)
    requires Inv(s) && Enabled(s, a) && j in s.signs && Touched(s, a) != Some(j) && !OfBlock(a)
    ensures j in Step(s, a).signs && SignOk(Step(s, a), j)
  {
    hide CancelOwes;
    assert SignOk(s, j);
    var c := s.signs[j].canceledBy;
    if c.Some? { assert CancelOk(s, c.value); }
    SignFrame(s, Step(s, a), j);
  }

  lemma TouchedSignArriving(s: State, a: Action, j: nat)
    requires Inv(s) && Enabled(s, a) && Touched(s, a) == Some(j) && (a.SignWith? || a.Enqueue? || a.Begin?)
    ensures j in Step(s, a).signs && SignOk(Step(s, a), j)
  {
    if j in s.signs { assert SignOk(s, j); }
  }

  /** Inside the block, before finishPendingSign, only the phase moves; entering the call needs the slot. */
  lemma PhaseMoves(s: State, s': State, j: nat)
    requires j in s.signs && SignOk(s, j) && s.signs[j].phase.InBlock() && s.signs[j].phase.Unfinished()
    requires j in s'.signs && s'.signs[j].phase.InBlock() && s'.signs[j].phase.Unfinished()
    requires s' == s.(signs := s.signs[j := s.signs[j].(phase := s'.signs[j].phase)], inFlight := s'.inFlight)
    requires s'.signs[j].phase.InCall() && !s.signs[j].phase.InCall() ==> !s.signs[j].Canceled()
    ensures SignOk(s', j)
  {}

  lemma TouchedSignCall(s: State, a: Action, j: nat)
    requires Inv(s) && Enabled(s, a) && Touched(s, a) == Some(j) && OfCall(a)
    ensures j in Step(s, a).signs && SignOk(Step(s, a), j)
  {
    hide SignOk, CancelOk, QueueOk;
    PhaseMoves(s, Step(s, a), j);
  }

  /** Once a cap has taken the settlement of a sign, the sign is settled. */
  lemma OwedMeansSettled(s: State, j: nat)
    requires Inv(s) && j in s.signs
    ensures SignOk(s, j) && (CancelOwes(s, j) ==> s.signs[j].settled)
  {
    if s.signs[j].Canceled() && s.signs[j].canceledBy.value in s.cancels {
      assert CancelOk(s, s.signs[j].canceledBy.value);
    }
    assert SignOk(s, j);
  }

  lemma TouchedSignFinish(s: State, j: nat)
    requires Inv(s) && Enabled(s, FinishLocked(j))
    ensures SignOk(Step(s, FinishLocked(j)), j)
  {
    hide CancelOk, QueueOk, Inv;
    OwedMeansSettled(s, j);
  }

  lemma TouchedSignEnd(s: State, a: Action, j: nat)
    requires Inv(s) && Enabled(s, a) && Touched(s, a) == Some(j) && OfEnd(a)
    ensures j in Step(s, a).signs && SignOk(Step(s, a), j)
  {
    hide CancelOk, QueueOk, Inv;
    if a.FinishLocked? {
      hide SignOk;
      TouchedSignFinish(s, j);
    } else {
      OwedMeansSettled(s, j);
    }
  }

  lemma TouchedSignCancel(s: State, a: Action, j: nat)
    requires Inv(s) && Enabled(s, a) && Touched(s, a) == Some(j) && !OfBlock(a) && !a.SignWith?
    ensures j in Step(s, a).signs && SignOk(Step(s, a), j)
  {
    assert SignOk(s, j);
    if !a.CancelLocked? { assert CancelOk(s, a.c); }
  }

  lemma BlockSparesCancels(s: State, a: Action, i: nat)
    requires Enabled(s, a) && OfBlock(a)
    ensures Step(s, a).cancels == s.cancels && Step(s, a).nextCancel == s.nextCancel
    ensures i in s.signs ==>
      && i in Step(s, a).signs && Step(s, a).signs[i].canceledBy == s.signs[i].canceledBy
      && (s.signs[i].settled ==> Step(s, a).signs[i].settled)
  {}

  lemma EveryCancelBlock(s: State, a: Action, c: nat)
    requires Inv(s) && Enabled(s, a) && c in Step(s, a).cancels && OfBlock(a)
    ensures CancelOk(Step(s, a), c)
  {
    hide SignOk, QueueOk, Enabled, Step;
    BlockSparesCancels(s, a, 0);
    assert CancelOk(s, c);
    if s.cancels[c].held.Some? { BlockSparesCancels(s, a, s.cancels[c].held.value); }
    CancelFrame(s, Step(s, a), c);
  }

  lemma EveryCancelOwn(s: State, a: Action, c: nat)
    requires Inv(s) && Enabled(s, a) && c in Step(s, a).cancels && !OfBlock(a)
    ensures CancelOk(Step(s, a), c)
  {
    if c in s.cancels { assert CancelOk(s, c); }
  }

  lemma TheQueueMoves(s: State, a: Action)
    requires Inv(s) && Enabled(s, a) && (a.Enqueue? || a.Begin?)
    ensures QueueOk(Step(s, a))
  {
    hide CancelOk, CancelOwes;
    assert SignOk(s, Touched(s, a).value);
    hide SignOk;
  }

  /** From finishPendingSign on, a step of a block leaves the counter, and at most clears the slot and the queue. */
  lemma EndIs(s: State, a: Action)
    requires Enabled(s, a) && OfEnd(a)
    ensures Touched(s, a).Some?
    ensures var i, s' := Touched(s, a).value, Step(s, a);
      && i in s.signs && i in s'.signs && s.signs[i].phase.InBlock()
      && !s.signs[i].phase.InCall() && !s'.signs[i].phase.InCall()
      && s' == s.(signs := s.signs[i := s'.signs[i]], slot := s'.slot, running := s'.running)
      && (s'.slot == s.slot || s'.slot == None) && (s'.running == s.running || s'.running == None)
  {}

  lemma QueueEnds(s: State, s': State, j: nat)
    requires QueueOk(s) && j in s.signs && s.running == Some(j) && j in s'.signs
    requires !s.signs[j].phase.InCall() && !s'.signs[j].phase.InCall()
    requires s' == s.(signs := s.signs[j := s'.signs[j]], slot := s'.slot, running := s'.running)
    requires s'.slot == s.slot || s'.slot == None
    requires s'.running == s.running || s'.running == None
    ensures QueueOk(s')
  {}

  lemma RunsItsBlock(s: State, j: nat)
    requires Inv(s) && j in s.signs && s.signs[j].phase.InBlock()
    ensures QueueOk(s) && s.running == Some(j)
  {
    assert SignOk(s, j);
  }

  lemma TheQueueEnd(s: State, a: Action)
    requires Inv(s) && Enabled(s, a) && OfEnd(a)
    ensures QueueOk(Step(s, a))
  {
    hide Inv, Enabled, Step, QueueOk;
    EndIs(s, a);
    RunsItsBlock(s, Touched(s, a).value);
    QueueEnds(s, Step(s, a), Touched(s, a).value);
  }

  lemma TheQueueBlock(s: State, a: Action)
    requires Inv(s) && Enabled(s, a) && OfBlock(a) && !OfCall(a)
    ensures QueueOk(Step(s, a))
  {
    hide Inv, Enabled, Step, QueueOk;
    if OfEnd(a) { TheQueueEnd(s, a); } else { TheQueueMoves(s, a); }
  }

  /** The counter moves with the phase. */
  lemma CallCounts(s: State, a: Action)
    requires Enabled(s, a) && OfCall(a)
    ensures Touched(s, a).Some?
    ensures var i, s' := Touched(s, a).value, Step(s, a);
      && i in s.signs && i in s'.signs && s.signs[i].phase.InBlock()
      && s'.inFlight - (if s'.signs[i].phase.InCall() then 1 else 0)
           == s.inFlight - (if s.signs[i].phase.InCall() then 1 else 0)
  {}

  lemma TheQueueCall(s: State, a: Action)
    requires Inv(s) && Enabled(s, a) && OfCall(a)
    ensures QueueOk(Step(s, a))
  {
    hide Inv, Enabled, Step, QueueOk;
    CallIs(s, a);
    CallCounts(s, a);
    RunsItsBlock(s, Touched(s, a).value);
    CountFollows(s, Touched(s, a).value);
    QueueMoves(s, Step(s, a), Touched(s, a).value);
  }

  lemma CountFollows(s: State, j: nat)
    requires QueueOk(s) && j in s.signs && s.running == Some(j)
    ensures s.inFlight == if s.signs[j].phase.InCall() then 1 else 0
  {}

  /** A step of the running block before it settles keeps the queue; the count follows the phase. */
  lemma QueueMoves(s: State, s': State, j: nat)
    requires QueueOk(s) && j in s.signs && s.running == Some(j) && j in s'.signs
    requires s' == s.(signs := s.signs[j := s'.signs[j]], inFlight := s'.inFlight)
    requires s'.inFlight == if s'.signs[j].phase.InCall() then 1 else 0
    ensures QueueOk(s')
  {}

  lemma TheQueueCancel(s: State, a: Action)
    requires Inv(s) && Enabled(s, a) && !OfBlock(a)
    ensures QueueOk(Step(s, a))
  {
    hide SignOk, CancelOk;
  }

  /** The invariant is inductive: whatever enabled step comes next keeps it. */
  lemma InvStep(s: State, a: Action)
    requires Inv(s) && Enabled(s, a)
    ensures Inv(Step(s, a))
  {
    hide SignOk, CancelOk, QueueOk;
    var s' := Step(s, a);
    forall j | j in s'.signs ensures SignOk(s', j) {
      if Touched(s, a) != Some(j) {
        if OfBlock(a) { OtherSignBlock(s, a, j); } else { OtherSignCancel(s, a, j); }
      } else if OfCall(a) { TouchedSignCall(s, a, j);
      } else if OfEnd(a) { TouchedSignEnd(s, a, j);
      } else if OfBlock(a) || a.SignWith? { TouchedSignArriving(s, a, j);
      } else { TouchedSignCancel(s, a, j); }
    }
    forall c | c in s'.cancels ensures CancelOk(s', c) {
      if OfBlock(a) { EveryCancelBlock(s, a, c); } else { EveryCancelOwn(s, a, c); }
    }
    if OfCall(a) { TheQueueCall(s, a); } else if OfBlock(a) { TheQueueBlock(s, a); } else { TheQueueCancel(s, a); }
  }

  // ---------------------------------------------------------------- runs

  /** A run: any number of enabled steps from the initial state, in any interleaving. */
  ghost predicate Run(ss: seq<State>, acts: seq<Action>) {
    && |ss| == |acts| + 1 && ss[0] == Init
    && forall k :: 0 <= k < |acts| ==> Enabled(ss[k], acts[k]) && ss[k + 1] == Step(ss[k], acts[k])
  }

  ghost predicate Reachable(s: State) {
    exists ss, acts :: Run(ss, acts) && ss[|acts|] == s
  }

  lemma {:induction false} RunInv(ss: seq<State>, acts: seq<Action>, k: nat)
    requires Run(ss, acts) && k <= |acts|
    ensures Inv(ss[k])
  {
    if k > 0 {
      hide Inv, Enabled, Step;
      RunInv(ss, acts, k - 1);
      assert Enabled(ss[k - 1], acts[k - 1]) && ss[k - 1 + 1] == Step(ss[k - 1], acts[k - 1]);
      InvStep(ss[k - 1], acts[k - 1]);
    }
  }

  lemma ReachableInv(s: State)
    requires Reachable(s)
    ensures Inv(s)
  {
    hide Inv;
    var ss, acts :| Run(ss, acts) && ss[|acts|] == s;
    RunInv(ss, acts, |acts|);
  }

  // ---------------------------------------------------------------- settling once

  /**
   * The promise of an accepted sign is answered at most once, and once it is settled it has been
   * answered exactly once unless exactly one party still owes the answer: its own block, between
   * finishPendingSign's unlock and its reply, or the cancel whose cap ran out, between its unlock and
   * its reject. A sign whose block has ended is settled.
   */
  lemma SettlesOnce(s: State, i: nat)
    requires Reachable(s) && i in s.signs
    ensures var g := s.signs[i];
      && |g.replies| <= 1
      && (g.replies != [] ==> g.settled)
      && (g.settled <==> g.replies != [] || g.phase.Owes() || CancelOwes(s, i))
      && (g.replies != [] ==> !g.phase.Owes() && !CancelOwes(s, i))
      && !(g.phase.Owes() && CancelOwes(s, i))
      && (g.phase.Finished? ==> g.settled)
  {
    ReachableInv(s);
    OwedMeansSettled(s, i);
  }

  /** A sign marked canceled never resolves with a signature, and finishPendingSign knows it. */
  lemma CanceledNeverResolves(s: State, i: nat)
    requires Reachable(s) && i in s.signs && s.signs[i].Canceled()
    ensures forall r :: r in s.signs[i].replies ==> r == Rejected("CANCELED")
    ensures s.signs[i].phase.Owes() ==> s.signs[i].phase.wasCanceled
  {
    ReachableInv(s);
    assert SignOk(s, i);
  }

  /** What one sign keeps: replies, the flags, and its place outside the system call once it is canceled. */
  predicate Grows(g: Sign, g': Sign) {
    && g.replies <= g'.replies
    && (g.settled ==> g'.settled)
    && (g.Canceled() ==> g'.canceledBy == g.canceledBy)
    && (g.Canceled() && !g.phase.InCall() ==> !g'.phase.InCall())
    && (g.Canceled() && !g.phase.Calling? ==> !g'.phase.Calling?)
    && (!g.phase.Unfinished() ==> g'.canceledBy == g.canceledBy && !g'.phase.Unfinished())
  }

  lemma MonotoneCall(s: State, a: Action, i: nat)
    requires i in s.signs && Enabled(s, a) && OfCall(a)
    ensures i in Step(s, a).signs && Grows(s.signs[i], Step(s, a).signs[i])
  {}

  lemma MonotoneEnd(s: State, a: Action, i: nat)
    requires i in s.signs && Enabled(s, a) && OfEnd(a)
    ensures i in Step(s, a).signs && Grows(s.signs[i], Step(s, a).signs[i])
  {}

  lemma MonotoneRest(s: State, a: Action, i: nat)
    requires i in s.signs && SignOk(s, i) && Enabled(s, a) && !OfCall(a) && !OfEnd(a)
    ensures i in Step(s, a).signs && Grows(s.signs[i], Step(s, a).signs[i])
  {
    hide CancelOwes;
  }

  /** One step never withdraws a reply, un-settles or un-cancels a sign, and never cancels one that finished. */
  lemma StepMonotone(s: State, a: Action, i: nat)
    requires i in s.signs && SignOk(s, i) && Enabled(s, a)
    ensures i in Step(s, a).signs && Grows(s.signs[i], Step(s, a).signs[i])
  {
    hide Enabled, Step, SignOk, Grows;
    if OfCall(a) { MonotoneCall(s, a, i); } else if OfEnd(a) { MonotoneEnd(s, a, i); } else { MonotoneRest(s, a, i); }
  }

  /**
   * Whatever happens later in the run: a reply once given is the sign's only reply for good, a canceled
   * sign stays canceled; a canceled sign that is not in flight raises no sheet any more; and one that a cancel reached
   * before or during its evaluation makes no signature call.
   */
  lemma {:induction false} LaterInRun(ss: seq<State>, acts: seq<Action>, k: nat, l: nat, i: nat)
    requires Run(ss, acts) && k <= l <= |acts| && i in ss[k].signs
    ensures i in ss[l].signs
    ensures ss[k].signs[i].replies != [] ==> ss[l].signs[i].replies == ss[k].signs[i].replies
    ensures ss[k].signs[i].Canceled() ==> ss[l].signs[i].Canceled() && Resolved !in ss[l].signs[i].replies
    ensures ss[k].signs[i].Canceled() && !ss[k].signs[i].phase.InCall() ==> !ss[l].signs[i].phase.InCall()
    ensures ss[k].signs[i].Canceled() && !ss[k].signs[i].phase.Calling? ==> !ss[l].signs[i].phase.Calling?
    decreases l - k
  {
    hide Inv, Enabled, Step, SignOk;
    RunInv(ss, acts, l);
    AtMostOne(ss[l]);
    if k < l {
      LaterInRun(ss, acts, k, l - 1, i);
      RunInv(ss, acts, l - 1);
      assert Enabled(ss[l - 1], acts[l - 1]) && ss[l - 1 + 1] == Step(ss[l - 1], acts[l - 1]);
      InvGivesSign(ss[l - 1], i);
      StepMonotone(ss[l - 1], acts[l - 1], i);
    }
  }

  lemma InvGivesSign(s: State, i: nat)
    requires Inv(s) && i in s.signs
    ensures SignOk(s, i)
  {}

  lemma AtMostOne(s: State)
    requires Inv(s)
    ensures forall i :: i in s.signs ==> |s.signs[i].replies| <= 1
                                         && (s.signs[i].Canceled() ==> Resolved !in s.signs[i].replies)
  {
    forall i | i in s.signs ensures |s.signs[i].replies| <= 1
                                    && (s.signs[i].Canceled() ==> Resolved !in s.signs[i].replies) {
      assert SignOk(s, i);
    }
  }

  // ---------------------------------------------------------------- what an uncanceled sign answers

  /** The steps of a run that decide the answer of sign `i`, in order. */
  function StepsOf(acts: seq<Action>, i: nat): seq<Action> {
    if acts == [] then []
    else
      var a := acts[|acts| - 1];
      StepsOf(acts[..|acts| - 1], i) + Taken(a, i)
  }

  predicate Decides(a: Action, i: nat) {
    (a.LoadKey? || a.Evaluate? || a.Call? || a.UncountCall?) && a.i == i
  }

  /** An evaluation that ends the sign: LocalAuthentication's cancel, fallback, system, app, enrollment and lockout answers. */
  predicate EndsSign(evaluation: Evaluation) {
    && evaluation.EvaluationFailed? && evaluation.error.domain == LocalAuthentication
    && evaluation.error.code in {-2, -3, -4, -9, -7, -8}
  }

  /** The rejection code of a system error, by domain and code. */
  predicate Spells(e: SystemError, code: string) {
    && (e.domain == CryptoTokenKit && e.code == -3 ==> code == "KEY_INVALIDATED_REASSOCIATE")
    && (e.domain == CryptoTokenKit && e.code != -3 ==> code == "BIOMETRIC_ERROR")
    && (e.domain != CryptoTokenKit ==>
        && (e.code == -2 || e.code == -3 || e.code == -128 ==> code == "CANCELED")
        && (e.code == -4 || e.code == -9 ==> code == "SYSTEM_CANCELED")
        && (e.code == -7 ==> code == "NO_BIOMETRICS_ENROLLED")
        && (e.code == -8 ==> code == "LOCKOUT_PERMANENT")
        && (e.code == -25300 ==> code == "KEY_INVALIDATED_REASSOCIATE")
        && (e.code !in {-2, -3, -128, -4, -9, -7, -8, -25300} ==> code == "BIOMETRIC_ERROR"))
  }

  /** The steps `t` of sign `i` lead to the answer: a signature, or a rejection with `code`. */
  predicate Explains(t: seq<Action>, i: nat, signed: bool, code: string) {
    || (t == [LoadKey(i, false)] && !signed && code == "NO_KEY_PROVISIONED")
    || (&& |t| == 3 && t[0] == LoadKey(i, true) && t[1].Evaluate? && EndsSign(t[1].evaluation) && t[2].UncountCall?
        && t[2].i == i && !signed && Spells(t[1].evaluation.error, code))
    || (&& |t| == 4 && t[0] == LoadKey(i, true) && t[1].Evaluate? && !EndsSign(t[1].evaluation)
        && t[2].Call? && t[2].i == i && t[3].UncountCall? && t[3].i == i
        && (t[2].result.CallFailed? ==> !signed && Spells(t[2].result.error, code))
        && (t[2].result.Signed? ==> (signed <==> t[3].derOk) && (!signed ==> code == "KEY_ERROR")))
  }

  /** How far the steps of an uncanceled sign have come, phase by phase. */
  predicate Tracks(t: seq<Action>, i: nat, g: Sign) {
    match g.phase
    case Loaded => t == [LoadKey(i, true)] && g.replies == []
    case Evaluating => t == [LoadKey(i, true)] && g.replies == []
    case Evaluated(evaluation) => t == [LoadKey(i, true), Evaluate(i, evaluation)] && g.replies == []
    case Calling => |t| == 2 && t[0] == LoadKey(i, true) && t[1].Evaluate? && !EndsSign(t[1].evaluation) && g.replies == []
    case Returned(result) =>
      && g.replies == [] && |t| >= 2 && t[0] == LoadKey(i, true) && t[1].Evaluate?
      && if EndsSign(t[1].evaluation) then |t| == 2 && result == CallFailed(t[1].evaluation.error)
         else |t| == 3 && t[2] == Call(i, result)
    case Finishing(outcome) => g.replies == [] && ExplainsOutcome(t, i, outcome)
    case Settling(final, _, _) => g.replies == [] && ExplainsOutcome(t, i, final)
    case Leaving => RepliesExplained(t, i, g.replies)
    case Left => RepliesExplained(t, i, g.replies)
    case Finished => RepliesExplained(t, i, g.replies)
    case _ => t == [] && g.replies == []
  }

  predicate ExplainsOutcome(t: seq<Action>, i: nat, o: Outcome) {
    match o
    case Signature => Explains(t, i, true, "")
    case Failure(code) => Explains(t, i, false, code)
  }

  predicate RepliesExplained(t: seq<Action>, i: nat, replies: seq<Reply>) {
    forall r <- replies :: Explains(t, i, r == Resolved, if r == Resolved then "" else r.code)
  }

  /** The steps of `i` up to state `s` are `t`. */
  predicate OnTrack(s: State, i: nat, t: seq<Action>) {
    if i in s.signs then s.signs[i].Canceled() || Tracks(t, i, s.signs[i]) else t == []
  }

  function Taken(a: Action, i: nat): seq<Action> {
    if Decides(a, i) then [a] else []
  }

  lemma TrackEntry(s: State, a: Action, i: nat, t: seq<Action>)
    requires Enabled(s, a) && OfCall(a) && !a.UncountCall? && OnTrack(s, i, t)
    ensures OnTrack(Step(s, a), i, t + Taken(a, i))
  {
    hide RepliesExplained, Spells;
    assert t + [] == t;
  }

  lemma TrackUncount(s: State, j: nat, derOk: bool, i: nat, t: seq<Action>)
    requires Enabled(s, UncountCall(j, derOk)) && OnTrack(s, i, t)
    ensures OnTrack(Step(s, UncountCall(j, derOk)), i, t + Taken(UncountCall(j, derOk), i))
  {
    hide RepliesExplained;
    assert t + [] == t;
  }

  lemma TrackCall(s: State, a: Action, i: nat, t: seq<Action>)
    requires Enabled(s, a) && OfCall(a) && OnTrack(s, i, t)
    ensures OnTrack(Step(s, a), i, t + Taken(a, i))
  {
    hide Enabled, Step, OnTrack;
    if a.UncountCall? { TrackUncount(s, a.i, a.derOk, i, t); } else { TrackEntry(s, a, i, t); }
  }

  lemma TrackFinish(s: State, i: nat, j: nat, t: seq<Action>)
    requires Enabled(s, FinishLocked(j)) && OnTrack(s, i, t)
    ensures OnTrack(Step(s, FinishLocked(j)), i, t)
  {
    hide Explains;
  }

  /** The reply is the outcome, unless the sign is canceled. */
  lemma TrackSettle(s: State, i: nat, j: nat, t: seq<Action>)
    requires Enabled(s, Settle(j)) && OnTrack(s, i, t)
    requires i in s.signs && s.signs[i].phase.Settling? ==> s.signs[i].phase.wasCanceled == s.signs[i].Canceled()
    ensures OnTrack(Step(s, Settle(j)), i, t)
  {
    hide Explains;
  }

  lemma TrackLeave(s: State, a: Action, i: nat, t: seq<Action>)
    requires Enabled(s, a) && (a.Leave? || a.EndBlock?) && OnTrack(s, i, t)
    ensures OnTrack(Step(s, a), i, t)
  {
    hide Explains, RepliesExplained;
  }

  lemma TrackEnd(s: State, a: Action, i: nat, t: seq<Action>)
    requires Inv(s) && Enabled(s, a) && OfEnd(a) && OnTrack(s, i, t)
    ensures OnTrack(Step(s, a), i, t + Taken(a, i))
  {
    hide Step, OnTrack, Enabled, CancelOk, QueueOk, CancelOwes;
    assert t + [] == t;
    if i in s.signs { assert SignOk(s, i); }
    match a
    case FinishLocked(j) => TrackFinish(s, i, j, t);
    case Settle(j) => TrackSettle(s, i, j, t);
    case _ => TrackLeave(s, a, i, t);
  }

  lemma TrackQueue(s: State, a: Action, i: nat, t: seq<Action>)
    requires Inv(s) && Enabled(s, a) && (a.SignWith? || a.Enqueue? || a.Begin?) && OnTrack(s, i, t)
    ensures OnTrack(Step(s, a), i, t)
  {
    hide Explains, CancelOk, QueueOk, CancelOwes;
    SignsAreOlder(s);
    if i in s.signs { assert SignOk(s, i); }
  }

  lemma SignsAreOlder(s: State)
    requires Inv(s)
    ensures s.nextSign !in s.signs
  {
    forall i | i in s.signs ensures i < s.nextSign { assert SignOk(s, i); }
  }

  lemma TrackCancel(s: State, a: Action, i: nat, t: seq<Action>)
    requires Inv(s) && Enabled(s, a) && !OfBlock(a) && !a.SignWith? && OnTrack(s, i, t)
    ensures OnTrack(Step(s, a), i, t)
  {
    hide Explains, QueueOk, SignOk, Tracks;
    if a.CapLocked? || a.CapSettle? { assert CancelOk(s, a.c); }
  }

  lemma TrackRest(s: State, a: Action, i: nat, t: seq<Action>)
    requires Inv(s) && Enabled(s, a) && !OfCall(a) && !OfEnd(a) && OnTrack(s, i, t)
    ensures OnTrack(Step(s, a), i, t + Taken(a, i))
  {
    hide Inv, Enabled, Step, OnTrack;
    assert t + [] == t;
    if a.SignWith? || a.Enqueue? || a.Begin? { TrackQueue(s, a, i, t); } else { TrackCancel(s, a, i, t); }
  }

  lemma {:induction false} RunTracks(ss: seq<State>, acts: seq<Action>, k: nat, i: nat)
    requires Run(ss, acts) && k <= |acts|
    ensures OnTrack(ss[k], i, StepsOf(acts[..k], i))
  {
    hide Inv, Enabled, Step, Tracks;
    if k > 0 {
      RunTracks(ss, acts, k - 1, i);
      RunInv(ss, acts, k - 1);
      var s, a := ss[k - 1], acts[k - 1];
      assert Enabled(s, a) && ss[k - 1 + 1] == Step(s, a);
      assert acts[..k][..k - 1] == acts[..k - 1];
      if OfCall(a) { TrackCall(s, a, i, StepsOf(acts[..k - 1], i)); }
      else if OfEnd(a) { TrackEnd(s, a, i, StepsOf(acts[..k - 1], i)); }
      else { TrackRest(s, a, i, StepsOf(acts[..k - 1], i)); }
    }
  }

  /**
   * What an uncanceled sign answers, over any run: it resolves exactly when its system call signed and the
   * signature converted, and otherwise rejects with the code of its own cause.
   */
  lemma AnswersFollowCause(ss: seq<State>, acts: seq<Action>, k: nat, i: nat)
    requires Run(ss, acts) && k <= |acts| && i in ss[k].signs && !ss[k].signs[i].Canceled()
    ensures var g, t := ss[k].signs[i], StepsOf(acts[..k], i);
      && (forall r <- g.replies :: Explains(t, i, r == Resolved, if r == Resolved then "" else r.code))
      && (g.replies != [] ==> (g.replies == [Resolved] <==> |t| == 4 && t[2] == Call(i, Signed) && t[3] == UncountCall(i, true)))
      && (g.phase.Leaving? || g.phase.Left? || g.phase.Finished? ==> |g.replies| == 1)
  {
    hide Inv, Enabled, Step, Tracks, Explains;
    RunTracks(ss, acts, k, i);
    RunInv(ss, acts, k);
    InvGivesSign(ss[k], i);
    RepliesInOrder(ss[k], i);
    FinalTrack(StepsOf(acts[..k], i), i, ss[k].signs[i]);
  }

  lemma FinalTrack(t: seq<Action>, i: nat, g: Sign)
    requires Tracks(t, i, g) && |g.replies| <= 1
    ensures RepliesExplained(t, i, g.replies)
    ensures g.replies != [] ==>
      (g.replies == [Resolved] <==> |t| == 4 && t[2] == Call(i, Signed) && t[3] == UncountCall(i, true))
  {
    if g.replies != [] {
      assert g.replies[0] in g.replies;
      assert g.replies == [g.replies[0]];
    }
  }

  lemma RepliesInOrder(s: State, i: nat)
    requires i in s.signs && SignOk(s, i)
    ensures |s.signs[i].replies| <= 1
    ensures !s.signs[i].Canceled() && (s.signs[i].phase.Leaving? || s.signs[i].phase.Left? || s.signs[i].phase.Finished?)
      ==> |s.signs[i].replies| == 1
  {}

  // ---------------------------------------------------------------- the serial queue

  /** The signs handed to the queue, in order. */
  function Enqueued(acts: seq<Action>): seq<nat> {
    if acts == [] then []
    else
      var a := acts[|acts| - 1];
      Enqueued(acts[..|acts| - 1]) + if a.Enqueue? then [a.i] else []
  }

  /** The signs whose blocks have started, in order. */
  function Begun(ss: seq<State>, acts: seq<Action>, k: nat): seq<nat>
    requires k <= |acts| < |ss|
  {
    if k == 0 then []
    else Begun(ss, acts, k - 1) + if acts[k - 1].Begin? && ss[k - 1].queue != [] then [ss[k - 1].queue[0]] else []
  }

  lemma QueueStep(s: State, a: Action)
    requires Enabled(s, a)
    ensures a.Begin? ==> s.queue != [] && Step(s, a).queue == s.queue[1..] && Step(s, a).running == Some(s.queue[0])
    ensures !a.Begin? ==> Step(s, a).queue == s.queue + if a.Enqueue? then [a.i] else []
  {}

  /** Blocks start in the order they were handed to the queue, each once. */
  lemma {:induction false} BlocksStartInOrder(ss: seq<State>, acts: seq<Action>, k: nat)
    requires Run(ss, acts) && k <= |acts|
    ensures Begun(ss, acts, k) + ss[k].queue == Enqueued(acts[..k])
  {
    hide Enabled, Step;
    if k > 0 {
      BlocksStartInOrder(ss, acts, k - 1);
      var s, a := ss[k - 1], acts[k - 1];
      assert Enabled(s, a) && ss[k - 1 + 1] == Step(s, a);
      QueueStep(s, a);
      assert acts[..k][..k - 1] == acts[..k - 1];
      if a.Begin? { assert s.queue == [s.queue[0]] + s.queue[1..]; }
    }
  }

  // ---------------------------------------------------------------- what a cancel's answer means

  /**
   * When a cancel answers `{canceled: true}`, the outcome of the sign it held is committed: it is settled
   * and canceled, so CANCELED is the only reply it has or will have. The reply has already been delivered
   * if and only if the sign's block is not between finishPendingSign's unlock and its reply.
   */
  lemma CancelAnswersCommitted(s: State, c: nat)
    requires Reachable(s) && c in s.cancels && s.cancels[c].held.Some?
    requires s.cancels[c].phase.Answering? || s.cancels[c].phase.Answered?
    ensures var i := s.cancels[c].held.value;
      && i in s.signs && s.signs[i].settled && s.signs[i].canceledBy == Some(c)
      && (s.signs[i].replies == [CANCELED] <==> !s.signs[i].phase.Owes())
      && (s.signs[i].replies == [] <==> s.signs[i].phase.Owes() && s.signs[i].phase.wasCanceled)
  {
    ReachableInv(s);
    assert CancelOk(s, c);
    var i := s.cancels[c].held.value;
    assert SignOk(s, i);
    var replies := s.signs[i].replies;
    if replies != [] {
      assert replies[0] in replies;
      assert replies == [CANCELED];
    }
  }

  lemma Go(s: State, a: Action) returns (s': State)
    requires Reachable(s) && Enabled(s, a)
    ensures Reachable(s') && s' == Step(s, a)
  {
    hide Enabled, Step;
    var ss, acts :| Run(ss, acts) && ss[|acts|] == s;
    s' := Step(s, a);
    var ss', acts' := ss + [s'], acts + [a];
    forall k | 0 <= k < |acts'| ensures Enabled(ss'[k], acts'[k]) && ss'[k + 1] == Step(ss'[k], acts'[k]) {
      if k < |acts| { assert acts'[k] == acts[k] && ss'[k] == ss[k] && ss'[k + 1] == ss[k + 1]; }
    }
    assert Run(ss', acts');
  }

  /** The first sign's block has started. */
  lemma FirstBlockStarts() returns (s: State)
    ensures Reachable(s)
    ensures s == State(map[0 := Sign(Started, None, false, [])], map[], Some(0), 0, [], Some(0), 1, 0)
  {
    assert Run([Init], []);
    hide Reachable, Run;
    s := Go(Init, SignWith);
    s := Go(s, Enqueue(0));
    s := Go(s, Begin);
  }

  /** It is cancelled while its key loads, and its block leaves finishPendingSign's lock region. */
  lemma CanceledBlockUnlocks() returns (s: State)
    ensures Reachable(s)
    ensures s.signs == map[0 := Sign(Settling(Failure("NO_KEY_PROVISIONED"), true, false), Some(0), true, [])]
    ensures s.cancels == map[0 := Cancel(Some(0), Invalidating)]
  {
    hide Reachable, Run;
    s := FirstBlockStarts();
    s := Go(s, CheckEntry(0));
    s := Go(s, LoadKey(0, false));
    s := Go(s, CancelLocked);
    s := Go(s, FinishLocked(0));
  }

  /**
   * The comment on cancelPendingSign says it resolves only after the sign's promise has rejected. This run
   * shows otherwise: the cap runs out after the block has set `settled` and unlocked, so the cancel does not
   * reject, and it answers before the block does. CancelAnswersCommitted gives the exact condition.
   */
  lemma CancelMayAnswerEarly() returns (s: State)
    ensures Reachable(s)
    ensures 0 in s.cancels && s.cancels[0] == Cancel(Some(0), Answered)
    ensures 0 in s.signs && s.signs[0].replies == [] && s.signs[0].phase.Owes()
  {
    hide Reachable, Run;
    s := CanceledBlockUnlocks();
    s := Go(s, Invalidate(0));
    s := Go(s, CapRunsOut(0));
    s := Go(s, CapLocked(0));
    s := Go(s, CapSettle(0));
    s := Go(s, Answer(0));
  }

  // ---------------------------------------------------------------- the system call

  /** The counter is 0 or 1, and it is the number of blocks inside the system call. */
  lemma InFlightCounts(s: State)
    requires Reachable(s)
    ensures 0 <= s.inFlight <= 1
    ensures |set i | i in s.signs && s.signs[i].phase.InCall()| == s.inFlight
  {
    ReachableInv(s);
    var inside := set i | i in s.signs && s.signs[i].phase.InCall();
    forall i | i in inside ensures s.running == Some(i) { assert SignOk(s, i); }
    if s.inFlight == 1 {
      assert inside == {s.running.value};
    } else {
      assert inside == {};
    }
  }

  /**
   * While a sign is unfinished and no cancel has claimed it, it holds the slot and nobody else is inside
   * the system call: an accepted sign never waits behind another sign's sheet.
   */
  lemma NeverBehindAnothersCall(s: State, i: nat, x: nat)
    requires Reachable(s) && i in s.signs && s.signs[i].phase.Unfinished() && !s.signs[i].Canceled()
    requires x in s.signs && s.signs[x].phase.InCall()
    ensures s.slot == Some(i) && x == i
  {
    ReachableInv(s);
    assert SignOk(s, i) && SignOk(s, x);
  }

  /** If the slot is held, an in-flight call belongs to the holder; every other unfinished sign is canceled. */
  lemma SlotHolderOnly(s: State, i: nat)
    requires Reachable(s) && i in s.signs && s.signs[i].phase.Unfinished() && s.slot != Some(i)
    ensures s.signs[i].Canceled()
    ensures s.slot.Some? ==> !s.signs[i].phase.InCall()
  {
    ReachableInv(s);
    assert SignOk(s, i);
  }

  /**
   * A sign started while `i` settles - from the reply of its block until the block ends - is refused
   * if and only if a newer sign already holds the slot.
   */
  lemma BusyWhileSettling(s: State, i: nat)
    requires Reachable(s) && i in s.signs && s.signs[i].phase.InBlock() && !s.signs[i].phase.Unfinished()
    ensures s.inFlight == 0
    ensures Busy(s) <==> s.slot.Some? && s.slot.value > i
  {
    ReachableInv(s);
    assert SignOk(s, i);
    if s.slot.Some? { assert SignOk(s, s.slot.value); }
  }

  /** With the slot empty, a refusal means the system call of a canceled sign has not returned. */
  lemma BusyWithEmptySlot(s: State)
    requires Reachable(s) && Busy(s) && s.slot.None?
    ensures s.running.Some? && s.running.value in s.signs
    ensures s.signs[s.running.value].phase.InCall() && s.signs[s.running.value].Canceled()
  {
    ReachableInv(s);
    assert SignOk(s, s.running.value);
  }

  // ---------------------------------------------------------------- the lock regions as the module runs them

  /** The module's fields; each method is one region under `pendingSignLock`. */
  class AttestationNative {
    var signs: map<nat, Sign>
    var cancels: map<nat, Cancel>
    var pendingSign: Option<nat>
    var systemCallsInFlight: int
    var queue: seq<nat>
    var running: Option<nat>
    var nextSign: nat
    var nextCancel: nat

    ghost function View(): State reads this {
      State(signs, cancels, pendingSign, systemCallsInFlight, queue, running, nextSign, nextCancel)
    }

    constructor ()
      ensures View() == Init
    {
      signs, cancels, pendingSign, systemCallsInFlight := map[], map[], None, 0;
      queue, running, nextSign, nextCancel := [], None, 0, 0;
    }

    /** 613-625. None is the PROMPT_BUSY refusal. */
    method SignWithRegion() returns (id: Option<nat>)
      requires Inv(View())
      modifies this
      ensures View() == Step(old(View()), Action.SignWith) && Inv(View())
      ensures id == if Busy(old(View())) then None else View().slot
    {
      InvStep(View(), Action.SignWith);
      if pendingSign.Some? || systemCallsInFlight > 0 {
        return None;
      }
      var pending := nextSign;
      nextSign := nextSign + 1;
      signs := signs[pending := Sign(Reserved, None, false, [])];
      pendingSign := Some(pending);
      return Some(pending);
    }

    /** 646-655. True when the system call may be raised. */
    method CountCallRegion(pending: nat) returns (counted: bool)
      requires Inv(View()) && Enabled(View(), CountCall(pending))
      modifies this
      ensures View() == Step(old(View()), CountCall(pending)) && Inv(View())
      ensures counted ==> View().slot == Some(pending) && View().inFlight == 1
    {
      InvStep(View(), CountCall(pending));
      assert SignOk(View(), pending);
      if signs[pending].Canceled() {
        signs := signs[pending := signs[pending].(phase := Finishing(Failure("CANCELED")))];
        return false;
      }
      systemCallsInFlight := systemCallsInFlight + 1;
      signs := signs[pending := signs[pending].(phase := Evaluating)];
      return true;
    }

    /** 710-763: the counter first, then the outcome. */
    method UncountCallRegion(pending: nat, derOk: bool)
      requires Inv(View()) && Enabled(View(), UncountCall(pending, derOk))
      modifies this
      ensures View() == Step(old(View()), UncountCall(pending, derOk)) && Inv(View())
      ensures View().inFlight == 0
    {
      InvStep(View(), UncountCall(pending, derOk));
      assert SignOk(View(), pending);
      systemCallsInFlight := systemCallsInFlight - 1;
      var outcome := Signature;
      match signs[pending].phase.result {
        case CallFailed(error) => outcome := Failure(FailureCode(error));
        case Signed => if !derOk { outcome := Failure("KEY_ERROR"); }
      }
      signs := signs[pending := signs[pending].(phase := Finishing(outcome))];
    }

    /** 775-780. The slot is cleared only by the sign that holds it. */
    method FinishPendingSignRegion(pending: nat) returns (wasCanceled: bool, alreadySettled: bool)
      requires Inv(View()) && Enabled(View(), FinishLocked(pending))
      modifies this
      ensures View() == Step(old(View()), FinishLocked(pending)) && Inv(View())
      ensures wasCanceled <==> old(View()).slot != Some(pending)
      ensures alreadySettled ==> wasCanceled
      ensures View().slot == if wasCanceled then old(View()).slot else None
    {
      InvStep(View(), FinishLocked(pending));
      assert SignOk(View(), pending);
      var g := signs[pending];
      wasCanceled := g.Canceled();
      alreadySettled := g.settled;
      signs := signs[pending := g.(settled := true, phase := Settling(g.phase.outcome, wasCanceled, alreadySettled))];
      if pendingSign == Some(pending) { pendingSign := None; }
    }

    /** 828-837. None answers `{canceled: false}`. */
    method CancelPendingSignRegion() returns (held: Option<nat>)
      requires Inv(View())
      modifies this
      ensures View() == Step(old(View()), CancelLocked) && Inv(View())
      ensures held == old(View()).slot && View().slot == None
    {
      InvStep(View(), CancelLocked);
      held := pendingSign;
      if held.Some? {
        signs := signs[held.value := signs[held.value].(canceledBy := Some(nextCancel))];
        cancels := cancels[nextCancel := Cancel(held, Invalidating)];
      } else {
        cancels := cancels[nextCancel := Cancel(None, Answered)];
      }
      pendingSign := None;
      nextCancel := nextCancel + 1;
    }

    /** 845-848. True when this cancel must reject the promise. */
    method CapRegion(cancel: nat) returns (settleHere: bool)
      requires Inv(View()) && Enabled(View(), CapLocked(cancel))
      modifies this
      ensures View() == Step(old(View()), CapLocked(cancel)) && Inv(View())
      ensures settleHere <==> View().cancels[cancel].phase == CapSettling(true)
    {
      InvStep(View(), CapLocked(cancel));
      var pending := cancels[cancel].held.value;
      settleHere := !signs[pending].settled;
      signs := signs[pending := signs[pending].(settled := true)];
      cancels := cancels[cancel := cancels[cancel].(phase := CapSettling(settleHere))];
    }
  }
}
