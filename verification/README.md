# VoteTorrent: a verified model of its stateful core

This project models, in Dafny, the parts of VoteTorrent whose correctness depends on state, interleaving or
arithmetic, and proves what those parts are for. `dafny verify dfyconfig.toml` checks all of it.

Each module follows one source file (or one state machine of it):

- **StructuredClone** - the memoised graph copy behind `structuredClone`. A heap is a map from references to
  objects; the copier is a class whose memo and heap grow during the recursion. The result is a heap isomorphism.
- **SignProtocol** - the one-slot biometric sign and cancel protocol of the iOS module. Every region under
  `pendingSignLock` is one atomic step; the evaluation, the system call, the queue and the two-second cap are
  nondeterministic. Invariants hold over every run. The class `AttestationNative` runs the lock regions themselves.
- **WrapKeys** - the alias-keyed wrap-key store of the same file, with an operating system whose no-UI reads may
  answer or not, and ideal authenticated encryption.
- **CanonicalTime**, **Sweep**, **Claim**, **Lifecycle** - the rendezvous service's retention sweep and single-use
  claims. CanonicalTime is the calendar arithmetic (section 21.4.1 of ECMA-262) and the string order; Sweep is one
  sweep with a throwing store and a crash after any operation; Claim is one caller in the claims directory;
  Lifecycle lets any number of claims, sweeps and crashes interleave.
- **Utf8** - the text decoder, against the grammar of section 4 of RFC 3629.
- **SignatureEncoding** - DER to low-S compact signatures: the byte-array arithmetic and the parser, against
  section 8.3 of ITU-T X.690.
- **AbortSignals** - abort reasons and `AbortSignal.any` over a DAG of signals, with listeners taken off while the
  signals they sit on are dispatching.
- **CodeUnits**, **Json**, **OpenedSet** - the opened-vote preimage: string order and sorting, JSON text of strings
  and arrays (section 7 of RFC 8259), and the canonical form.
- **Batching** - WebSocket sends joined per turn, against plain sending.
- **JsValues**, **RollDisclosure**, **ElectionIndex** - the public pages' disclosure policy with its small-district
  fold, and the walk over the held networks with its merged list.

Loops, classes and lock regions in the source are methods here; each is proved equal to a specification function or
step, and the properties are lemmas about those.

## Where the code and its own documentation differ

The code is modelled as it is.

- The comment on `cancelPendingSign` says it answers `{canceled: true}` only after the sign's promise has rejected.
  `finishPendingSign` sets `settled` under the lock and rejects after unlocking, so a cap that runs out in between
  neither rejects nor waits: `CancelMayAnswerEarly` is such a run and `CancelAnswersCommitted` gives the exact
  condition. What the answer does mean is that CANCELED is the sign's only possible reply.
- `mergeHeldElections` says two runs can never disagree. Rows of one day, election id and network that differ in
  title keep the order they came in: `RenamedElectionDependsOnOrder` is a network held twice whose election is renamed
  between the two reads, and `MergeIgnoresOrderIff` gives the exact condition.
- `openedSetPreimage` is a canonical form exactly when two answers of an entry to one question are the same answer
  (`TextIgnoresOrderIffAgreeing`); `TwoAnswersBreakTheForm` is an opened set with two preimages.
- `subtract256` assumes its first operand is the larger, and `derToCompactLowSHex` does not check that s is below the
  group order; for a larger s the result wraps and is not low (`LowSIsLow`), as it is for the DER form of s = 2^256 - 1
  (`HighestSIsNotNormalised`).
- The comment in `loadWrapKey` says NO_WRAP_KEY is answered only when the existence probe did not see the item. For a
  call that does not ask for authentication an invalidated item is NO_WRAP_KEY even when the probe or the duplicate add
  saw it: `SeenItemIsCalledMissing`, with the exact answer in `InvalidatedIffSeen`.
- The comment on `loadWrapKey` says a policy mismatch is rejected, never reconciled. It is rejected exactly when the
  no-UI marker read answers (`OtherPolicyRefusedIffMarked`); when it does not, a wrap that asks for authentication seals
  under a key made without it, and the blob opens without authentication: `AuthWrapUnderUnprotectedKey`.

## Model

| member | source | states |
|---|---|---|
| StructuredClone.StructuredClone | apps/VoteTorrentAuthority/polyfills/hermes-structured-clone.js:140-148 | falls back iff options were given or a function, symbol or exotic object is reachable; otherwise the result is a clone of the graph, every copy holding part by part what its source holds; the source is untouched; terminates |
| StructuredClone.Cloner.CloneValue | apps/VoteTorrentAuthority/polyfills/hermes-structured-clone.js:48-68 | any value: its renaming under a memo whose new entries are reachable and finished, or an unsupported value is reachable; ends because each call has fewer unmet objects |
| StructuredClone.Cloner.Remember | apps/VoteTorrentAuthority/polyfills/hermes-structured-clone.js:70-73 | the copy is fresh and memoised, everything else stays |
| StructuredClone.Cloner.CloneLeaf | apps/VoteTorrentAuthority/polyfills/hermes-structured-clone.js:61-64 | buffers, dates and regular expressions are rebuilt from their own data |
| StructuredClone.Cloner.ClonePlainObject | apps/VoteTorrentAuthority/polyfills/hermes-structured-clone.js:75-91 | the finished copy has the same keys in order, also an own `__proto__`, with cloned values, even through cycles |
| StructuredClone.Cloner.CloneArray | apps/VoteTorrentAuthority/polyfills/hermes-structured-clone.js:96-106 | same length, holes stay holes, elements cloned |
| StructuredClone.Cloner.CloneView | apps/VoteTorrentAuthority/polyfills/hermes-structured-clone.js:109-113 | the copy views the one copy of its buffer with the same offset and size |
| StructuredClone.Cloner.CloneMap | apps/VoteTorrentAuthority/polyfills/hermes-structured-clone.js:115-125 | entries in order, keys and values cloned; distinct keys stay distinct, so none is lost |
| StructuredClone.Cloner.CloneSet | apps/VoteTorrentAuthority/polyfills/hermes-structured-clone.js:127-135 | items in order, cloned; distinct items stay distinct |
| StructuredClone.FinishedCoversReachable | apps/VoteTorrentAuthority/polyfills/hermes-structured-clone.js:44-68 | when every met object is finished, everything reachable was met and nothing reachable is unsupported |
| StructuredClone.CloneIsomorphic | apps/VoteTorrentAuthority/polyfills/hermes-structured-clone.js:44-147 | renaming is a one-to-one correspondence between what is reachable from the source and from the clone, in both directions |
| StructuredClone.CloneHolds | apps/VoteTorrentAuthority/polyfills/hermes-structured-clone.js:48-135 | every copy is of the same kind as its source with the same keys, length, holes, offset, size, bytes, time, pattern and primitives, and its references are the references to the copies |
| StructuredClone.CloneFollows | apps/VoteTorrentAuthority/polyfills/hermes-structured-clone.js:44-147 | every path in the source is, renamed, a path in the clone |
| StructuredClone.CloneReflects | apps/VoteTorrentAuthority/polyfills/hermes-structured-clone.js:44-147 | every path in the clone is the renaming of a path in the source |
| StructuredClone.CloneDisjoint | apps/VoteTorrentAuthority/polyfills/hermes-structured-clone.js:44-147 | no object reachable from the clone existed before |
| StructuredClone.CloneHeapOk | apps/VoteTorrentAuthority/polyfills/hermes-structured-clone.js:75-135 | the heap stays well formed: no dangling reference, no duplicate key or item, views over buffers |
| SignProtocol.InvStep | packages/attestation-native/ios/AttestationNativeModule.swift:599-856 | the protocol invariant is inductive over every step, with any interleaving |
| SignProtocol.ReachableInv | packages/attestation-native/ios/AttestationNativeModule.swift:599-856 | the invariant holds in every reachable state |
| SignProtocol.SettlesOnce | packages/attestation-native/ios/AttestationNativeModule.swift:536-555 | a promise is answered at most once; it is settled iff it was answered or exactly one party still owes the answer; a sign whose block ended is settled |
| SignProtocol.AnswersFollowCause | packages/attestation-native/ios/AttestationNativeModule.swift:637-803 | over any run an uncanceled sign resolves iff its system call signed and the signature converted; otherwise it rejects with the code of its own cause, by domain and code |
| SignProtocol.CanceledNeverResolves | packages/attestation-native/ios/AttestationNativeModule.swift:767-803 | the only reply of a canceled sign is CANCELED, and its own block knows it |
| SignProtocol.LaterInRun | packages/attestation-native/ios/AttestationNativeModule.swift:599-856 | over the rest of any run a reply stays the only one, a canceled sign stays canceled and never resolves, and outside the system call it never enters it, and one canceled before or during its evaluation makes no signature call |
| SignProtocol.CancelAnswersCommitted | packages/attestation-native/ios/AttestationNativeModule.swift:826-856 | a cancel that answers true has its sign settled and canceled; CANCELED is already delivered iff the sign's block is not between its unlock and its reply |
| SignProtocol.CancelMayAnswerEarly | packages/attestation-native/ios/AttestationNativeModule.swift:805-807 | a reachable state where the cancel has answered and the promise has not been rejected yet |
| SignProtocol.InFlightCounts | packages/attestation-native/ios/AttestationNativeModule.swift:572-576 | the counter is 0 or 1 and is the number of blocks inside the system call |
| SignProtocol.BlocksStartInOrder | packages/attestation-native/ios/AttestationNativeModule.swift:568-569 | over any run blocks start in the order they were handed to the serial queue, each once |
| SignProtocol.NeverBehindAnothersCall | packages/attestation-native/ios/AttestationNativeModule.swift:590-598 | an unfinished, uncanceled sign holds the slot, and no other sign is inside the system call |
| SignProtocol.SlotHolderOnly | packages/attestation-native/ios/AttestationNativeModule.swift:805-823 | every unfinished sign without the slot is canceled, and out of the system call while the slot is held |
| SignProtocol.BusyWhileSettling | packages/attestation-native/ios/AttestationNativeModule.swift:708-712 | a sign started while another settles is refused iff a newer sign took the slot |
| SignProtocol.BusyWithEmptySlot | packages/attestation-native/ios/AttestationNativeModule.swift:614-621 | with the slot empty a refusal means a canceled sign is still inside the system call |
| SignProtocol.AttestationNative.SignWithRegion | packages/attestation-native/ios/AttestationNativeModule.swift:614-624 | the reservation is the protocol's step; refused iff the slot is held or a call is in flight |
| SignProtocol.AttestationNative.CountCallRegion | packages/attestation-native/ios/AttestationNativeModule.swift:646-655 | a counted call belongs to the slot holder and is the only one |
| SignProtocol.AttestationNative.UncountCallRegion | packages/attestation-native/ios/AttestationNativeModule.swift:708-763 | after it no call is in flight; the outcome follows the error table, domain first |
| SignProtocol.AttestationNative.FinishPendingSignRegion | packages/attestation-native/ios/AttestationNativeModule.swift:775-780 | canceled iff the slot is no longer its own; a newer holder's slot is left alone |
| SignProtocol.AttestationNative.CancelPendingSignRegion | packages/attestation-native/ios/AttestationNativeModule.swift:828-837 | takes whatever holds the slot and empties it, in one step |
| SignProtocol.AttestationNative.CapRegion | packages/attestation-native/ios/AttestationNativeModule.swift:842-851 | the cap settles the promise itself iff nobody has |
| WrapKeys.StepKeeps | packages/attestation-native/ios/AttestationNativeModule.swift:923-1023 | whatever the system answers, key bytes and policy stay until deletion, only a wrap creates, only the vote-record family can be deleted, only an enrollment change invalidates |
| WrapKeys.RunKeeps | packages/attestation-native/ios/AttestationNativeModule.swift:923-1147 | over any run of commands that spares an alias its key bytes and policy stay |
| WrapKeys.NoWrapKeyMeansNoUsableKey | packages/attestation-native/ios/AttestationNativeModule.swift:988-1021 | the replaceable NO_WRAP_KEY is answered only when the data read has nothing to return, however the no-UI reads behave |
| WrapKeys.SealedIsNeverReplaceable | packages/attestation-native/ios/AttestationNativeModule.swift:988-1147 | after a sealed wrap and any run that spares the alias, while its key is valid, no wrap or unwrap of it answers NO_WRAP_KEY |
| WrapKeys.InvalidatedIffSeen | packages/attestation-native/ios/AttestationNativeModule.swift:900-1018 | the exact answer for a missing or invalidated item under either requested policy: KEY_INVALIDATED iff the call asks for authentication and the marker read, the probe or the duplicate add saw the item |
| WrapKeys.SeenItemIsCalledMissing | packages/attestation-native/ios/AttestationNativeModule.swift:988-1018 | a run after which a call without authentication answers NO_WRAP_KEY for an item it has just seen, on unwrap and on wrap |
| WrapKeys.OtherPolicyRefusedIffMarked | packages/attestation-native/ios/AttestationNativeModule.swift:923-1022 | a usable item of the other policy is refused by name iff the marker read answers; otherwise its key is handed out |
| WrapKeys.AuthWrapUnderUnprotectedKey | packages/attestation-native/ios/AttestationNativeModule.swift:937-982 | a run in which a wrap asking for authentication seals under an unprotected key and the blob opens without authentication |
| WrapKeys.EarlierBlobsOpen | packages/attestation-native/ios/AttestationNativeModule.swift:1059-1147 | a sealed blob opens after any later run that spares its alias, while the key is valid; the one refusal is the named policy mismatch |
| WrapKeys.DeletedKeyIsGone | packages/attestation-native/ios/AttestationNativeModule.swift:1290-1316 | after a deletion no later run opens a blob sealed under the deleted key |
| WrapKeys.OpensOnlyWhatWasSealed | packages/attestation-native/ios/AttestationNativeModule.swift:1126-1147 | a blob opens only under its own key and additional data and to what was sealed; any other is a tag mismatch |
| WrapKeys.RejectionsAre | packages/attestation-native/ios/AttestationNativeModule.swift:927-1021 | the code of each refusal: alias, policy, generation or add, no item |
| WrapKeys.FailedReadsAre | packages/attestation-native/ios/AttestationNativeModule.swift:1025-1041 | the code of each cause of a failed data read |
| WrapKeys.DeletionsAre | packages/attestation-native/ios/AttestationNativeModule.swift:1297-1314 | the answer to a deletion in each of its four cases |
| WrapKeys.VoteRecordAlias | packages/attestation-native/ios/AttestationNativeModule.swift:1285-1288 | an alias of the vote-record family is valid and deletable |
| WrapKeys.OtherAlias | packages/attestation-native/ios/AttestationNativeModule.swift:867-872 | an alias outside the family is valid |
| WrapKeys.ForeignAliasesStay | packages/attestation-native/ios/AttestationNativeModule.swift:1285-1288 | a deletable alias starts with the vote-record name and ends in a digit |
| WrapKeys.DeletableIsValid | packages/attestation-native/ios/AttestationNativeModule.swift:1285-1288 | every deletable alias is a valid one |
| WrapKeys.SecretWrap.LoadWrapKey | packages/attestation-native/ios/AttestationNativeModule.swift:927-1023 | the branches read, add and probe as the store's specification says |
| WrapKeys.SecretWrap.WrapSecret | packages/attestation-native/ios/AttestationNativeModule.swift:1060-1095 | is the Wrap step; a sealed blob is under the key the alias then has, an item is added only where there was none, and no other alias changes |
| WrapKeys.SecretWrap.UnwrapSecret | packages/attestation-native/ios/AttestationNativeModule.swift:1101-1147 | is the Unwrap step and never writes |
| WrapKeys.SecretWrap.DeleteWrapKey | packages/attestation-native/ios/AttestationNativeModule.swift:1294-1316 | is the Delete step; only a vote-record alias is removed and no other changes, a rejection changes nothing, and the answer tells whether there was a key |
| CanonicalTime.EpochOrder | packages/bootstrap-rendezvous-service/src/sweeper.ts:34-45 | field order is the order of instants, but for midnight written as 24:00:00 and as the next 00:00:00 |
| CanonicalTime.MonthsAre | packages/bootstrap-rendezvous-service/src/sweeper.ts:152-156 | the length of every month, adding up to the year |
| CanonicalTime.LeapYearsAre | packages/bootstrap-rendezvous-service/src/sweeper.ts:152-156 | every fourth year, but of the centuries only every fourth |
| CanonicalTime.NextDay | packages/bootstrap-rendezvous-service/src/sweeper.ts:152-156 | within a month the next date is 86400 seconds later |
| CanonicalTime.NextMonth | packages/bootstrap-rendezvous-service/src/sweeper.ts:152-156 | so is the first of the next month after the last of this one |
| CanonicalTime.NextYear | packages/bootstrap-rendezvous-service/src/sweeper.ts:152-156 | and the first of January after the last of December |
| CanonicalTime.SecondsOfDay | packages/bootstrap-rendezvous-service/src/sweeper.ts:152-156 | the time of day counts in seconds, and the start of 1970 is zero |
| CanonicalTime.CivilRoundTrip | packages/bootstrap-rendezvous-service/src/sweeper.ts:152-156 | civil date to epoch and back, across leap years and every borrow |
| CanonicalTime.FromEpoch | packages/bootstrap-rendezvous-service/src/sweeper.ts:152-156 | every writable instant is the epoch of a real datetime |
| CanonicalTime.ParseFormat | packages/bootstrap-rendezvous-service/src/sweeper.ts:156-159 | writing and reading back is the identity, and what is written passes the pattern |
| CanonicalTime.FormatParse | packages/bootstrap-rendezvous-service/src/sweeper.ts:152-156 | reading and writing back is the identity |
| CanonicalTime.TextIs | packages/vote-engine/src/bootstrap/bootstrap-transport.ts:108 | where each digit of an instant stands in its text, and the separators between |
| CanonicalTime.StringsCompareInstants | packages/bootstrap-rendezvous-service/src/sweeper.ts:34-45 | raw string comparison is chronological comparison for every pair of instants, but for that one instant written in two ways; against a clock reading the sweep's test is exact |
| CanonicalTime.ShiftIsExact | packages/bootstrap-rendezvous-service/src/sweeper.ts:140-160 | the shift answers iff its input is an instant, the minutes are a safe count and the result is in the years 0000 to 9999, and is then exactly that many minutes earlier |
| CanonicalTime.ShiftOfReading | packages/bootstrap-rendezvous-service/src/sweeper.ts:140-160 | from a clock reading it fails only by reaching back before the year 0000 |
| CanonicalTime.LeapDayShift | packages/bootstrap-rendezvous-service/src/sweeper.ts:140-160 | ten minutes before 00:05 on 1 March 2024 is 23:55 on 29 February |
| CanonicalTime.PastGraceMeansElapsed | packages/bootstrap-rendezvous-service/src/sweeper.ts:237-239 | the stage-two string test holds iff the expiry plus the grace window is not after now |
| CanonicalTime.HorizonMonotone | packages/bootstrap-rendezvous-service/src/sweeper.ts:170-176 | later sweeps have later horizons, none after the clock reading it comes from |
| Sweep.PlanSweeps | packages/bootstrap-rendezvous-service/src/sweeper.ts:192-266 | the per-record deletions, in order over any listing, amount to the one set-level sweep |
| Sweep.CutAnywhere | packages/bootstrap-rendezvous-service/src/sweeper.ts:229-249 | after any number of operations only due things are gone, in order, and at most one marker is orphaned |
| Sweep.ResumeConverges | packages/bootstrap-rendezvous-service/src/sweeper.ts:229-249 | a later full sweep of an interrupted store ends where a full sweep of the original would, up to that orphan |
| Sweep.CrashConverges | packages/bootstrap-rendezvous-service/src/sweeper.ts:169-269 | a crash after any operation followed by a later full sweep: same records and ciphertext, at most one extra marker, its record gone |
| Sweep.CrashConvergesOnTheClock | packages/bootstrap-rendezvous-service/src/sweeper.ts:140-269 | all of it, with both horizons computed from the sweeps' own datetimes |
| Sweep.ErodedKeepsPromises | packages/bootstrap-rendezvous-service/src/sweeper.ts:207-253 | whatever has run or thrown: no ciphertext without record, live records untouched, records in grace kept with their markers |
| Sweep.ErodedIsNeverEarly | packages/bootstrap-rendezvous-service/src/sweeper.ts:207-253 | whatever throws, a readable record, its marker and its ciphertext go only when the seconds since its expiry say so, and what cannot be read stays |
| Sweep.SweptIsNeverLate | packages/bootstrap-rendezvous-service/src/sweeper.ts:207-253 | after a sweep without faults everything whose seconds have passed is gone |
| Sweep.CountsAreByTheClock | packages/bootstrap-rendezvous-service/src/sweeper.ts:184-268 | which records each of the three counts counts, in seconds since expiry |
| Sweep.SweptIsSettled | packages/bootstrap-rendezvous-service/src/sweeper.ts:192-266 | after a clean sweep nothing due is left, and a second one drops nothing and keeps the same records |
| Sweep.FullCount | packages/bootstrap-rendezvous-service/src/sweeper.ts:184-268 | counting record by record gives the sizes of the three sets |
| Sweep.FileStores.SweepRecord | packages/bootstrap-rendezvous-service/src/sweeper.ts:193-265 | one record: every store effect was due and in its turn whatever throws; exact when nothing does |
| Sweep.FileStores.SweepOnce | packages/bootstrap-rendezvous-service/src/sweeper.ts:169-269 | a sweep rejects before touching anything, or removes nothing before its time on the clock; without faults everything whose time has come is gone, and it reports exactly the sizes |
| Sweep.FileStores.GetRecord | packages/bootstrap-rendezvous-service/src/store.ts:175-182 | the record, undefined, or a throw for an unsafe id, a corrupt file or a failing read |
| Sweep.FileStores.ListRecordIds | packages/bootstrap-rendezvous-service/src/store.ts:203-208 | every record id once, in any order, or a throw |
| Claim.SafeIdIsOneSegment | packages/bootstrap-rendezvous-service/src/claim.ts:61-72 | the guard accepts exactly 43 base64url characters, so an id is one path segment and the dot checks add nothing |
| Claim.ClaimsDir.ClaimSingleUse | packages/bootstrap-rendezvous-service/src/claim.ts:103-124 | true iff this call published the marker, whole; false changes nothing; a fault leaves no partial marker and touches no other name |
| Claim.ClaimsDir.DeleteClaimMarker | packages/bootstrap-rendezvous-service/src/claim.ts:132-137 | removes the marker and nothing else; a missing one is no error |
| Lifecycle.InvStep | packages/bootstrap-rendezvous-service/src/claim.ts:103-137 | the invariant of concurrent claims, sweeps, throws and crashes is inductive |
| Lifecycle.SingleUse | packages/bootstrap-rendezvous-service/src/claim.ts:92-124 | in any run no two claims of an id have returned true while its record is present |
| Lifecycle.SuccessesBounded | packages/bootstrap-rendezvous-service/src/sweeper.ts:239-250 | successes are at most one more than the markers retired, and a retired marker means the record is gone |
| Lifecycle.MarkerOutlivesRecord | packages/bootstrap-rendezvous-service/src/sweeper.ts:242-249 | no step removes a marker while its record is present |
| Lifecycle.MarkersComplete | packages/bootstrap-rendezvous-service/src/claim.ts:95-113 | every visible marker has its complete body, from a claim of that id |
| Lifecycle.TempsBelong | packages/bootstrap-rendezvous-service/src/claim.ts:107-123 | every temp name belongs to a claim that has not returned: unfinished, crashed, or whose unlink threw |
| Lifecycle.Retention | packages/bootstrap-rendezvous-service/src/sweeper.ts:192-266 | over any run, in real time: ciphertext implies record, a record goes only after the whole grace window, unserved ciphertext only after expiry |
| Lifecycle.WholeVisit | packages/bootstrap-rendezvous-service/src/sweeper.ts:193-253 | a visit nothing interrupts removes its id's ciphertext iff it has expired, and record and marker iff the grace window has passed, in seconds |
| Lifecycle.AnswersTellWhoPublished | packages/bootstrap-rendezvous-service/src/claim.ts:112-118 | a claim that returned true published the marker and one that returned false did not |
| Lifecycle.FaultFreeClaim | packages/bootstrap-rendezvous-service/src/claim.ts:112-123 | without a failing call a claim publishes its complete body and returns true, or finds the marker and returns false |
| Utf8.AcceptsIffWellFormed | apps/VoteTorrentAuthority/polyfills/hermes-text-decoder.js:27-75 | fatal mode returns iff the bytes are well-formed UTF-8, whatever happens to a BOM |
| Utf8.NextIsChar | apps/VoteTorrentAuthority/polyfills/hermes-text-decoder.js:49-66 | a prefix is one grammatical UTF-8 character iff the decoder takes exactly it |
| Utf8.CharsAreEncodings | apps/VoteTorrentAuthority/polyfills/hermes-text-decoder.js:49-66 | the characters accepted are exactly the encodings of scalar values |
| Utf8.RoundTrip | apps/VoteTorrentAuthority/polyfills/hermes-text-decoder.js:27-75 | decoding the encoding of any scalar values gives their UTF-16 form, less one leading U+FEFF unless ignoreBOM |
| Utf8.DecodedReadsBack | apps/VoteTorrentAuthority/polyfills/hermes-text-decoder.js:67-72 | reading the decoded units as UTF-16 gives the scalar values that were encoded |
| Utf8.EncodeKeepsOrder | apps/VoteTorrentAuthority/polyfills/hermes-text-decoder.js:49-66 | the encoding is the order-preserving one: smaller scalar values have smaller bytes |
| Utf8.MalformedIsOneReplacement | apps/VoteTorrentAuthority/polyfills/hermes-text-decoder.js:54-66 | an impossible lead, a sequence cut short and a complete sequence that is no character are each one U+FFFD, and throw in fatal mode |
| Utf8.SelfSynchronising | apps/VoteTorrentAuthority/polyfills/hermes-text-decoder.js:55-62 | decode(a + b) = decode(a) + decode(b) when b does not start with a continuation byte |
| Utf8.OutputWellFormed | apps/VoteTorrentAuthority/polyfills/hermes-text-decoder.js:63-72 | the output has no lone surrogate |
| Utf8.ModesAgree | apps/VoteTorrentAuthority/polyfills/hermes-text-decoder.js:35-39 | both modes decode well-formed input alike |
| Utf8.AsciiRun | apps/VoteTorrentAuthority/polyfills/hermes-text-decoder.js:42-48 | taking an ASCII run at once equals taking it byte by byte |
| Utf8.AppendAscii | apps/VoteTorrentAuthority/polyfills/hermes-text-decoder.js:44-46 | any positive chunk size appends the whole run |
| Utf8.ReadContinuation | apps/VoteTorrentAuthority/polyfills/hermes-text-decoder.js:55-61 | consumes exactly the continuation bytes there are, up to those needed, within bounds |
| Utf8.DecodeSequence | apps/VoteTorrentAuthority/polyfills/hermes-text-decoder.js:49-66 | one non-ASCII step is the next piece of the specification, and always advances |
| Utf8.DecodeBytes | apps/VoteTorrentAuthority/polyfills/hermes-text-decoder.js:27-75 | the whole loop returns or throws as the specification does, for any chunk size |
| SignatureEncoding.HalfOrder | packages/attestation-native/ios/SignatureEncoding.swift:37-45 | the carry loop computes half the number, rounded down |
| SignatureEncoding.IsGreaterThan | packages/attestation-native/ios/SignatureEncoding.swift:48-51 | the byte comparison is the numeric one |
| SignatureEncoding.Subtract256 | packages/attestation-native/ios/SignatureEncoding.swift:54-63 | the borrow loop computes the difference, exact when a >= b and otherwise wrapped |
| SignatureEncoding.FitTo32 | packages/attestation-native/ios/SignatureEncoding.swift:109-113 | the same number in 32 bytes, or an error iff it does not fit |
| SignatureEncoding.ReadInteger | packages/attestation-native/ios/SignatureEncoding.swift:98-114 | accepts iff a DER INTEGER that fits is there, and returns its number |
| SignatureEncoding.DerToCompactLowS | packages/attestation-native/ios/SignatureEncoding.swift:66-126 | on any input, in bounds: 64 bytes holding r and the low form of s, or an error, exactly when the bytes are a signature the parser takes |
| SignatureEncoding.LowSIsLow | packages/attestation-native/ios/SignatureEncoding.swift:122-124 | up to the group order the result is the smaller of s and n - s; it is low, and a second pass changes nothing, iff s is at most n |
| SignatureEncoding.OrderIs | packages/attestation-native/ios/SignatureEncoding.swift:30-34 | the byte table is the P-256 group order |
| SignatureEncoding.HighestSIsNotNormalised | packages/attestation-native/ios/SignatureEncoding.swift:53-63 | the DER form of s = 2^256 - 1 is taken, its replacement is high, and a second pass changes it |
| SignatureEncoding.SignatureReadsBack | packages/attestation-native/ios/SignatureEncoding.swift:84-120 | parsing the DER form of any r and s gives them back |
| SignatureEncoding.SignatureIff | packages/attestation-native/ios/SignatureEncoding.swift:67-120 | the inputs taken, as a grammar: a SEQUENCE in either length form of exactly two INTEGERs that fit in 32 bytes, with their numbers |
| SignatureEncoding.HexRoundTrip | packages/attestation-native/ios/SignatureEncoding.swift:126 | the hexadecimal text reads back as the bytes |
| SignatureEncoding.DerToCompactLowSHex | packages/attestation-native/ios/SignatureEncoding.swift:66-127 | 128 digits that read back as r and the low form of s, or an error |
| SignatureEncoding.CompactOfSignature | packages/attestation-native/ios/SignatureEncoding.swift:65-127 | for every r and s in 1 to n - 1 the conversion succeeds with exactly r and min(s, n - s) |
| AbortSignals.Signals.AbortSignal | apps/VoteTorrentAuthority/polyfills/hermes-abort-reason.js:47-54 | aborts exactly the signals reachable from it that were not aborted, all with its reason or the default; no first reason changes |
| AbortSignals.Signals.Abort | apps/VoteTorrentAuthority/polyfills/hermes-abort-reason.js:48-54 | the same re-entrantly, inside other dispatches, keeping their invariant |
| AbortSignals.Signals.Dispatch | apps/VoteTorrentAuthority/polyfills/hermes-abort-reason.js:97-102 | calling every listener of an aborted signal, whichever stale ones run, leaves none on it |
| AbortSignals.Signals.InvokeForward | apps/VoteTorrentAuthority/polyfills/hermes-abort-reason.js:90-93 | passes the input's reason on, and does nothing to an aborted combination |
| AbortSignals.Signals.RunDetach | apps/VoteTorrentAuthority/polyfills/hermes-abort-reason.js:97-102 | takes every listener of the combination off its inputs, re-entrancy included |
| AbortSignals.Signals.Any | apps/VoteTorrentAuthority/polyfills/hermes-abort-reason.js:73-104 | with an aborted input: aborted at once with the first one's reason and nothing registered; otherwise one listener per input occurrence |
| AbortSignals.Signals.Attach | apps/VoteTorrentAuthority/polyfills/hermes-abort-reason.js:88-102 | the registration loop attaches each occurrence and the detaching listener |
| AbortSignals.QuietListeners | apps/VoteTorrentAuthority/polyfills/hermes-abort-reason.js:85-102 | outside a dispatch an un-aborted combination has exactly one listener per input occurrence and an aborted one has none |
| AbortSignals.AllBelow | apps/VoteTorrentAuthority/polyfills/hermes-abort-reason.js:89-96 | everything that combines an aborted signal, directly or not, is aborted |
| AbortSignals.StaleMeansAborted | apps/VoteTorrentAuthority/polyfills/hermes-abort-reason.js:91 | a listener removed during the dispatch belongs to a combination that is already aborted, so calling it is harmless |
| CodeUnits.SortSorts | scripts/proof/opened-set-preimage.ts:53 | sorted and a permutation |
| CodeUnits.SortIsCanonical | scripts/proof/opened-set-preimage.ts:62 | two lists sort to the same list iff they are permutations of each other |
| Json.ReadBack | scripts/proof/opened-set-preimage.ts:57 | reading an escaped string gives it back and stops at its quote |
| Json.RenderUnique | scripts/proof/opened-set-preimage.ts:57 | JSON text is prefix-free: the value and what follows it are determined |
| Json.RenderInjective | scripts/proof/opened-set-preimage.ts:57-62 | two values have the same JSON text iff they are equal, also nested |
| Json.EscapesAre | scripts/proof/opened-set-preimage.ts:57 | each escape, character by character |
| Json.BodyIs | scripts/proof/opened-set-preimage.ts:57 | surrogate pairs stay together and other units are escaped one by one |
| Json.RenderIs | scripts/proof/opened-set-preimage.ts:57 | a string is its body in quotes, an array its items in brackets with commas between |
| OpenedSet.ShapeIsClass | scripts/proof/opened-set-preimage.ts:52-54 | answers have one shape iff they agree up to the order of option codes |
| OpenedSet.SortAnswersIs | scripts/proof/opened-set-preimage.ts:30-57 | answers sorted by question, a permutation |
| OpenedSet.SortedByQuestion | scripts/proof/opened-set-preimage.ts:26-32 | the answers come in ascending order of their questions |
| OpenedSet.EntrySpelled | scripts/proof/opened-set-preimage.ts:52-58 | the text of an entry: ballot id, then each answer with its question and sorted options |
| OpenedSet.PreimageSpelled | scripts/proof/opened-set-preimage.ts:60-63 | the preimage is the array of the quoted entry texts in ascending order |
| OpenedSet.EntryTextIsClass | scripts/proof/opened-set-preimage.ts:56-58 | entries have one text iff they agree up to the order of answers and option codes |
| OpenedSet.DistinctQuestionsAgree | scripts/proof/opened-set-preimage.ts:30-32 | distinct question codes are enough for the canonical form |
| OpenedSet.TextIgnoresOrderIffAgreeing | scripts/proof/opened-set-preimage.ts:30-58 | an entry's text ignores the order of its answers iff two answers to one question are always the same |
| OpenedSet.TwoAnswersBreakTheForm | scripts/proof/opened-set-preimage.ts:56-63 | an opened set whose entry answers one question in two ways has two preimages |
| OpenedSet.PreimageIsCanonical | scripts/proof/opened-set-preimage.ts:60-63 | two opened sets have equal preimages iff they are equal as multisets of entries up to those orders |
| Batching.BatchingRefinesPlain | apps/VoteTorrentAuthority/polyfills/websocket-batching.js:36-81 | after any run, native messages then waiting parts spell exactly what was sent, in order, and native calls never outnumber calls made |
| Batching.RunPending | apps/VoteTorrentAuthority/polyfills/websocket-batching.js:71-75 | a waiting batch is never empty and always has a flush queued |
| Batching.QuietMeansDelivered | apps/VoteTorrentAuthority/polyfills/websocket-batching.js:45-48 | once no flush is queued nothing waits and every socket got the whole plain stream |
| Batching.OtherCallsFlush | apps/VoteTorrentAuthority/polyfills/websocket-batching.js:61-80 | a text send or close reaches the socket last and on its own, after everything before it |
| Batching.OneMessagePerTurn | apps/VoteTorrentAuthority/polyfills/websocket-batching.js:1-21 | the binary sends of one turn reach each socket as one message with their bytes in order, and no other socket |
| Batching.Join | apps/VoteTorrentAuthority/polyfills/websocket-batching.js:50-56 | the offset copy writes the concatenation of the parts into a fresh buffer of exactly that size |
| Batching.ReportsAre | apps/VoteTorrentAuthority/polyfills/websocket-batching.js:40-43 | what is reported is the size of each message that goes out |
| Batching.Sockets.Flush | apps/VoteTorrentAuthority/polyfills/websocket-batching.js:45-58 | one message of the waiting bytes, reported with its size, and nothing when none wait |
| Batching.Sockets.Send | apps/VoteTorrentAuthority/polyfills/websocket-batching.js:60-76 | is the batched step for the bytes of the buffer or view as they are at the call; keeps a fresh copy |
| Batching.Sockets.Copy | apps/VoteTorrentAuthority/polyfills/websocket-batching.js:65-68 | a fresh buffer with exactly the bytes of the view, or of the whole buffer |
| Batching.Sockets.CloseSocket | apps/VoteTorrentAuthority/polyfills/websocket-batching.js:77-80 | flushes, then closes; nothing waits afterwards |
| Batching.Sockets.EndTurn | apps/VoteTorrentAuthority/polyfills/websocket-batching.js:71-74 | running the queued flushes ends with nothing waiting |
| Batching.Sockets.CallersMayReuseBuffers | apps/VoteTorrentAuthority/polyfills/websocket-batching.js:65 | writes to any buffer but the copies change nothing that waits |
| RollDisclosure.PermitsIff | apps/VoteTorrentPublic/src/roll-disclosure.js:136-144 | an entry permits iff it names the field and its audience is everyone |
| RollDisclosure.RendersIff | apps/VoteTorrentPublic/src/roll-disclosure.js:167-189 | a field renders iff the first entry whose field it is says everyone |
| RollDisclosure.ResolveRollColumns | apps/VoteTorrentPublic/src/roll-disclosure.js:167-189 | for any policy value: a field renders iff the first entry naming it says everyone, and is otherwise reported unreadable |
| RollDisclosure.RenderingIs | apps/VoteTorrentPublic/src/roll-disclosure.js:167-189 | a field is in exactly one of columns and unreadable |
| RollDisclosure.RenderingSplits | apps/VoteTorrentPublic/src/roll-disclosure.js:167-189 | columns and unreadable together hold each field as often as the field list does |
| RollDisclosure.RenderingKeepsOrder | apps/VoteTorrentPublic/src/roll-disclosure.js:159-189 | both lists are in the order of the field list, whatever the order of the policy |
| RollDisclosure.DeclaredPolicyPublishes | apps/VoteTorrentPublic/src/roll-disclosure.js:113-115 | the declared policy publishes exactly the roll fields |
| RollDisclosure.FoldDistrictCounts | apps/VoteTorrentPublic/src/roll-disclosure.js:270-340 | nothing when the district is withheld; otherwise the chart of the rows' groups, for any rows value; the guard loop ends |
| RollDisclosure.Count | apps/VoteTorrentPublic/src/roll-disclosure.js:285-296 | the tally of each named district and of the unstated rows |
| RollDisclosure.DistrictIs | apps/VoteTorrentPublic/src/roll-disclosure.js:288-296 | a row adds to the district it names, and to the unstated group iff that is no non-empty string |
| RollDisclosure.RankedEntries | apps/VoteTorrentPublic/src/roll-disclosure.js:302-304 | all districts, strictly ordered by count then name |
| RollDisclosure.Guard | apps/VoteTorrentPublic/src/roll-disclosure.js:306-322 | folds one more district exactly when a single group would be folded and a named one remains |
| RollDisclosure.BucketsAddUp | apps/VoteTorrentPublic/src/roll-disclosure.js:324-338 | the bars add up to the number of rows |
| RollDisclosure.NamedBucketsAreLarge | apps/VoteTorrentPublic/src/roll-disclosure.js:302-336 | a named bar counts its district's rows, at least two, and no fewer than any district without a bar |
| RollDisclosure.FoldedBucketJoins | apps/VoteTorrentPublic/src/roll-disclosure.js:226-238 | the folded bar comes last, appears iff something is hidden, and joins at least two groups or is the whole chart |
| RollDisclosure.FoldIsMinimal | apps/VoteTorrentPublic/src/roll-disclosure.js:306-322 | at most one district of two or more rows is hidden, and then beside exactly one other group |
| RollDisclosure.ChartIgnoresOrder | apps/VoteTorrentPublic/src/roll-disclosure.js:298-304 | the chart is determined by how many rows each group has |
| RollDisclosure.NamedBucketsInOrder | apps/VoteTorrentPublic/src/roll-disclosure.js:298-304 | bars are ordered by count descending, then name |
| RollDisclosure.KeysDistinct | apps/VoteTorrentPublic/src/roll-disclosure.js:209-218 | bar keys differ, even for a district named other |
| RollDisclosure.KeysAre | apps/VoteTorrentPublic/src/roll-disclosure.js:324-338 | a named bar's key is d and its position in decimal, the folded one's is other |
| RollDisclosure.DecimalReads | apps/VoteTorrentPublic/src/roll-disclosure.js:333 | the decimal digits of a position read back as it |
| ElectionIndex.LoadHeldElections | apps/VoteTorrentPublic/src/election-index-source.js:183-261 | whatever the calls answer or throw, it returns the finding of its attempts and makes exactly their calls |
| ElectionIndex.ReadNetwork | apps/VoteTorrentPublic/src/election-index-source.js:225-252 | attach, read and close of one network: rows iff both succeeded, closed iff a handle was handed over |
| ElectionIndex.EveryHandleClosed | apps/VoteTorrentPublic/src/election-index-source.js:237-251 | each handle is closed exactly as often as it was handed over, whatever throws |
| ElectionIndex.OnlyRegistryHashesAttached | apps/VoteTorrentPublic/src/election-index-source.js:199-217 | a hash is attached iff the registry holds it and no other held network was requested |
| ElectionIndex.AttachedIff | apps/VoteTorrentPublic/src/election-index-source.js:183-217 | the same from the registry and options values themselves: non-empty string hashes only |
| ElectionIndex.CompleteIff | apps/VoteTorrentPublic/src/election-index-source.js:158-167 | complete iff the registry was read and every attempted network answered |
| ElectionIndex.CountersAre | apps/VoteTorrentPublic/src/election-index-source.js:158-167 | the counters are the networks attempted and those whose attach or read threw |
| ElectionIndex.HeldHashesAre | apps/VoteTorrentPublic/src/election-index-source.js:201 | the hashes held are the non-empty strings under networkHash |
| ElectionIndex.CallsInOrder | apps/VoteTorrentPublic/src/election-index-source.js:225-252 | each network is attached, then read, then closed |
| ElectionIndex.ListedIff | apps/VoteTorrentPublic/src/election-index-source.js:220-287 | the list holds every row with an Id of every readable network, under that network's hash, and no other |
| ElectionIndex.GateIgnoresOrder | apps/VoteTorrentPublic/src/election-index-source.js:199-217 | a reordered registry is gated to the same networks |
| ElectionIndex.AttemptOrderIrrelevant | apps/VoteTorrentPublic/src/election-index-source.js:219-255 | networks with their answers, attempted in any order, give the same finding when rows of one key agree on the title |
| ElectionIndex.RegistryOrderIrrelevant | apps/VoteTorrentPublic/src/election-index-source.js:37-41 | two registries with the same entries in any order give the same finding for the same request and network answers, when rows of one key agree on the title |
| ElectionIndex.RenamedElectionDependsOnOrder | apps/VoteTorrentPublic/src/election-index-source.js:111-149 | one network held twice, renamed between the reads, gives two findings |
| ElectionIndex.CloseFailuresIgnored | apps/VoteTorrentPublic/src/election-index-source.js:243-249 | closes that throw change neither the calls made nor the finding |
| ElectionIndex.MergeHeldElections | apps/VoteTorrentPublic/src/election-index-source.js:126-149 | the loops compute the stable merge of the flattened rows |
| ElectionIndex.SortRowsSorts | apps/VoteTorrentPublic/src/election-index-source.js:133-144 | ordered by day descending, id, hash; a permutation that keeps the order of equal keys |
| ElectionIndex.SortedByFields | apps/VoteTorrentPublic/src/election-index-source.js:133-144 | a later row has an earlier day; on the same day a greater id; for the same id a greater or the same hash |
| ElectionIndex.StableSortIsUnique | apps/VoteTorrentPublic/src/election-index-source.js:133-144 | any stable sort by this comparator gives this list |
| ElectionIndex.MergeIgnoresOrderIff | apps/VoteTorrentPublic/src/election-index-source.js:111-149 | the list is the same for every order of the rows iff rows of one day, id and network agree on the title |
| ElectionIndex.ToIndexRows | apps/VoteTorrentPublic/src/election-index-source.js:274-287 | the loop maps each row with a non-empty Id, for any value |
| ElectionIndex.IndexRowsAre | apps/VoteTorrentPublic/src/election-index-source.js:264-287 | a row is listed iff it has an Id; a missing title or date does not drop it |
| ElectionIndex.RowOfReads | apps/VoteTorrentPublic/src/election-index-source.js:274-287 | what is read off a row: its non-empty Id, its Title or null, its Date or the empty text |

## Left out

- StructuredClone.StructuredClone: the ungap fallback itself, extra own properties on arrays, proxies and getters,
  symbol keys, length-tracking views and detached buffers; a SharedArrayBuffer counts as exotic.
- Utf8.DecodeBytes: the constructor's label check. How many U+FFFD malformed input gives is what the code does
  (`MalformedIsOneReplacement`); it differs from section 8.1.1 of the WHATWG Encoding Standard on overlong forms, for
  example.
- SignProtocol.InvStep: the digest check before the reservation, debug lines and the measured times; the numeric values
  of LAError and OSStatus other than -2 and -3 are Apple's and enter as distinct names.
- WrapKeys.StepKeeps: Keychain and CryptoKit internals. Encryption is ideal, generated keys never repeat, and an
  argument that does not decode is one command. NSRegularExpression's `$` before a final line terminator is not modelled.
- WrapKeys.SealedIsNeverReplaceable: a data read that answers not-found for an item that is there and usable.
- Lifecycle.InvStep: the upload and redemption handlers. Claims come at any time, serving erases ciphertext, records
  are not re-created (`markRecordUsed` reads and then writes, packages/bootstrap-rendezvous-service/src/store.ts:184-195,
  so one that races a sweep could re-create a record), temp discriminators are unique, the clock does not go back, and
  the grace window stays the same.
- CanonicalTime.ShiftIsExact: a canonical string that is no date, such as 30 February, is engine-specific in
  ECMAScript; it throws here. The midnight 24:00:00 is an instant, as section 21.4.1 of ECMA-262 has it.
- Claim.ClaimsDir.ClaimSingleUse: creating the claims directory, and the text of the discriminator; `faults` counts
  failing calls. A link or unlink that throws after taking effect is in Lifecycle only.
- Sweep.FileStores.SweepOnce: the file system under the store, and records whose fields are missing after projection.
- AbortSignals.Signals.AbortSignal: listeners registered by other code, and the event-target internals; a listener that
  was removed after the dispatch began may be called or not.
- OpenedSet.PreimageIsCanonical: the run-time shape check of the entries; the types stand for it.
- Batching.Sockets.Send: a native send that throws, the install flag, and views over shared memory.
- RollDisclosure.FoldDistrictCounts: freezing, getters and extra properties of arrays.
- ElectionIndex.LoadHeldElections: getters that throw; awaiting is one call after the other, as in the source.
- The Voter app's copies of the polyfills are the same code as the Authority app's.
- `startSweeper`, `assertNoNetworkHandleGrowth`, HTTP dispatch and static files, configuration, logging, the
  distributed key generation and block-opening libraries, build provenance, and the user interface.
