/**
 * The alias-keyed wrap keys in the Keychain
 * (packages/attestation-native/ios/AttestationNativeModule.swift, loadWrapKey, wrapSecret, unwrapSecret, deleteWrapKey).
 *
 * The Keychain is a map from aliases to items; what the operating system answers to one call is a
 * parameter. AES-GCM is ideal: a blob opens under its own key and additional data and under no other.
 */
module WrapKeys {
  import opened Common

  // ---------------------------------------------------------------- aliases

  predicate IsDigits(s: string) {
    s != [] && forall i :: 0 <= i < |s| ==> '0' <= s[i] <= '9'
  }

  predicate IsAliasBody(s: string) {
    s != [] && forall i :: 0 <= i < |s| ==> 'A' <= s[i] <= 'Z' || '0' <= s[i] <= '9' || s[i] == '_'
  }

  const PREFIX := "VOTETORRENT_"
  const SUFFIX := "_WRAP_KEY_V"
  const VOTE_RECORD := "VOTE_RECORD"

  /** `^VOTETORRENT_[A-Z0-9_]+_WRAP_KEY_V[0-9]+$` */
  ghost predicate ValidAlias(alias: string) {
    exists body, version :: IsAliasBody(body) && IsDigits(version) && alias == PREFIX + body + SUFFIX + version
  }

  /** `^VOTETORRENT_VOTE_RECORD_WRAP_KEY_V[0-9]+$` */
  ghost predicate DeletableAlias(alias: string) {
    exists version :: IsDigits(version) && alias == PREFIX + VOTE_RECORD + SUFFIX + version
  }

  lemma DeletableIsValid(alias: string)
    requires DeletableAlias(alias)
    ensures ValidAlias(alias)
  {
    var version :| IsDigits(version) && alias == PREFIX + VOTE_RECORD + SUFFIX + version;
    assert IsAliasBody(VOTE_RECORD);
  }

  // ---------------------------------------------------------------- the Keychain

  /** `valid` turns false when a biometric enrollment change invalidates an auth-required item. */
  datatype Item = Item(auth: bool, key: nat, valid: bool)

  /** Keys are numbered in order of generation: 32 random bytes never repeat. */
  datatype Keychain = Keychain(items: map<string, Item>, nextKey: nat)

  datatype ReadFailure = DeviceLocked | Cancelled | NotEnrolled | Lockout | OtherStatus

  /**
   * What the operating system answers during one call: whether the no-UI marker read and the no-UI existence
   * probe see an item that is there, and which of the other calls fail.
   */
  datatype Os = Os(markerAnswers: bool, probeAnswers: bool, randomOk: bool, addOk: bool, readFails: Option<ReadFailure>)

  function FailureCode(f: ReadFailure): string {
    match f
    case DeviceLocked => "DEVICE_LOCKED"
    case Cancelled => "CANCELED"
    case NotEnrolled => "NO_BIOMETRICS_ENROLLED"
    case Lockout => "LOCKOUT_PERMANENT"
    case OtherStatus => "WRAP_FAILED"
  }

  const NO_WRAP_KEY := "NO_WRAP_KEY"
  const KEY_INVALIDATED := "KEY_INVALIDATED"
  const MISMATCH := "WRAP_KEY_POLICY_MISMATCH"
  const TAG_MISMATCH := "UNWRAP_TAG_MISMATCH"

  /** The data read; an invalidated item is reported as not found. */
  function ReadKey(k: Keychain, alias: string, requireAuth: bool, itemExisted: bool, os: Os): Result<nat, string> {
    if os.readFails.Some? then Err(FailureCode(os.readFails.value))
    else if alias in k.items && k.items[alias].valid then Ok(k.items[alias].key)
    else if requireAuth && itemExisted then Err(KEY_INVALIDATED)
    else Err(NO_WRAP_KEY)
  }

  /** The item was seen before its data was read. */
  predicate Seen(k: Keychain, alias: string, create: bool, os: Os) {
    alias in k.items && (os.markerAnswers || create || os.probeAnswers)
  }

  /** `loadWrapKey`. */
  ghost function Load(k: Keychain, alias: string, requireAuth: bool, create: bool, os: Os): (Keychain, Result<nat, string>) {
    if !ValidAlias(alias) then (k, Err("INVALID_ARGUMENT"))
    else if os.markerAnswers && alias in k.items then
      if k.items[alias].auth != requireAuth then (k, Err(MISMATCH))
      else (k, ReadKey(k, alias, requireAuth, true, os))
    else if create then
      if !os.randomOk || !os.addOk then (k, Err("WRAP_FAILED"))
      else if alias in k.items then (k, ReadKey(k, alias, requireAuth, true, os))
      else
        var added := Keychain(k.items[alias := Item(requireAuth, k.nextKey, true)], k.nextKey + 1);
        (added, ReadKey(added, alias, requireAuth, false, os))
    else (k, ReadKey(k, alias, requireAuth, alias in k.items && os.probeAnswers, os))
  }

  /** An ideal AES-GCM blob. */
  datatype Blob = Blob(key: nat, aad: int, plaintext: int)

  datatype Command =
    | Wrap(alias: string, plaintext: int, aad: int, requireAuth: bool, os: Os)
    | Unwrap(alias: string, blob: Blob, aad: int, requireAuth: bool, os: Os)
    | Delete(alias: string, osOk: bool)
    | Enroll                                          // a biometric enrollment change
    | Malformed                                       // an argument that does not decode

  datatype Reply = Sealed(blob: Blob) | Opened(plaintext: int) | Deleted(deleted: bool) | Rejected(code: string) | Nothing

  ghost function Step(k: Keychain, c: Command): (Keychain, Reply) {
    match c
    case Wrap(alias, plaintext, aad, requireAuth, os) =>
      var (k', r) := Load(k, alias, requireAuth, true, os);
      (k', if r.Err? then Rejected(r.error) else Sealed(Blob(r.value, aad, plaintext)))
    case Unwrap(alias, blob, aad, requireAuth, os) =>
      var (k', r) := Load(k, alias, requireAuth, false, os);
      (k', if r.Err? then Rejected(r.error)
           else if blob.key == r.value && blob.aad == aad then Opened(blob.plaintext)
           else Rejected(TAG_MISMATCH))
    case Delete(alias, osOk) =>
      if !DeletableAlias(alias) then (k, Rejected("INVALID_ARGUMENT"))
      else if !osOk then (k, Rejected("WRAP_FAILED"))
      else (k.(items := k.items - {alias}), Deleted(alias in k.items))
    case Enroll =>
      (k.(items := map a | a in k.items :: if k.items[a].auth then k.items[a].(valid := false) else k.items[a]), Nothing)
    case Malformed => (k, Rejected("INVALID_ENCODING"))
  }

  ghost function After(k: Keychain, cs: seq<Command>): Keychain {
    if cs == [] then k else Step(After(k, cs[..|cs| - 1]), cs[|cs| - 1]).0
  }

  /** Generated keys are below the counter and belong to one alias each. */
  ghost predicate KeysApart(k: Keychain) {
    && (forall a :: a in k.items ==> k.items[a].key < k.nextKey)
    && (forall a, b :: a in k.items && b in k.items && a != b ==> k.items[a].key != k.items[b].key)
  }

  // ---------------------------------------------------------------- one command

  /**
   * Whatever the operating system answers: a key stays with its alias, its bytes and its policy unchanged, unless
   * a deletion of that alias takes it; only a wrap creates; only the vote-record family can be deleted; only an
   * enrollment change invalidates, and nothing makes an invalid key valid again.
   */
  lemma StepKeeps(k: Keychain, c: Command, alias: string)
    requires KeysApart(k)
    ensures var k' := Step(k, c).0;
      && KeysApart(k') && k.nextKey <= k'.nextKey
      && (alias in k.items && alias in k'.items ==>
            && k'.items[alias].key == k.items[alias].key && k'.items[alias].auth == k.items[alias].auth
            && (k'.items[alias].valid ==> k.items[alias].valid)
            && (k.items[alias].valid && !k'.items[alias].valid ==> c.Enroll? && k.items[alias].auth))
      && (alias in k.items && alias !in k'.items ==> c.Delete? && c.alias == alias && DeletableAlias(alias))
      && (alias !in k.items && alias in k'.items ==>
            && c.Wrap? && c.alias == alias && ValidAlias(alias) && k'.items[alias].key == k.nextKey
            && k'.items[alias].auth == c.requireAuth)
  {
    hide ValidAlias, DeletableAlias, Load;
    if c.Wrap? { LoadAdds(k, c.alias, c.requireAuth, true, c.os); }
    if c.Unwrap? { LoadAdds(k, c.alias, c.requireAuth, false, c.os); }
  }

  /** A load leaves the Keychain alone, or adds the one missing item. */
  lemma LoadAdds(k: Keychain, alias: string, requireAuth: bool, create: bool, os: Os)
    ensures var k' := Load(k, alias, requireAuth, create, os).0;
      || k' == k
      || (create && alias !in k.items && ValidAlias(alias)
          && k' == Keychain(k.items[alias := Item(requireAuth, k.nextKey, true)], k.nextKey + 1))
  {
    hide ValidAlias;
  }

  /**
   * NO_WRAP_KEY, which callers treat as replaceable, is never answered for an item whose data can be read. A usable
   * item is one the data read answers for.
   */
  lemma NoWrapKeyMeansNoUsableKey(k: Keychain, alias: string, requireAuth: bool, create: bool, os: Os)
    ensures Load(k, alias, requireAuth, create, os).1 == Err(NO_WRAP_KEY) ==>
      alias !in k.items || !k.items[alias].valid
  {
    hide ValidAlias;
  }

  /**
   * What a call answers for an alias whose data read answers "not found": no item, or an invalidated one.
   * KEY_INVALIDATED exactly when the call asks for authentication and the marker read, the probe or a duplicate add
   * saw the item; a seen item is still the replaceable NO_WRAP_KEY to a call that does not ask, unless the marker
   * read refuses the call by name.
   */
  lemma InvalidatedIffSeen(k: Keychain, alias: string, requireAuth: bool, create: bool, os: Os)
    requires ValidAlias(alias) && os.readFails.None?
    requires create ==> alias in k.items && os.randomOk && os.addOk
    requires alias in k.items ==> k.items[alias].auth && !k.items[alias].valid
    ensures Load(k, alias, requireAuth, create, os)
         == (k, if alias in k.items && os.markerAnswers && !requireAuth then Err(MISMATCH)
                else if requireAuth && Seen(k, alias, create, os) then Err(KEY_INVALIDATED)
                else Err(NO_WRAP_KEY))
  {
    hide ValidAlias;
  }

  /**
   * A present, usable item of the other policy: refused by name exactly when the marker read answers. When it does
   * not, the call gets the key all the same, whichever policy it asked for.
   */
  lemma OtherPolicyRefusedIffMarked(k: Keychain, alias: string, requireAuth: bool, create: bool, os: Os)
    requires ValidAlias(alias) && os.readFails.None? && os.randomOk && os.addOk
    requires alias in k.items && k.items[alias].valid && k.items[alias].auth != requireAuth
    ensures Load(k, alias, requireAuth, create, os)
         == (k, if os.markerAnswers then Err(MISMATCH) else Ok(k.items[alias].key))
  {
    hide ValidAlias;
  }

  // ---------------------------------------------------------------- any run of commands

  /** No command of the run deletes `alias`. */
  predicate Spares(cs: seq<Command>, alias: string) {
    forall i :: 0 <= i < |cs| ==> !(cs[i].Delete? && cs[i].alias == alias)
  }

  lemma {:induction false} RunKeeps(k: Keychain, cs: seq<Command>, alias: string)
    requires KeysApart(k)
    ensures KeysApart(After(k, cs)) && k.nextKey <= After(k, cs).nextKey
    ensures Spares(cs, alias) && alias in k.items ==>
      && alias in After(k, cs).items
      && After(k, cs).items[alias].key == k.items[alias].key && After(k, cs).items[alias].auth == k.items[alias].auth
      && (After(k, cs).items[alias].valid ==> k.items[alias].valid)
  {
    hide Step;
    if cs != [] {
      var before := cs[..|cs| - 1];
      RunKeeps(k, before, alias);
      StepKeeps(After(k, before), cs[|cs| - 1], alias);
    }
  }

  /**
   * A blob sealed under an alias opens at any later time, whatever commands ran in between, as long as none
   * deleted the alias, the key is still valid and the system lets the read through - unless the marker read
   * answers and the call asks for the other policy, which is refused by name.
   */
  lemma EarlierBlobsOpen(k: Keychain, w: Command, cs: seq<Command>, requireAuth: bool, os: Os)
    requires KeysApart(k) && w.Wrap? && Step(k, w).1.Sealed? && Spares(cs, w.alias)
    ensures var later := After(Step(k, w).0, cs);
      && w.alias in later.items
      && (later.items[w.alias].valid && os.readFails.None? ==>
            Step(later, Unwrap(w.alias, Step(k, w).1.blob, w.aad, requireAuth, os)).1
              == if os.markerAnswers && requireAuth != later.items[w.alias].auth then Rejected(MISMATCH)
                 else Opened(w.plaintext))
  {
    SealedUnderItem(k, w);
    StepKeeps(k, w, w.alias);
    hide Step, ValidAlias;
    RunKeeps(Step(k, w).0, cs, w.alias);
    var later := After(Step(k, w).0, cs);
    if later.items[w.alias].valid && os.readFails.None? {
      OpensUnderItem(later, w.alias, Step(k, w).1.blob, requireAuth, os);
    }
  }

  lemma SealedUnderItem(k: Keychain, w: Command)
    requires w.Wrap? && Step(k, w).1.Sealed?
    ensures var k' := Step(k, w).0;
      && ValidAlias(w.alias) && w.alias in k'.items
      && Step(k, w).1.blob == Blob(k'.items[w.alias].key, w.aad, w.plaintext)
  {
    hide ValidAlias;
  }

  lemma OpensUnderItem(k: Keychain, alias: string, blob: Blob, requireAuth: bool, os: Os)
    requires ValidAlias(alias) && alias in k.items && k.items[alias].key == blob.key
    requires k.items[alias].valid && os.readFails.None?
    ensures Step(k, Unwrap(alias, blob, blob.aad, requireAuth, os)).1
         == if os.markerAnswers && requireAuth != k.items[alias].auth then Rejected(MISMATCH) else Opened(blob.plaintext)
  {
    hide ValidAlias;
  }

  /** Once the key of a blob has been deleted, no later command opens that blob: a new key never equals an old one. */
  lemma DeletedKeyIsGone(k: Keychain, alias: string, cs: seq<Command>, u: Command)
    requires KeysApart(k) && alias in k.items && Step(k, Delete(alias, true)).1 == Deleted(true)
    requires u.Unwrap? && u.blob.key == k.items[alias].key
    ensures !Step(After(Step(k, Delete(alias, true)).0, cs), u).1.Opened?
  {
    hide ValidAlias, DeletableAlias;
    var key, k1 := k.items[alias].key, Step(k, Delete(alias, true)).0;
    StepKeeps(k, Delete(alias, true), alias);
    KeyStaysGone(k1, cs, key);
  }

  ghost predicate Holds(k: Keychain, key: nat) {
    exists a :: a in k.items && k.items[a].key == key
  }

  lemma {:induction false} KeyStaysGone(k: Keychain, cs: seq<Command>, key: nat)
    requires KeysApart(k) && key < k.nextKey && !Holds(k, key)
    ensures KeysApart(After(k, cs)) && key < After(k, cs).nextKey && !Holds(After(k, cs), key)
  {
    if cs != [] {
      var before, c := cs[..|cs| - 1], cs[|cs| - 1];
      KeyStaysGone(k, before, key);
      var mid := After(k, before);
      hide Step;
      StepKeeps(mid, c, "");
      forall a | a in Step(mid, c).0.items ensures Step(mid, c).0.items[a].key != key {
        StepKeeps(mid, c, a);
        if a in mid.items { assert mid.items[a].key != key; }
      }
    }
  }

  /**
   * Once a secret is sealed under an alias, no later call for that alias answers the replaceable NO_WRAP_KEY,
   * whatever ran in between, as long as nothing deleted the alias and its key is still valid.
   */
  lemma SealedIsNeverReplaceable(k: Keychain, w: Command, cs: seq<Command>, c: Command)
    requires KeysApart(k) && w.Wrap? && Step(k, w).1.Sealed? && Spares(cs, w.alias)
    requires (c.Wrap? || c.Unwrap?) && c.alias == w.alias
    ensures var later := After(Step(k, w).0, cs);
      && w.alias in later.items
      && (later.items[w.alias].valid ==> Step(later, c).1 != Rejected(NO_WRAP_KEY))
  {
    SealedUnderItem(k, w);
    StepKeeps(k, w, w.alias);
    hide Step, ValidAlias;
    RunKeeps(Step(k, w).0, cs, w.alias);
    var later := After(Step(k, w).0, cs);
    if later.items[w.alias].valid { ValidIsNotMissing(later, c); }
  }

  lemma ValidIsNotMissing(k: Keychain, c: Command)
    requires (c.Wrap? || c.Unwrap?) && c.alias in k.items && k.items[c.alias].valid
    ensures Step(k, c).1 != Rejected(NO_WRAP_KEY)
  {
    hide ValidAlias;
  }

  // ---------------------------------------------------------------- the answers, spelled out

  /** A blob opens only under the additional data and the key it was sealed under, and then to what was sealed. */
  lemma OpensOnlyWhatWasSealed(k: Keychain, u: Command)
    requires u.Unwrap?
    ensures Step(k, u).1.Opened? ==>
      && u.blob.aad == u.aad && Step(k, u).1 == Opened(u.blob.plaintext)
      && u.alias in k.items && k.items[u.alias].valid && u.blob.key == k.items[u.alias].key
    ensures
      (&& ValidAlias(u.alias) && u.os.readFails.None? && u.alias in k.items && k.items[u.alias].valid
       && k.items[u.alias].auth == u.requireAuth && !(u.blob.aad == u.aad && u.blob.key == k.items[u.alias].key))
      ==> Step(k, u).1 == Rejected("UNWRAP_TAG_MISMATCH")
  {
    hide ValidAlias;
  }

  /** The rejection codes, cause by cause. */
  lemma RejectionsAre(k: Keychain, c: Command)
    requires c.Wrap? || c.Unwrap?
    ensures !ValidAlias(c.alias) ==> Step(k, c) == (k, Rejected("INVALID_ARGUMENT"))
    ensures ValidAlias(c.alias) && c.os.markerAnswers && c.alias in k.items && k.items[c.alias].auth != c.requireAuth ==>
      Step(k, c) == (k, Rejected("WRAP_KEY_POLICY_MISMATCH"))
    ensures
      (ValidAlias(c.alias) && c.Wrap? && !(c.os.markerAnswers && c.alias in k.items) && !(c.os.randomOk && c.os.addOk))
      ==> Step(k, c) == (k, Rejected("WRAP_FAILED"))
    ensures ValidAlias(c.alias) && c.Unwrap? && c.alias !in k.items && c.os.readFails.None? ==>
      Step(k, c) == (k, Rejected("NO_WRAP_KEY"))
  {
    hide ValidAlias;
  }

  /** A data read that fails names its cause. */
  lemma FailedReadsAre(k: Keychain, c: Command)
    requires c.Unwrap? && ValidAlias(c.alias) && c.os.readFails.Some?
    requires c.alias in k.items ==> k.items[c.alias].auth == c.requireAuth
    ensures Step(k, c) == (k, Rejected(
      if c.os.readFails.value == DeviceLocked then "DEVICE_LOCKED"
      else if c.os.readFails.value == Cancelled then "CANCELED"
      else if c.os.readFails.value == NotEnrolled then "NO_BIOMETRICS_ENROLLED"
      else if c.os.readFails.value == Lockout then "LOCKOUT_PERMANENT"
      else "WRAP_FAILED"))
  {
    hide ValidAlias;
  }

  /** Deleting: a foreign alias, a failure of the system, a key that was there, and one that was not. */
  lemma DeletionsAre(k: Keychain, alias: string, osOk: bool)
    ensures !DeletableAlias(alias) ==> Step(k, Delete(alias, osOk)) == (k, Rejected("INVALID_ARGUMENT"))
    ensures DeletableAlias(alias) && !osOk ==> Step(k, Delete(alias, osOk)) == (k, Rejected("WRAP_FAILED"))
    ensures DeletableAlias(alias) && osOk ==> Step(k, Delete(alias, osOk)).1 == Deleted(alias in k.items)
  {
    hide DeletableAlias;
  }

  /** An alias of the vote-record family, and a valid one outside it. */
  lemma VoteRecordAlias()
    ensures DeletableAlias("VOTETORRENT_VOTE_RECORD_WRAP_KEY_V1") && ValidAlias("VOTETORRENT_VOTE_RECORD_WRAP_KEY_V1")
  {
    hide ValidAlias;
    assert IsDigits("1");
    assert "VOTETORRENT_VOTE_RECORD_WRAP_KEY_V1" == PREFIX + VOTE_RECORD + SUFFIX + "1";
    DeletableIsValid("VOTETORRENT_VOTE_RECORD_WRAP_KEY_V1");
  }

  lemma OtherAlias()
    ensures ValidAlias("VOTETORRENT_ID_2_WRAP_KEY_V10")
  {
    assert IsDigits("10") && IsAliasBody("ID_2");
    assert "VOTETORRENT_ID_2_WRAP_KEY_V10" == PREFIX + "ID_2" + SUFFIX + "10";
  }

  /** Only aliases that go on with the vote-record name are deletable. */
  lemma ForeignAliasesStay(alias: string)
    requires DeletableAlias(alias)
    ensures "VOTETORRENT_VOTE_RECORD_WRAP_KEY_V" <= alias && '0' <= alias[|alias| - 1] <= '9'
  {
    var version :| IsDigits(version) && alias == PREFIX + VOTE_RECORD + SUFFIX + version;
    assert PREFIX + VOTE_RECORD + SUFFIX == "VOTETORRENT_VOTE_RECORD_WRAP_KEY_V";
    assert alias[|alias| - 1] == version[|version| - 1];
  }

  // ---------------------------------------------------------------- where the comments promise more

  const VOTE_KEY := PREFIX + VOTE_RECORD + SUFFIX + "1"
  const EMPTY := Keychain(map[], 0)

  /** Every call succeeds, but the no-UI marker read does not see the item. */
  const SILENT := Os(false, true, true, true, None)

  lemma VoteKeyIsValid()
    ensures ValidAlias(VOTE_KEY)
  {
    assert IsAliasBody(VOTE_RECORD) && IsDigits("1");
  }

  /**
   * A call that does not ask for authentication answers NO_WRAP_KEY for an item that its existence probe, or its
   * duplicate add, has just seen.
   */
  lemma SeenItemIsCalledMissing(blob: Blob, aad: int, plaintext: int)
    ensures var k := After(EMPTY, [Wrap(VOTE_KEY, plaintext, aad, true, SILENT), Enroll]);
      && Seen(k, VOTE_KEY, false, SILENT) && Seen(k, VOTE_KEY, true, SILENT)
      && Step(k, Unwrap(VOTE_KEY, blob, aad, false, SILENT)).1 == Rejected(NO_WRAP_KEY)
      && Step(k, Wrap(VOTE_KEY, plaintext, aad, false, SILENT)).1 == Rejected(NO_WRAP_KEY)
  {
    VoteKeyIsValid();
    var w := Wrap(VOTE_KEY, plaintext, aad, true, SILENT);
    AfterTwo(EMPTY, w, Enroll);
    hide ValidAlias, VOTE_KEY;
    var wrapped := Step(EMPTY, w).0;
    assert wrapped.items == map[VOTE_KEY := Item(true, 0, true)];
    var k := Step(wrapped, Enroll).0;
    assert VOTE_KEY in k.items && k.items[VOTE_KEY] == Item(true, 0, false);
    InvalidatedIffSeen(k, VOTE_KEY, false, false, SILENT);
    InvalidatedIffSeen(k, VOTE_KEY, false, true, SILENT);
  }

  lemma AfterTwo(k: Keychain, c: Command, d: Command)
    ensures After(k, [c, d]) == Step(Step(k, c).0, d).0
  {
    hide Step;
    assert [c, d][..1] == [c] && [c][..0] == [];
    assert After(k, [c]) == Step(After(k, []), c).0;
  }

  /**
   * A wrap that asks for authentication seals under a key that was made without it, and the blob opens without
   * authentication: the policy mismatch is not noticed.
   */
  lemma AuthWrapUnderUnprotectedKey(first: int, secret: int, aad: int)
    ensures var k := Step(EMPTY, Wrap(VOTE_KEY, first, aad, false, SILENT)).0;
      var w := Wrap(VOTE_KEY, secret, aad, true, SILENT);
      && VOTE_KEY in k.items && !k.items[VOTE_KEY].auth
      && Step(k, w).1 == Sealed(Blob(k.items[VOTE_KEY].key, aad, secret))
      && Step(Step(k, w).0, Unwrap(VOTE_KEY, Step(k, w).1.blob, aad, false, SILENT)).1 == Opened(secret)
  {
    VoteKeyIsValid();
    hide ValidAlias, VOTE_KEY;
    var k := Step(EMPTY, Wrap(VOTE_KEY, first, aad, false, SILENT)).0;
    assert k.items == map[VOTE_KEY := Item(false, 0, true)];
    OtherPolicyRefusedIffMarked(k, VOTE_KEY, true, true, SILENT);
  }

  // ---------------------------------------------------------------- the module

  class SecretWrap {
    var items: map<string, Item>
    var nextKey: nat

    ghost function View(): Keychain reads this {
      Keychain(items, nextKey)
    }

    /** `valid` is the answer of the alias pattern. */
    method LoadWrapKey(alias: string, valid: bool, requireAuth: bool, createIfMissing: bool, os: Os)
      returns (r: Result<nat, string>)
      requires valid <==> ValidAlias(alias)
      modifies this
      ensures (View(), r) == Load(old(View()), alias, requireAuth, createIfMissing, os)
    {
      hide ValidAlias;
      if !valid { return Err("INVALID_ARGUMENT"); }
      var itemExisted := false;
      var marker: Option<bool> := if os.markerAnswers && alias in items then Some(items[alias].auth) else None;
      if marker.Some? {
        itemExisted := true;
        if marker.value != requireAuth { return Err(MISMATCH); }
      } else if createIfMissing {
        if !os.randomOk { return Err("WRAP_FAILED"); }
        if !os.addOk { return Err("WRAP_FAILED"); }
        if alias in items {
          itemExisted := true;
        } else {
          items := items[alias := Item(requireAuth, nextKey, true)];
          nextKey := nextKey + 1;
        }
      } else {
        itemExisted := alias in items && os.probeAnswers;
      }
      if os.readFails.Some? { return Err(FailureCode(os.readFails.value)); }
      if alias !in items || !items[alias].valid {
        if requireAuth && itemExisted { return Err(KEY_INVALIDATED); }
        return Err(NO_WRAP_KEY);
      }
      return Ok(items[alias].key);
    }

    method WrapSecret(alias: string, valid: bool, plaintext: int, aad: int, requireAuth: bool, os: Os) returns (reply: Reply)
      requires valid <==> ValidAlias(alias)
      modifies this
      ensures (View(), reply) == Step(old(View()), Wrap(alias, plaintext, aad, requireAuth, os))
      ensures reply.Sealed? ==>
        alias in items && items[alias].valid && reply.blob == Blob(items[alias].key, aad, plaintext)
      ensures items == old(items) || (alias !in old(items) && items == old(items)[alias := Item(requireAuth, old(nextKey), true)])
      ensures !valid ==> items == old(items) && reply == Rejected("INVALID_ARGUMENT")
    {
      hide ValidAlias;
      var r := LoadWrapKey(alias, valid, requireAuth, true, os);
      reply := if r.Err? then Rejected(r.error) else Sealed(Blob(r.value, aad, plaintext));
    }

    method UnwrapSecret(alias: string, valid: bool, blob: Blob, aad: int, requireAuth: bool, os: Os) returns (reply: Reply)
      requires valid <==> ValidAlias(alias)
      modifies this
      ensures (View(), reply) == Step(old(View()), Unwrap(alias, blob, aad, requireAuth, os))
      ensures View() == old(View())
    {
      var r := LoadWrapKey(alias, valid, requireAuth, false, os);
      if r.Err? { return Rejected(r.error); }
      reply := if blob.key == r.value && blob.aad == aad then Opened(blob.plaintext) else Rejected(TAG_MISMATCH);
    }

    method DeleteWrapKey(alias: string, deletable: bool, osOk: bool) returns (reply: Reply)
      requires deletable <==> DeletableAlias(alias)
      modifies this
      ensures (View(), reply) == Step(old(View()), Delete(alias, osOk))
      ensures items == old(items) || (DeletableAlias(alias) && items == old(items) - {alias})
      ensures reply.Deleted? ==> alias !in items && (reply.deleted <==> alias in old(items))
      ensures reply.Rejected? ==> items == old(items)
      ensures reply.Deleted? || (reply.Rejected? && (!DeletableAlias(alias) || !osOk))
    {
      hide DeletableAlias;
      if !deletable { return Rejected("INVALID_ARGUMENT"); }
      if !osOk { return Rejected("WRAP_FAILED"); }
      reply := Deleted(alias in items);
      items := items - {alias};
    }
  }
}
