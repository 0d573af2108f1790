/**
 The block as the guest processes it, over tries that may be truncated: loading, one commit and the new
 root, for every outcome of execution.
 */
module GuestBlock {
  import opened Prelude
  import opened HexPrefix
  import opened Trie
  import opened TrieMap
  import opened TrieUnique
  import opened TrieCodec
  import opened TrieResolve
  import opened TrieTruncation
  import opened State
  import opened MemDb
  import opened StateRoot
  import opened SparseRoot
  import opened HealedRoot
  import opened Loading
  import opened BlockState

  // ----- processing

  /** The committed accounts written back into the tries of the input. */
  method WriteBack(H: Hasher, input: GuestInput, accounts: map<Address, DbAccount>)
    returns (root: Option<Hash>, ghost visits: seq<Visit>)
    requires ShapedInput(input)
    ensures WholeTour(accounts, visits) && ShapedLedger(Ledger(input.state, input.storage))
    ensures var r := VisitedAll(H, accounts, Ledger(input.state, input.storage), visits);
            root == if r.Ok? then Some(HashOf(H, r.value.state)) else None
  {
    var db := new Database();
    db.accounts := accounts;
    var builder := new RethBlockBuilder(input.state, input.storage, db);
    var r;
    r, visits := builder.CalculateStateRoot(H);
    root := if r.Ok? then Some(r.value) else None;
  }

  /**
   What processing a block amounts to. There is a root exactly for accepted input whose committed accounts
   can be written back, and it is that of the state trie at the end of some tour over them.
   */
  ghost predicate Processed(H: Hasher, headerHash: Header -> Hash, input: GuestInput, changes: map<Address, Account>,
                            root: Option<Hash>, loaded: map<Address, DbAccount>, accounts: map<Address, DbAccount>,
                            visits: seq<Visit>)
    requires ShapedInput(input)
  {
    && WholeTour(accounts, visits) && ShapedLedger(Ledger(input.state, input.storage))
    && var r := VisitedAll(H, accounts, Ledger(input.state, input.storage), visits);
       && (root.Some? <==> Accepted(H, headerHash, input) && r.Ok?)
       && (root.Some? ==> root.value == HashOf(H, r.value.state))
       && (Accepted(H, headerHash, input) ==> LoadedAll(H, input, loaded) && CommittedAll(loaded, changes, accounts))
  }

  /** Load, take the outcome of executing the block, commit it once, and compute the root. */
  method ProcessBlock(H: Hasher, headerHash: Header -> Hash, input: GuestInput, outcome: map<Address, BundleAccount>)
    returns (root: Option<Hash>, ghost loaded: map<Address, DbAccount>, ghost accounts: map<Address, DbAccount>,
             ghost visits: seq<Visit>)
    requires ShapedInput(input)
    ensures Processed(H, headerHash, input, ChangeSet(outcome), root, loaded, accounts, visits)
  {
    var r := CreateMemDb(H, headerHash, input);
    if r.Err? { return None, map[], map[], []; }
    var committed := CommitOver(r.value.0, ChangeSet(outcome));
    loaded, accounts := r.value.0, committed;
    root, visits := WriteBack(H, input, committed);
  }

  // ----- truncated input

  /** The input stands for a full one: what its tries miss is in the store. */
  ghost predicate Behind(s: Store, input: GuestInput, full: GuestInput) {
    && Canonical(input.state) && Sees(s, input.state, full.state)
    && StorageSees(s, input.storage, full.storage)
    && input.contracts == full.contracts && input.parent == full.parent && input.ancestors == full.ancestors
  }

  lemma {:induction false} BehindIsShaped(s: Store, input: GuestInput, full: GuestInput)
    requires Behind(s, input, full)
    ensures ShapedInput(input) && ShapedInput(full)
    ensures LedgerSees(s, Ledger(input.state, input.storage), Ledger(full.state, full.storage))
  {
  }

  lemma {:induction false} SlotsSeenLoaded(H: Hasher, s: Store, entry: StorageEntry, full: StorageEntry, storage: map<U256, U256>)
    requires Sees(s, entry.trie, full.trie) && Shaped(full.trie) && entry.slots == full.slots
    requires SlotsLoaded(H, entry, storage)
    ensures SlotsLoaded(H, full, storage)
  {
    forall k | k in storage ensures LoadSlot(H, full.trie, k) == Ok(storage[k]) {
      SameAnswer(s, entry.trie, full.trie, SlotKey(H, k));
    }
  }

  lemma {:induction false} AccountSeenLoaded(H: Hasher, s: Store, state: Node, full: Node, a: Address)
    requires Sees(s, state, full) && Shaped(full) && LoadAccount(H, state, a).Ok?
    ensures LoadAccount(H, full, a) == LoadAccount(H, state, a)
  {
    SameAnswer(s, state, full, AccountKey(H, a));
  }

  lemma {:induction false} LoadedSeen(H: Hasher, s: Store, input: GuestInput, full: GuestInput, a: Address, d: DbAccount)
    requires Behind(s, input, full) && ShapedInput(input) && ShapedInput(full) && a in input.storage
    requires Loaded(H, input, a, d)
    ensures Loaded(H, full, a, d)
  {
    AccountSeenLoaded(H, s, input.state, full.state, a);
    SlotsSeenLoaded(H, s, input.storage[a], full.storage[a], d.storage);
  }

  lemma {:induction false} LoadableSeen(H: Hasher, s: Store, input: GuestInput, full: GuestInput, a: Address)
    requires Behind(s, input, full) && ShapedInput(input) && ShapedInput(full) && a in input.storage
    requires KeyedByReference(H, s.nodes) && Loadable(H, input, a)
    ensures Loadable(H, full, a)
  {
    AccountSeenLoaded(H, s, input.state, full.state, a);
    SameHash(H, s, input.storage[a].trie, full.storage[a].trie);
    forall k | k in full.storage[a].slots ensures LoadSlot(H, full.storage[a].trie, k).Ok? {
      assert k in input.storage[a].slots;
      SameAnswer(s, input.storage[a].trie, full.storage[a].trie, SlotKey(H, k));
    }
  }

  /** What is accepted and loaded from truncated tries is what would be from the full ones. */
  lemma {:induction false} LoadingSeen(H: Hasher, headerHash: Header -> Hash, s: Store, input: GuestInput, full: GuestInput,
                                       loaded: map<Address, DbAccount>)
    requires Behind(s, input, full) && KeyedByReference(H, s.nodes) && ShapedInput(input) && ShapedInput(full)
    requires Accepted(H, headerHash, input) && LoadedAll(H, input, loaded)
    ensures Accepted(H, headerHash, full) && LoadedAll(H, full, loaded)
  {
    SameHash(H, s, input.state, full.state);
    forall a | a in full.storage ensures Loadable(H, full, a) { LoadableSeen(H, s, input, full, a); }
    forall a | a in loaded ensures Loaded(H, full, a, loaded[a]) { LoadedSeen(H, s, input, full, a, loaded[a]); }
  }

  // ----- accounts without a storage entry

  lemma {:induction false} TourNeedsEntries(H: Hasher, accounts: map<Address, DbAccount>, l: Ledger, visits: seq<Visit>)
    requires ShapedLedger(l) && Tour(accounts, visits) && VisitedAll(H, accounts, l, visits).Ok?
    ensures VisitedAll(H, accounts, l, visits).value.storage.Keys == l.storage.Keys
    ensures VisitedBy(visits) * Rewritten(accounts) <= l.storage.Keys
    decreases |visits|
  {
    if visits != [] { TourNeedsEntries(H, accounts, l, visits[..|visits| - 1]); }
  }

  lemma {:induction false} UnknownAccount(change: Account)
    ensures var c := Committed(None, change);
            if !change.touched || Removes(change) then c.None?
            else c.Some? && c.value.state != Unaffected && c.value.state != Deleted
  {
    EmptyExactly(change.info);
  }

  lemma {:induction false} UnknownAreGone(loaded: map<Address, DbAccount>, changes: map<Address, Account>,
                                          accounts: map<Address, DbAccount>, a: Address)
    requires CommittedAll(loaded, changes, accounts) && Rewritten(accounts) <= loaded.Keys
    requires a in changes && a !in loaded
    ensures (!changes[a].touched || Removes(changes[a])) && a !in accounts
  {
    UnknownAccount(changes[a]);
    assert Find(accounts, a) == Committed(Find(loaded, a), changes[a]);
    assert a !in Rewritten(accounts);
  }

  lemma {:induction false} OnlyKnownMatter(loaded: map<Address, DbAccount>, changes: map<Address, Account>,
                                           accounts: map<Address, DbAccount>)
    requires CommittedAll(loaded, changes, accounts) && Rewritten(accounts) <= loaded.Keys
    ensures CommittedAll(loaded, Concerning(changes, loaded.Keys), accounts)
  {
    var known := Concerning(changes, loaded.Keys);
    forall a ensures Find(accounts, a) == if a in known then Committed(Find(loaded, a), known[a]) else Find(loaded, a) {
      assert Find(accounts, a) == if a in changes then Committed(Find(loaded, a), changes[a]) else Find(loaded, a);
      if a in changes && a !in loaded { UnknownAreGone(loaded, changes, accounts, a); }
    }
  }

  lemma {:induction false} RewrittenAreKnown(H: Hasher, headerHash: Header -> Hash, input: GuestInput, changes: map<Address, Account>,
                                             root: Option<Hash>, loaded: map<Address, DbAccount>,
                                             accounts: map<Address, DbAccount>, visits: seq<Visit>)
    requires ShapedInput(input) && Processed(H, headerHash, input, changes, root, loaded, accounts, visits) && root.Some?
    ensures Rewritten(accounts) <= input.storage.Keys == loaded.Keys && CommittedAll(loaded, changes, accounts)
  {
    TourNeedsEntries(H, accounts, Ledger(input.state, input.storage), visits);
    assert VisitedBy(visits) * Rewritten(accounts) == Rewritten(accounts);
  }

  /** With a root, every account of the outcome that is there and not empty afterwards had a storage entry. */
  lemma {:induction false} NewAccountsNeedEntries(H: Hasher, headerHash: Header -> Hash, input: GuestInput,
                                                  outcome: map<Address, BundleAccount>, root: Option<Hash>,
                                                  loaded: map<Address, DbAccount>, accounts: map<Address, DbAccount>,
                                                  visits: seq<Visit>, a: Address)
    requires ShapedInput(input) && Processed(H, headerHash, input, ChangeSet(outcome), root, loaded, accounts, visits)
    requires root.Some? && a in outcome && outcome[a].info.Some? && !HasNothing(outcome[a].info.value)
    ensures a in input.storage
  {
    RewrittenAreKnown(H, headerHash, input, ChangeSet(outcome), root, loaded, accounts, visits);
    if a !in input.storage { UnknownAreGone(loaded, ChangeSet(outcome), accounts, a); }
  }

  // ----- the root

  lemma {:induction false} OverlaidRoot(H: Hasher, s: Store, input: GuestInput, full: GuestInput, loaded: map<Address, DbAccount>,
                                        changes: map<Address, Account>, accounts: map<Address, DbAccount>, visits: seq<Visit>)
    returns (y: Ledger)
    requires Behind(s, input, full) && KeyedByReference(H, s.nodes) && ShapedInput(full)
    requires LedgerSees(s, Ledger(input.state, input.storage), Ledger(full.state, full.storage))
    requires LoadedAll(H, full, loaded) && CleanStorage(full.storage) && Complete(H, full.state, full.storage, accounts)
    requires changes.Keys <= loaded.Keys && CommittedAll(loaded, changes, accounts) && WholeTour(accounts, visits)
    requires VisitedAll(H, accounts, Ledger(input.state, input.storage), visits).Ok?
    ensures Overlaid(H, s, full, changes, VisitedAll(H, accounts, Ledger(input.state, input.storage), visits).value, y)
  {
    RootIsRightExactly(H, s, accounts, Ledger(input.state, input.storage), Ledger(full.state, full.storage), visits);
    y := VisitedAll(H, accounts, Ledger(full.state, full.storage), visits).value;
    RootIsOfOverlaidState(H, full, loaded, changes, accounts, y.storage, y.state);
  }

  /**
   The ledger `y` is the full parent state overlaid with the change set; the root of `x` is its root if,
   and without collisions only if, the tries of `x` are canonical once they are resolved.
   */
  ghost predicate Overlaid(H: Hasher, s: Store, full: GuestInput, changes: map<Address, Account>, x: Ledger, y: Ledger)
    requires Ranked(s) && ShapedInput(full) && ShapedLedger(x)
  {
    && ShapedLedger(y) && CanonicalTries(y.storage) && Settled(H, full, changes, y.storage, y.state)
    && (Healed(s, x) ==> HashOf(H, x.state) == HashOf(H, y.state))
    && (NoCollision(H, s, x, y) ==> (HashOf(H, x.state) == HashOf(H, y.state) <==> Healed(s, x)))
  }

  lemma {:induction false} KnownChangesOverlaid(H: Hasher, headerHash: Header -> Hash, s: Store, input: GuestInput, full: GuestInput,
                                                loaded: map<Address, DbAccount>, changes: map<Address, Account>,
                                                accounts: map<Address, DbAccount>, visits: seq<Visit>)
    returns (y: Ledger)
    requires Behind(s, input, full) && KeyedByReference(H, s.nodes) && ShapedInput(input) && ShapedInput(full)
    requires ShapedLedger(Ledger(input.state, input.storage))
    requires Full(full.state) && CleanStorage(full.storage) && KeysInUseDiffer(H, full, changes)
    requires Accepted(H, headerHash, input) && LoadedAll(H, input, loaded)
    requires changes.Keys <= loaded.Keys && CommittedAll(loaded, changes, accounts) && WholeTour(accounts, visits)
    requires VisitedAll(H, accounts, Ledger(input.state, input.storage), visits).Ok?
    ensures Overlaid(H, s, full, changes, VisitedAll(H, accounts, Ledger(input.state, input.storage), visits).value, y)
  {
    BehindIsShaped(s, input, full);
    LoadingSeen(H, headerHash, s, input, full, loaded);
    CommitIsComplete(H, full, loaded, changes, accounts);
    y := OverlaidRoot(H, s, input, full, loaded, changes, accounts, visits);
  }

  lemma {:induction false} ChangesOverlaid(H: Hasher, headerHash: Header -> Hash, s: Store, input: GuestInput, full: GuestInput,
                                           changes: map<Address, Account>, root: Option<Hash>,
                                           loaded: map<Address, DbAccount>, accounts: map<Address, DbAccount>, visits: seq<Visit>)
    returns (x: Ledger, y: Ledger)
    requires Behind(s, input, full) && KeyedByReference(H, s.nodes) && ShapedInput(input) && ShapedInput(full)
    requires Full(full.state) && CleanStorage(full.storage) && KeysInUseDiffer(H, full, changes)
    requires Processed(H, headerHash, input, changes, root, loaded, accounts, visits) && root.Some?
    ensures ShapedLedger(x) && root.value == HashOf(H, x.state)
    ensures VisitedAll(H, accounts, Ledger(input.state, input.storage), visits) == Ok(x)
    ensures Overlaid(H, s, full, Concerning(changes, input.storage.Keys), x, y)
  {
    RewrittenAreKnown(H, headerHash, input, changes, root, loaded, accounts, visits);
    OnlyKnownMatter(loaded, changes, accounts);
    SameKeysInUse(H, full, changes, Concerning(changes, loaded.Keys));
    x := VisitedAll(H, accounts, Ledger(input.state, input.storage), visits).value;
    y := KnownChangesOverlaid(H, headerHash, s, input, full, loaded, Concerning(changes, loaded.Keys), accounts, visits);
  }

  /**
   The root over truncated tries, beside the full parent state overlaid with the outcome of execution for the
   accounts that have a storage entry; the others are void. The root is that state's if, and without collisions
   only if, the tries in the end are canonical once they are resolved.
   */
  lemma {:induction false} ProcessedRoot(H: Hasher, headerHash: Header -> Hash, s: Store, input: GuestInput, full: GuestInput,
                                         outcome: map<Address, BundleAccount>, root: Option<Hash>,
                                         loaded: map<Address, DbAccount>, accounts: map<Address, DbAccount>, visits: seq<Visit>)
    returns (x: Ledger, y: Ledger)
    requires Behind(s, input, full) && KeyedByReference(H, s.nodes) && ShapedInput(input) && ShapedInput(full)
    requires Full(full.state) && CleanStorage(full.storage) && KeysInUseDiffer(H, full, ChangeSet(outcome))
    requires Processed(H, headerHash, input, ChangeSet(outcome), root, loaded, accounts, visits) && root.Some?
    ensures ShapedLedger(x) && root.value == HashOf(H, x.state)
    ensures VisitedAll(H, accounts, Ledger(input.state, input.storage), visits) == Ok(x)
    ensures ShapedLedger(y) && CanonicalTries(y.storage) && OutcomeSettled(H, full, outcome, y.storage, y.state)
    ensures Healed(s, x) ==> root.value == HashOf(H, y.state)
    ensures NoCollision(H, s, x, y) ==> (root.value == HashOf(H, y.state) <==> Healed(s, x))
  {
    x, y := ChangesOverlaid(H, headerHash, s, input, full, ChangeSet(outcome), root, loaded, accounts, visits);
    OutcomeSettles(H, full, outcome, y.storage, y.state);
  }

  lemma {:induction false} SameKeysInUse(H: Hasher, full: GuestInput, changes: map<Address, Account>, known: map<Address, Account>)
    requires KeysInUseDiffer(H, full, changes) && known == Concerning(changes, full.storage.Keys)
    ensures KeysInUseDiffer(H, full, known)
  {
    forall a | a in full.storage ensures SlotKeysDiffer(H, SlotsInUse(full.storage[a], known, a)) {
      assert SlotsInUse(full.storage[a], known, a) == SlotsInUse(full.storage[a], changes, a);
    }
  }

  /** Input with nothing truncated stands for itself, with nothing in the store. */
  lemma {:induction false} WholeInputIsBehindItself(s: Store, input: GuestInput)
    requires s.nodes == map[] && Canonical(input.state) && CanonicalTries(input.storage)
    ensures Ranked(s) && Behind(s, input, input)
  {
    assert Ranked(s);
    EmptyStoreSees(s, input.state, Ceiling(s, input.state));
    forall a | a in input.storage ensures Sees(s, input.storage[a].trie, input.storage[a].trie) {
      EmptyStoreSees(s, input.storage[a].trie, Ceiling(s, input.storage[a].trie));
    }
  }

  /** With nothing truncated, no tour over committed accounts fails, and all end in healed tries. */
  lemma {:induction false} NothingTruncated(H: Hasher, s: Store, input: GuestInput, loaded: map<Address, DbAccount>,
                                            changes: map<Address, Account>, accounts: map<Address, DbAccount>, visits: seq<Visit>)
    requires ShapedInput(input) && Full(input.state) && CleanStorage(input.storage) && s.nodes == map[]
    requires LoadedAll(H, input, loaded) && KeysInUseDiffer(H, input, changes)
    requires changes.Keys <= loaded.Keys && CommittedAll(loaded, changes, accounts) && WholeTour(accounts, visits)
    ensures ShapedLedger(Ledger(input.state, input.storage)) && Ranked(s)
    ensures var r := VisitedAll(H, accounts, Ledger(input.state, input.storage), visits); r.Ok? && Healed(s, r.value)
  {
    var l := Ledger(input.state, input.storage);
    CommitIsComplete(H, input, loaded, changes, accounts);
    RootOfFull(H, input.state, input.storage, accounts, visits);
    WholeInputIsBehindItself(s, input);
    BehindIsShaped(s, input, input);
    EmptyStoreIsClear(H, s, accounts, l, visits);
    UnobstructedIsHealed(H, s, accounts, l, l, visits);
  }

  // ----- idle commits

  /** A change that, if it touches the account at all, changes nothing that was loaded. */
  predicate Idle(loaded: DbAccount, change: Account) {
    change.touched ==>
      && !change.selfdestructed && !change.created
      && change.info.balance == loaded.info.balance && change.info.nonce == loaded.info.nonce
      && change.info.codeHash == loaded.info.codeHash
      && forall k :: k in change.storage && change.storage[k].original != change.storage[k].present ==>
           k in loaded.storage && change.storage[k].present == loaded.storage[k]
  }

  ghost predicate AllIdle(loaded: map<Address, DbAccount>, changes: map<Address, Account>) {
    forall a :: a in changes ==>
      if a in loaded then Idle(loaded[a], changes[a]) else !changes[a].touched || Removes(changes[a])
  }

  /** The state trie stores the account as the program itself would write it, and no empty account. */
  ghost predicate AccountIsCanonical(H: Hasher, state: Node, a: Address)
    requires Shaped(state)
  {
    var e := Get(state, AccountKey(H, a));
    e == Ok(None) || exists s :: e == Ok(Some(EncodeAccount(s))) && !IsBlank(s.balance, s.nonce, s.codeHash)
  }

  ghost predicate CleanAccounts(H: Hasher, input: GuestInput)
    requires Shaped(input.state)
  {
    forall a :: a in input.storage ==> AccountIsCanonical(H, input.state, a)
  }

  /** Writing what is there already changes nothing, in a truncated trie too. */
  lemma {:induction false} IdleWrite(s: Store, n: Node, full: Node, key: Nibbles, entry: Option<Bytes>)
    requires Sees(s, n, full) && Canonical(n) && Full(full) && |key| == KEY_NIBBLES && Get(n, key) == Ok(entry)
    ensures Write(n, key, entry) == Step(n, Ok(false))
  {
    var b := Ceiling(s, n);
    match entry
    case None =>
      NeverRefused(full, key, []);
      DeleteResult(n, key);
      DeleteUnchangedTransparent(s, n, b, key);
    case Some(v) =>
      NeverRefused(full, key, v);
      InsertResult(n, key, v);
      InsertTransparent(s, n, b, key, v);
  }

  lemma {:induction false} IdleSlots(H: Hasher, s: Store, n: Node, full: Node, slots: map<U256, U256>, order: seq<U256>)
    requires Sees(s, n, full) && Canonical(n) && Full(full)
    requires forall k :: k in order ==> k in slots && SlotIsCanonical(H, n, k, slots[k])
    ensures WriteSlots(H, n, slots, order) == Ok(n)
    decreases |order|
  {
    if order != [] {
      var k := order[|order| - 1];
      IdleSlots(H, s, n, full, slots, order[..|order| - 1]);
      assert k in order;
      IdleWrite(s, n, full, SlotKey(H, k), SlotEntry(slots[k]));
    }
  }

  lemma {:induction false} LoadedSlotIsThere(H: Hasher, s: Store, n: Node, full: Node, k: U256)
    requires Sees(s, n, full) && Full(full) && CanonicalSlots(full) && LoadSlot(H, n, k).Ok?
    ensures SlotIsCanonical(H, n, k, LoadSlot(H, n, k).value)
  {
    SameAnswer(s, n, full, SlotKey(H, k));
    LoadedSlotIsCanonical(H, full, k);
  }

  lemma {:induction false} LoadedEntry(H: Hasher, state: Node, a: Address, s: StateAccount)
    requires Shaped(state) && Get(state, AccountKey(H, a)) == Ok(Some(EncodeAccount(s)))
    ensures LoadAccount(H, state, a) == Ok(s)
  {
    AccountRoundTrip(s);
  }

  /** What an idle commit makes of a loaded account. */
  lemma {:induction false} IdleCommit(loaded: DbAccount, change: Account)
    requires loaded.state == Unaffected && Idle(loaded, change)
    ensures var c := Committed(Some(loaded), change);
            && c.Some? && (c.value.state != Unaffected <==> change.touched)
            && (change.touched && IsEmpty(loaded.info) ==> c.value.state == Deleted)
            && (change.touched && !IsEmpty(loaded.info) ==>
                  c.value.state == Touched && SameInfo(c.value.info, loaded.info) && c.value.storage == loaded.storage)
  {
    CommitOfLoaded(loaded, change);
    if change.touched { assert loaded.storage + Written(change.storage) == loaded.storage; }
  }

  /** What is to be written for an account that an idle commit touched is what the state trie holds. */
  lemma {:induction false} IdleEntry(H: Hasher, s: Store, input: GuestInput, full: GuestInput, a: Address,
                                     loaded: DbAccount, change: Account, c: DbAccount)
    requires Behind(s, input, full) && ShapedInput(input) && ShapedInput(full) && a in input.storage
    requires Loadable(H, input, a) && Loaded(H, input, a, loaded) && AccountIsCanonical(H, full.state, a)
    requires Idle(loaded, change) && change.touched && Committed(Some(loaded), change) == Some(c)
    ensures Get(input.state, AccountKey(H, a)) == Ok(AccountEntry(H, c, input.storage[a].trie))
  {
    IdleCommit(loaded, change);
    SameAnswer(s, input.state, full.state, AccountKey(H, a));
    var e := Get(input.state, AccountKey(H, a));
    if e != Ok(None) {
      var x :| e == Ok(Some(EncodeAccount(x))) && !IsBlank(x.balance, x.nonce, x.codeHash);
      LoadedEntry(H, input.state, a, x);
    }
  }

  lemma {:induction false} IdleStorage(H: Hasher, s: Store, input: GuestInput, full: GuestInput, loaded: DbAccount, c: DbAccount, v: Visit)
    requires Behind(s, input, full) && ShapedInput(input) && v.a in input.storage
    requires Full(full.storage[v.a].trie) && CanonicalSlots(full.storage[v.a].trie)
    requires SlotsLoaded(H, input.storage[v.a], loaded.storage)
    requires c.state == Deleted || (c.state == Touched && c.storage == loaded.storage)
    requires forall k :: k in v.slots ==> k in c.storage
    ensures ShapedLedger(Ledger(input.state, input.storage))
    ensures SettleStorage(H, Ledger(input.state, input.storage), c, v) == Ok(Ledger(input.state, input.storage))
  {
    if c.state != Deleted {
      var n, full := input.storage[v.a].trie, full.storage[v.a].trie;
      forall k | k in v.slots ensures k in c.storage && SlotIsCanonical(H, n, k, c.storage[k]) {
        LoadedSlotIsThere(H, s, n, full, k);
      }
      IdleSlots(H, s, n, full, c.storage, v.slots);
      assert input.storage[v.a := input.storage[v.a].(trie := n)] == input.storage;
    }
  }

  /** Visiting an account that an idle commit left behind changes nothing. */
  lemma {:induction false} IdleVisit(H: Hasher, s: Store, input: GuestInput, full: GuestInput, loaded: DbAccount, change: Account,
                                     accounts: map<Address, DbAccount>, v: Visit)
    requires Behind(s, input, full) && ShapedInput(input) && ShapedInput(full) && v.a in input.storage
    requires Full(full.state) && Full(full.storage[v.a].trie) && CanonicalSlots(full.storage[v.a].trie)
    requires Loadable(H, input, v.a) && Loaded(H, input, v.a, loaded) && AccountIsCanonical(H, full.state, v.a)
    requires Sensible(accounts, v) && Idle(loaded, change) && Committed(Some(loaded), change) == Some(accounts[v.a])
    ensures ShapedLedger(Ledger(input.state, input.storage))
    ensures Visited(H, accounts, Ledger(input.state, input.storage), v) == Ok(Ledger(input.state, input.storage))
  {
    var c := accounts[v.a];
    IdleCommit(loaded, change);
    if change.touched {
      IdleStorage(H, s, input, full, loaded, c, v);
      IdleEntry(H, s, input, full, v.a, loaded, change, c);
      IdleWrite(s, input.state, full.state, AccountKey(H, v.a), AccountEntry(H, c, input.storage[v.a].trie));
    }
  }

  /** Everything about the input and the commit that makes the write-back idle. */
  ghost predicate IdleOver(H: Hasher, s: Store, input: GuestInput, full: GuestInput, loaded: map<Address, DbAccount>,
                           changes: map<Address, Account>, accounts: map<Address, DbAccount>)
  {
    && Behind(s, input, full) && ShapedInput(input) && ShapedInput(full)
    && Full(full.state) && CleanStorage(full.storage) && CleanAccounts(H, full)
    && LoadedAll(H, input, loaded) && (forall a :: a in input.storage ==> Loadable(H, input, a))
    && AllIdle(loaded, changes) && CommittedAll(loaded, changes, accounts)
  }

  lemma {:induction false} IdleStep(H: Hasher, s: Store, input: GuestInput, full: GuestInput, loaded: map<Address, DbAccount>,
                                    changes: map<Address, Account>, accounts: map<Address, DbAccount>, v: Visit)
    requires IdleOver(H, s, input, full, loaded, changes, accounts) && Sensible(accounts, v)
    ensures ShapedLedger(Ledger(input.state, input.storage))
    ensures Visited(H, accounts, Ledger(input.state, input.storage), v) == Ok(Ledger(input.state, input.storage))
  {
    var a := v.a;
    assert Find(accounts, a) == if a in changes then Committed(Find(loaded, a), changes[a]) else Find(loaded, a);
    if a in changes {
      if a in loaded {
        assert Idle(loaded[a], changes[a]) && Loaded(H, input, a, loaded[a]) && Loadable(H, input, a);
        assert AccountIsCanonical(H, full.state, a);
        IdleVisit(H, s, input, full, loaded[a], changes[a], accounts, v);
      } else {
        UnknownAccount(changes[a]);
      }
    } else {
      assert Loaded(H, input, a, loaded[a]);
    }
  }

  /** No tour after an idle commit fails or changes anything. */
  lemma {:induction false} IdleTour(H: Hasher, s: Store, input: GuestInput, full: GuestInput, loaded: map<Address, DbAccount>,
                                    changes: map<Address, Account>, accounts: map<Address, DbAccount>, visits: seq<Visit>)
    requires IdleOver(H, s, input, full, loaded, changes, accounts) && Tour(accounts, visits)
    ensures ShapedLedger(Ledger(input.state, input.storage))
    ensures VisitedAll(H, accounts, Ledger(input.state, input.storage), visits) == Ok(Ledger(input.state, input.storage))
    decreases |visits|
  {
    if visits != [] {
      IdleTour(H, s, input, full, loaded, changes, accounts, visits[..|visits| - 1]);
      IdleStep(H, s, input, full, loaded, changes, accounts, visits[|visits| - 1]);
    }
  }

  /**
   Load and write back is the identity: for accepted input, truncated or not, processing a block that
   changes no loaded value gives a root, and it is the parent's.
   */
  lemma {:induction false} IdleBlockKeepsRoot(H: Hasher, headerHash: Header -> Hash, s: Store, input: GuestInput, full: GuestInput,
                                              changes: map<Address, Account>, root: Option<Hash>,
                                              loaded: map<Address, DbAccount>, accounts: map<Address, DbAccount>, visits: seq<Visit>)
    requires Behind(s, input, full) && ShapedInput(input) && ShapedInput(full)
    requires Full(full.state) && CleanStorage(full.storage) && CleanAccounts(H, full)
    requires Processed(H, headerHash, input, changes, root, loaded, accounts, visits)
    requires Accepted(H, headerHash, input) && AllIdle(loaded, changes)
    ensures root == Some(input.parent.stateRoot)
  {
    IdleTour(H, s, input, full, loaded, changes, accounts, visits);
  }
}
