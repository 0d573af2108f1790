/**
 The whole way from a checked parent state through one commit to the new state root, stated in terms
 of the parent tries and the change set alone.
 */
module BlockState {
  import opened Prelude
  import opened HexPrefix
  import opened Trie
  import opened TrieCodec
  import opened State
  import opened MemDb
  import opened StateRoot
  import opened Loading

  // ----- the root does not depend on the order of visits

  lemma {:induction false} SameStorage(H: Hasher, parent: Storage, accounts: map<Address, DbAccount>, s: Storage, t: Storage)
    requires StorageWritten(H, accounts, parent, accounts.Keys, s) && StorageWritten(H, accounts, parent, accounts.Keys, t)
    ensures forall a :: TrieOf(s, a) == TrieOf(t, a)
  {
    forall a ensures TrieOf(s, a) == TrieOf(t, a) {
      if a in accounts.Keys * Rewritten(accounts) {
        StorageOverIsUnique(H, StorageBase(accounts[a], parent[a].trie), accounts[a].storage, s[a].trie, t[a].trie);
      }
    }
  }

  lemma {:induction false} SameAccountPatch(H: Hasher, accounts: map<Address, DbAccount>, s: Storage, t: Storage, p: Patch, q: Patch)
    requires CanonicalTries(s) && CanonicalTries(t) && forall a :: TrieOf(s, a) == TrieOf(t, a)
    requires AccountPatch(H, accounts, s, Affected(accounts), p) && AccountPatch(H, accounts, t, Affected(accounts), q)
    ensures p == q
  {
    forall x | x in p ensures p[x] == q[x] {
      var a :| a in Affected(accounts) && x == AccountKey(H, a);
    }
  }

  /** Whatever the order of the hash maps, the state trie and so the root come out the same. */
  lemma {:induction false} RootIsDetermined(H: Hasher, base: Node, parent: Storage, accounts: map<Address, DbAccount>,
                                            s: Storage, x: Node, t: Storage, y: Node)
    requires RootOver(H, base, parent, accounts, s, x) && RootOver(H, base, parent, accounts, t, y)
    ensures x == y && HashOf(H, x) == HashOf(H, y)
  {
    SameStorage(H, parent, accounts, s, t);
    var p :| AccountPatch(H, accounts, s, Affected(accounts), p) && Patched(base, p, x);
    var q :| AccountPatch(H, accounts, t, Affected(accounts), q) && Patched(base, q, y);
    SameAccountPatch(H, accounts, s, t, p, q);
    PatchedIsUnique(base, p, x, y);
  }

  // ----- loaded slots that are written back

  /** The trie stores the slot as the program itself would write it. */
  predicate SlotIsCanonical(H: Hasher, trie: Node, k: U256, v: U256)
    requires Shaped(trie)
  {
    Get(trie, SlotKey(H, k)) == Ok(SlotEntry(v))
  }

  /** Every value in the trie is the encoding of a number other than zero. */
  ghost predicate CanonicalSlots(trie: Node)
    requires Shaped(trie)
  {
    forall q :: Holds(trie, q) ==> exists v: U256 :: v != 0 && Get(trie, q) == Ok(Some(EncodeUint(v)))
  }

  lemma {:induction false} LoadedSlotIsCanonical(H: Hasher, trie: Node, k: U256)
    requires Full(trie) && CanonicalSlots(trie) && LoadSlot(H, trie, k).Ok?
    ensures SlotIsCanonical(H, trie, k, LoadSlot(H, trie, k).value)
  {
    var q := SlotKey(H, k);
    if Holds(trie, q) {
      var v: U256 :| v != 0 && Get(trie, q) == Ok(Some(EncodeUint(v)));
      UintRoundTrip(v);
    }
  }

  lemma {:induction false} RestrictPatch(H: Hasher, all: map<U256, U256>, written: map<U256, U256>, p: Patch) returns (w: Patch)
    requires SlotPatch(H, all, all.Keys, p) && written.Keys <= all.Keys
    requires forall k :: k in written ==> all[k] == written[k]
    ensures SlotPatch(H, written, written.Keys, w)
    ensures forall q :: q in w ==> q in p && p[q] == w[q]
    ensures forall k :: k in written ==> SlotKey(H, k) in w
  {
    var keys := set k | k in written.Keys :: SlotKey(H, k);
    w := map q | q in keys && q in p :: p[q];
    forall k | k in written ensures SlotKey(H, k) in keys && SlotKey(H, k) in p {
      assert k in all.Keys;
    }
    assert w.Keys == keys;
  }

  lemma {:induction false} LoadedKeyIsIdle(H: Hasher, parent: Node, loaded: map<U256, U256>, all: map<U256, U256>,
                                           written: map<U256, U256>, p: Patch, w: Patch, q: Nibbles)
    requires Shaped(parent) && all == loaded + written && SlotPatch(H, all, all.Keys, p) && q in p && q !in w
    requires forall k :: k in loaded ==> SlotIsCanonical(H, parent, k, loaded[k])
    requires forall k :: k in written ==> SlotKey(H, k) in w
    ensures Get(parent, q) == Ok(p[q])
  {
    var k :| k in all.Keys && q == SlotKey(H, k);
    assert k in loaded && SlotIsCanonical(H, parent, k, loaded[k]);
  }

  /** Writing loaded values back makes no difference: only what changed counts. */
  lemma {:induction false} LoadedSlotsDropOut(H: Hasher, parent: Node, loaded: map<U256, U256>, written: map<U256, U256>, after: Node)
    requires StorageOver(H, parent, loaded + written, after)
    requires Shaped(parent) && forall k :: k in loaded ==> SlotIsCanonical(H, parent, k, loaded[k])
    ensures StorageOver(H, parent, written, after)
  {
    var all := loaded + written;
    var p :| SlotPatch(H, all, all.Keys, p) && Patched(parent, p, after);
    var w := RestrictPatch(H, all, written, p);
    forall q ensures Get(after, q) == if q in w then Ok(w[q]) else Get(parent, q) {
      if q in p && q !in w { LoadedKeyIsIdle(H, parent, loaded, all, written, p, w, q); }
    }
    assert Patched(parent, w, after);
  }

  lemma {:induction false} TouchedStorage(H: Hasher, entry: StorageEntry, loaded: map<U256, U256>, written: map<U256, U256>, after: Node)
    requires Full(entry.trie) && CanonicalSlots(entry.trie) && SlotsLoaded(H, entry, loaded)
    requires StorageOver(H, entry.trie, loaded + written, after)
    ensures StorageOver(H, entry.trie, written, after)
  {
    forall k | k in loaded ensures SlotIsCanonical(H, entry.trie, k, loaded[k]) {
      LoadedSlotIsCanonical(H, entry.trie, k);
    }
    LoadedSlotsDropOut(H, entry.trie, loaded, written, after);
  }

  // ----- one commit over loaded accounts

  function TouchedBy(changes: map<Address, Account>): set<Address> {
    set a | a in changes && changes[a].touched
  }

  ghost predicate NoChangeAt(H: Hasher, slots: map<U256, Slot>, q: Nibbles) {
    forall k :: k in slots && slots[k].original != slots[k].present ==> SlotKey(H, k) != q
  }

  /** A full trie that holds the new value of every slot that changed, or nothing for zero, and else what `base` does. */
  ghost predicate SlotsSettled(H: Hasher, base: Node, slots: map<U256, Slot>, trie: Node)
    requires Shaped(base) && Shaped(trie)
  {
    && Full(trie)
    && (forall k :: k in slots && slots[k].original != slots[k].present ==>
          Get(trie, SlotKey(H, k)) == Ok(if slots[k].present == 0 then None else Some(EncodeUint(slots[k].present))))
    && (forall q :: NoChangeAt(H, slots, q) ==> Get(trie, q) == Get(base, q))
  }

  lemma {:induction false} WrittenSettles(H: Hasher, base: Node, slots: map<U256, Slot>, trie: Node)
    requires Shaped(base) && Shaped(trie) && StorageOver(H, base, Written(slots), trie)
    ensures SlotsSettled(H, base, slots, trie)
  {
    var w := Written(slots);
    var p :| SlotPatch(H, w, w.Keys, p) && Patched(base, p, trie);
    forall k | k in slots && slots[k].original != slots[k].present
      ensures Get(trie, SlotKey(H, k)) == Ok(if slots[k].present == 0 then None else Some(EncodeUint(slots[k].present)))
    {
      assert k in w.Keys && SlotKey(H, k) in p.Keys;
    }
    forall q | NoChangeAt(H, slots, q) ensures Get(trie, q) == Get(base, q) {
      assert q !in (set k | k in w.Keys :: SlotKey(H, k));
    }
  }

  /** What the state trie holds for an account with the given info and storage. */
  function Recorded(H: Hasher, info: AccountInfo, trie: Node): Option<Bytes>
    requires Shaped(trie)
  {
    Some(EncodeAccount(StateAccount(info.nonce, info.balance, HashOf(H, trie), info.codeHash)))
  }

  /** What becomes of one touched account: removed, or rewritten over its parent storage or over none. */
  ghost predicate AccountSettled(H: Hasher, parent: Node, change: Account, trie: Node, entry: Option<Bytes>)
    requires Shaped(parent) && Shaped(trie)
  {
    if Removes(change) then entry == None
    else
      && entry == Recorded(H, change.info, trie)
      && SlotsSettled(H, if change.created then Null else parent, change.storage, trie)
  }

  ghost predicate NoTouchedAt(H: Hasher, changes: map<Address, Account>, q: Nibbles) {
    forall a :: a in TouchedBy(changes) ==> AccountKey(H, a) != q
  }

  ghost predicate TouchedSettled(H: Hasher, storage: Storage, changes: map<Address, Account>, tries: Storage, after: Node)
    requires Shaped(after) && CanonicalTries(tries) && forall a :: a in storage ==> Shaped(storage[a].trie)
  {
    forall a :: a in TouchedBy(changes) && a in storage ==>
      && Get(after, AccountKey(H, a)).Ok?
      && AccountSettled(H, storage[a].trie, changes[a], TrieOf(tries, a), Get(after, AccountKey(H, a)).value)
  }

  ghost predicate OthersKept(H: Hasher, state: Node, changes: map<Address, Account>, after: Node)
    requires Shaped(state) && Shaped(after)
  {
    forall q :: NoTouchedAt(H, changes, q) ==> Get(after, q) == Get(state, q)
  }

  /** The parent state overlaid with the change set. */
  ghost predicate Settled(H: Hasher, input: GuestInput, changes: map<Address, Account>, storage: Storage, after: Node)
    requires ShapedInput(input) && CanonicalTries(storage)
  {
    && Full(after)
    && TouchedSettled(H, input.storage, changes, storage, after)
    && OthersKept(H, input.state, changes, after)
  }

  /** What a commit makes of an account that was just loaded. */
  lemma {:induction false} CommitOfLoaded(loaded: DbAccount, change: Account)
    requires loaded.state == Unaffected
    ensures var c := Committed(Some(loaded), change);
            && c.Some?
            && (c.value.state != Unaffected <==> change.touched)
            && (change.touched && Removes(change) ==> c.value.state == Deleted)
            && (change.touched && !Removes(change) && change.created ==>
                  c.value == DbAccount(change.info, StorageCleared, Written(change.storage)))
            && (change.touched && !Removes(change) && !change.created ==>
                  c.value == DbAccount(change.info, Touched, loaded.storage + Written(change.storage)))
  {
    EmptyExactly(change.info);
  }

  lemma {:induction false} AffectedAreTouched(H: Hasher, input: GuestInput, loaded: map<Address, DbAccount>,
                                              changes: map<Address, Account>, accounts: map<Address, DbAccount>)
    requires ShapedInput(input) && LoadedAll(H, input, loaded)
    requires changes.Keys <= loaded.Keys && CommittedAll(loaded, changes, accounts)
    ensures Affected(accounts) == TouchedBy(changes)
  {
    forall a ensures a in Affected(accounts) <==> a in TouchedBy(changes) {
      assert Find(accounts, a) == if a in changes then Committed(Find(loaded, a), changes[a]) else Find(loaded, a);
      if a in loaded {
        assert Loaded(H, input, a, loaded[a]);
        if a in changes { CommitOfLoaded(loaded[a], changes[a]); }
      }
    }
  }

  lemma {:induction false} SlotsOfLoaded(H: Hasher, entry: StorageEntry, loaded: map<U256, U256>, change: Account,
                                         committed: map<U256, U256>, trie: Node)
    requires Full(entry.trie) && CanonicalSlots(entry.trie) && SlotsLoaded(H, entry, loaded) && Shaped(trie)
    requires committed == if change.created then Written(change.storage) else loaded + Written(change.storage)
    requires StorageOver(H, if change.created then Null else entry.trie, committed, trie)
    ensures SlotsSettled(H, if change.created then Null else entry.trie, change.storage, trie)
  {
    if !change.created { TouchedStorage(H, entry, loaded, Written(change.storage), trie); }
    WrittenSettles(H, if change.created then Null else entry.trie, change.storage, trie);
  }

  lemma {:induction false} OneAccountSettles(H: Hasher, input: GuestInput, loaded: DbAccount, change: Account,
                                             account: DbAccount, a: Address, trie: Node)
    requires a in input.storage && Full(input.storage[a].trie) && CanonicalSlots(input.storage[a].trie)
    requires Shaped(input.state) && Loaded(H, input, a, loaded) && change.touched && Shaped(trie)
    requires Committed(Some(loaded), change) == Some(account)
    requires account.state != Deleted ==>
               StorageOver(H, StorageBase(account, input.storage[a].trie), account.storage, trie)
    ensures AccountSettled(H, input.storage[a].trie, change, trie, AccountEntry(H, account, trie))
  {
    CommitOfLoaded(loaded, change);
    if !Removes(change) {
      SlotsOfLoaded(H, input.storage[a], loaded.storage, change, account.storage, trie);
    }
  }

  lemma {:induction false} UntouchedKey(H: Hasher, accounts: map<Address, DbAccount>, storage: Storage,
                                        changes: map<Address, Account>, p: Patch, q: Nibbles)
    requires CanonicalTries(storage) && AccountPatch(H, accounts, storage, Affected(accounts), p)
    requires Affected(accounts) == TouchedBy(changes) && NoTouchedAt(H, changes, q)
    ensures q !in p
  {
    assert q !in (set a | a in Affected(accounts) :: AccountKey(H, a));
  }

  lemma {:induction false} TouchedKey(H: Hasher, input: GuestInput, loaded: map<Address, DbAccount>,
                                      changes: map<Address, Account>, accounts: map<Address, DbAccount>,
                                      storage: Storage, a: Address)
    requires ShapedInput(input) && LoadedAll(H, input, loaded)
    requires CommittedAll(loaded, changes, accounts) && a in TouchedBy(changes) && a in input.storage
    requires Full(input.storage[a].trie) && CanonicalSlots(input.storage[a].trie)
    requires StorageWritten(H, accounts, input.storage, accounts.Keys, storage)
    ensures a in accounts
    ensures AccountSettled(H, input.storage[a].trie, changes[a], TrieOf(storage, a),
                           AccountEntry(H, accounts[a], TrieOf(storage, a)))
  {
    assert Find(accounts, a) == Committed(Find(loaded, a), changes[a]);
    assert Loaded(H, input, a, loaded[a]);
    CommitOfLoaded(loaded[a], changes[a]);
    if accounts[a].state != Deleted { assert a in accounts.Keys * Rewritten(accounts); }
    OneAccountSettles(H, input, loaded[a], changes[a], accounts[a], a, TrieOf(storage, a));
  }

  lemma {:induction false} TouchedAccounts(H: Hasher, input: GuestInput, loaded: map<Address, DbAccount>,
                                           changes: map<Address, Account>, accounts: map<Address, DbAccount>,
                                           storage: Storage, p: Patch, after: Node)
    requires ShapedInput(input) && LoadedAll(H, input, loaded) && CleanStorage(input.storage)
    requires CommittedAll(loaded, changes, accounts) && Affected(accounts) == TouchedBy(changes)
    requires StorageWritten(H, accounts, input.storage, accounts.Keys, storage)
    requires AccountPatch(H, accounts, storage, Affected(accounts), p) && Patched(input.state, p, after)
    ensures TouchedSettled(H, input.storage, changes, storage, after)
  {
    forall a | a in TouchedBy(changes) && a in input.storage
      ensures Get(after, AccountKey(H, a)).Ok?
      ensures AccountSettled(H, input.storage[a].trie, changes[a], TrieOf(storage, a), Get(after, AccountKey(H, a)).value)
    {
      TouchedKey(H, input, loaded, changes, accounts, storage, a);
      assert a in Affected(accounts);
    }
  }

  lemma {:induction false} OtherAccounts(H: Hasher, accounts: map<Address, DbAccount>, storage: Storage,
                                         changes: map<Address, Account>, p: Patch, state: Node, after: Node)
    requires CanonicalTries(storage) && AccountPatch(H, accounts, storage, Affected(accounts), p)
    requires Affected(accounts) == TouchedBy(changes) && Patched(state, p, after)
    ensures OthersKept(H, state, changes, after)
  {
    forall q | NoTouchedAt(H, changes, q) ensures Get(after, q) == Get(state, q) {
      UntouchedKey(H, accounts, storage, changes, p, q);
    }
  }

  /**
   The state root is the root of the overlaid state: after one commit over loaded accounts, the trie
   holds the parent entries with deleted accounts removed and touched accounts rewritten, their
   changed slots written over the parent storage, or over nothing if the account was created.
   */
  lemma {:induction false} RootIsOfOverlaidState(H: Hasher, input: GuestInput, loaded: map<Address, DbAccount>,
                                                 changes: map<Address, Account>, accounts: map<Address, DbAccount>,
                                                 storage: Storage, after: Node)
    requires ShapedInput(input) && LoadedAll(H, input, loaded)
    requires changes.Keys <= loaded.Keys && CommittedAll(loaded, changes, accounts)
    requires CleanStorage(input.storage)
    requires RootOver(H, input.state, input.storage, accounts, storage, after)
    ensures Settled(H, input, changes, storage, after)
  {
    var p :| AccountPatch(H, accounts, storage, Affected(accounts), p) && Patched(input.state, p, after);
    AffectedAreTouched(H, input, loaded, changes, accounts);
    TouchedAccounts(H, input, loaded, changes, accounts, storage, p, after);
    OtherAccounts(H, accounts, storage, changes, p, input.state, after);
  }

  /** Parent tries with nothing missing, in which every slot and account is encoded canonically. */
  ghost predicate CleanStorage(storage: Storage) {
    forall a :: a in storage ==> Full(storage[a].trie) && CanonicalSlots(storage[a].trie)
  }

  // ----- all together

  /** The hash function tells apart the accounts, and in each account the slots, that are in use. */
  ghost predicate KeysInUseDiffer(H: Hasher, input: GuestInput, changes: map<Address, Account>) {
    && AccountKeysDiffer(H, input.storage.Keys)
    && forall a :: a in input.storage ==> SlotKeysDiffer(H, SlotsInUse(input.storage[a], changes, a))
  }

  function SlotsInUse(entry: StorageEntry, changes: map<Address, Account>, a: Address): set<U256> {
    (set k | k in entry.slots) + if a in changes then changes[a].storage.Keys else {}
  }

  lemma {:induction false} CommitUsesKnownSlots(H: Hasher, input: GuestInput, loaded: map<Address, DbAccount>,
                                                changes: map<Address, Account>, accounts: map<Address, DbAccount>, a: Address)
    requires ShapedInput(input) && LoadedAll(H, input, loaded)
    requires changes.Keys <= loaded.Keys && CommittedAll(loaded, changes, accounts)
    ensures a in accounts <==> a in loaded
    ensures a in accounts ==> accounts[a].storage.Keys <= SlotsInUse(input.storage[a], changes, a)
  {
    assert Find(accounts, a) == if a in changes then Committed(Find(loaded, a), changes[a]) else Find(loaded, a);
    if a in loaded {
      assert Loaded(H, input, a, loaded[a]);
      if a in changes { CommitOfLoaded(loaded[a], changes[a]); }
    }
  }

  lemma {:induction false} CommitIsComplete(H: Hasher, input: GuestInput, loaded: map<Address, DbAccount>,
                                            changes: map<Address, Account>, accounts: map<Address, DbAccount>)
    requires ShapedInput(input) && LoadedAll(H, input, loaded) && Full(input.state) && CleanStorage(input.storage)
    requires changes.Keys <= loaded.Keys && CommittedAll(loaded, changes, accounts)
    requires KeysInUseDiffer(H, input, changes)
    ensures Complete(H, input.state, input.storage, accounts) && accounts.Keys == input.storage.Keys
  {
    assert accounts.Keys == input.storage.Keys by {
      forall a ensures a in accounts <==> a in loaded {
        CommitUsesKnownSlots(H, input, loaded, changes, accounts, a);
      }
    }
    forall a | a in accounts ensures SlotKeysDiffer(H, accounts[a].storage.Keys) {
      CommitUsesKnownSlots(H, input, loaded, changes, accounts, a);
      assert SlotKeysDiffer(H, SlotsInUse(input.storage[a], changes, a));
    }
  }

  method CommitOver(loaded: map<Address, DbAccount>, changes: map<Address, Account>)
    returns (accounts: map<Address, DbAccount>)
    ensures CommittedAll(loaded, changes, accounts)
  {
    var db := new Database();
    db.accounts := loaded;
    db.Commit(changes);
    accounts := db.accounts;
  }

  /** What execution leaves behind for one account: its info before and after, where there is any. */
  datatype BundleAccount = BundleAccount(original: Option<AccountInfo>, info: Option<AccountInfo>, storage: map<U256, Slot>)

  /** Every account of the outcome counts as touched; one that was not there is created, one that is gone destroyed. */
  function ChangeSet(outcome: map<Address, BundleAccount>): map<Address, Account> {
    map a | a in outcome ::
      Account(if outcome[a].info.Some? then outcome[a].info.value else EMPTY_INFO, outcome[a].storage,
              true, outcome[a].info.None?, outcome[a].original.None?)
  }

  /** What becomes of one account of the outcome, in terms of its info and slots before and after. */
  ghost predicate BundleSettled(H: Hasher, parent: Node, b: BundleAccount, trie: Node, entry: Option<Bytes>)
    requires Shaped(parent) && Shaped(trie)
  {
    if b.info.None? || HasNothing(b.info.value) then entry == None
    else
      && entry == Recorded(H, b.info.value, trie)
      && SlotsSettled(H, if b.original.None? then Null else parent, b.storage, trie)
  }

  ghost predicate NoOutcomeAt(H: Hasher, input: GuestInput, outcome: map<Address, BundleAccount>, q: Nibbles) {
    forall a :: a in outcome && a in input.storage ==> AccountKey(H, a) != q
  }

  ghost predicate BundlesSettled(H: Hasher, input: GuestInput, outcome: map<Address, BundleAccount>, storage: Storage, after: Node)
    requires ShapedInput(input) && CanonicalTries(storage) && Shaped(after)
  {
    forall a :: a in outcome && a in input.storage ==>
      && Get(after, AccountKey(H, a)).Ok?
      && BundleSettled(H, input.storage[a].trie, outcome[a], TrieOf(storage, a), Get(after, AccountKey(H, a)).value)
  }

  /** The parent state overlaid with the outcome, as far as it concerns accounts of the input. */
  ghost predicate OutcomeSettled(H: Hasher, input: GuestInput, outcome: map<Address, BundleAccount>, storage: Storage, after: Node)
    requires ShapedInput(input) && CanonicalTries(storage)
  {
    && Full(after)
    && BundlesSettled(H, input, outcome, storage, after)
    && (forall q :: NoOutcomeAt(H, input, outcome, q) ==> Get(after, q) == Get(input.state, q))
  }

  /** The part of a change set that concerns the given accounts. */
  function Concerning(changes: map<Address, Account>, addresses: set<Address>): map<Address, Account> {
    map a | a in changes && a in addresses :: changes[a]
  }

  lemma {:induction false} BundleSettles(H: Hasher, parent: Node, outcome: map<Address, BundleAccount>, a: Address,
                                         trie: Node, entry: Option<Bytes>)
    requires Shaped(parent) && Shaped(trie) && a in outcome
    requires AccountSettled(H, parent, ChangeSet(outcome)[a], trie, entry)
    ensures BundleSettled(H, parent, outcome[a], trie, entry)
  {
  }

  lemma {:induction false} AllBundlesSettle(H: Hasher, input: GuestInput, outcome: map<Address, BundleAccount>,
                                            storage: Storage, after: Node)
    requires ShapedInput(input) && CanonicalTries(storage) && Shaped(after)
    requires TouchedSettled(H, input.storage, Concerning(ChangeSet(outcome), input.storage.Keys), storage, after)
    ensures BundlesSettled(H, input, outcome, storage, after)
  {
    var changes := Concerning(ChangeSet(outcome), input.storage.Keys);
    forall a | a in outcome && a in input.storage
      ensures Get(after, AccountKey(H, a)).Ok?
      ensures BundleSettled(H, input.storage[a].trie, outcome[a], TrieOf(storage, a), Get(after, AccountKey(H, a)).value)
    {
      assert a in TouchedBy(changes) && changes[a] == ChangeSet(outcome)[a];
      BundleSettles(H, input.storage[a].trie, outcome, a, TrieOf(storage, a), Get(after, AccountKey(H, a)).value);
    }
  }

  /** The change set carries the outcome over to the tries. */
  lemma {:induction false} OutcomeSettles(H: Hasher, input: GuestInput, outcome: map<Address, BundleAccount>,
                                          storage: Storage, after: Node)
    requires ShapedInput(input) && CanonicalTries(storage)
    requires Settled(H, input, Concerning(ChangeSet(outcome), input.storage.Keys), storage, after)
    ensures OutcomeSettled(H, input, outcome, storage, after)
  {
    AllBundlesSettle(H, input, outcome, storage, after);
    forall q | NoOutcomeAt(H, input, outcome, q) ensures Get(after, q) == Get(input.state, q) {
      assert NoTouchedAt(H, Concerning(ChangeSet(outcome), input.storage.Keys), q);
    }
  }
}
