/**
 Exactly when the root over truncated tries is right: the tries that a tour ends in, resolved, are canonical.
 */
module HealedRoot {
  import opened Prelude
  import opened HexPrefix
  import opened Trie
  import opened TrieMap
  import opened TrieDigests
  import opened TrieCodec
  import opened TrieFidelity
  import opened TrieResolve
  import opened TrieTruncation
  import opened TrieBinding
  import opened State
  import opened MemDb
  import opened StateRoot
  import opened SparseRoot
  import opened Healing

  // ----- storage

  lemma {:induction false} AlikeSlots(H: Hasher, s: Store, n: Node, full: Node, slots: map<U256, U256>, order: seq<U256>)
    requires Alike(s, n, full) && (forall k :: k in order ==> k in slots) && WriteSlots(H, n, slots, order).Ok?
    ensures WriteSlots(H, full, slots, order).Ok?
    ensures Alike(s, WriteSlots(H, n, slots, order).value, WriteSlots(H, full, slots, order).value)
  {
    if order != [] {
      var most, k := order[..|order| - 1], order[|order| - 1];
      AlikeSlots(H, s, n, full, slots, most);
      AlikeWrite(s, WriteSlots(H, n, slots, most).value, WriteSlots(H, full, slots, most).value, SlotKey(H, k), SlotEntry(slots[k]));
    }
  }

  ghost predicate StorageAlike(s: Store, storage: Storage, full: Storage) {
    && storage.Keys == full.Keys
    && forall a :: a in storage ==> Alike(s, storage[a].trie, full[a].trie) && storage[a].slots == full[a].slots
  }

  /** What the storage tries stand for is canonical. */
  ghost predicate HealedStorage(s: Store, storage: Storage)
    requires Ranked(s)
  {
    forall a :: a in storage ==> Shaped(storage[a].trie) && Canonical(ResolveNodes(s, storage[a].trie))
  }

  ghost predicate Healed(s: Store, l: Ledger)
    requires Ranked(s) && ShapedLedger(l)
  {
    Canonical(ResolveNodes(s, l.state)) && HealedStorage(s, l.storage)
  }

  lemma {:induction false} NullAlike(s: Store)
    requires Ranked(s)
    ensures Alike(s, Null, Null)
  {
    NothingPatched(Null);
  }

  lemma {:induction false} SettleAlike(H: Hasher, s: Store, l: Ledger, full: Ledger, account: DbAccount, v: Visit)
    requires ShapedLedger(l) && ShapedLedger(full) && Ranked(s) && StorageAlike(s, l.storage, full.storage)
    requires (forall k :: k in v.slots ==> k in account.storage) && SettleStorage(H, l, account, v).Ok?
    ensures SettleStorage(H, full, account, v).Ok?
    ensures StorageAlike(s, SettleStorage(H, l, account, v).value.storage, SettleStorage(H, full, account, v).value.storage)
    ensures SettleStorage(H, l, account, v).value.state == l.state && SettleStorage(H, full, account, v).value.state == full.state
  {
    if account.state != Deleted {
      NullAlike(s);
      AlikeSlots(H, s, StorageBase(account, l.storage[v.a].trie), StorageBase(account, full.storage[v.a].trie), account.storage, v.slots);
    }
  }

  // ----- the state trie

  /** A truncated state trie that can be resolved wholly, beside a full one. */
  ghost predicate Beside(s: Store, n: Node, full: Node) {
    Ranked(s) && Canonical(n) && AllDigests(n, Whole(s)) && Full(full)
  }

  ghost predicate LedgerBeside(s: Store, l: Ledger, full: Ledger) {
    ShapedLedger(l) && ShapedLedger(full) && Beside(s, l.state, full.state) && StorageAlike(s, l.storage, full.storage)
  }

  lemma {:induction false} BesideWrite(s: Store, n: Node, full: Node, key: Nibbles, x: Option<Bytes>, y: Option<Bytes>)
    requires Beside(s, n, full) && |key| == KEY_NIBBLES
    ensures Write(full, key, y).res.Ok? && Beside(s, Write(n, key, x).node, Write(full, key, y).node)
  {
    WriteIsUpdate(full, key, y);
    WriteKeepsCanonical(n, key, x);
    WriteKeepsDigests(n, key, x, Whole(s));
  }

  lemma {:induction false} EntryBeside(s: Store, x: Ledger, y: Ledger, key: Nibbles, ex: Option<Bytes>, ey: Option<Bytes>)
    requires LedgerBeside(s, x, y) && |key| == KEY_NIBBLES && WriteEntry(x, key, ex).Ok?
    ensures WriteEntry(y, key, ey).Ok? && LedgerBeside(s, WriteEntry(x, key, ex).value, WriteEntry(y, key, ey).value)
  {
    BesideWrite(s, x.state, y.state, key, ex, ey);
  }

  lemma {:induction false} VisitBeside(H: Hasher, s: Store, accounts: map<Address, DbAccount>, l: Ledger, full: Ledger, v: Visit)
    requires LedgerBeside(s, l, full) && Sensible(accounts, v) && Visited(H, accounts, l, v).Ok?
    ensures Visited(H, accounts, full, v).Ok?
    ensures LedgerBeside(s, Visited(H, accounts, l, v).value, Visited(H, accounts, full, v).value)
  {
    var account := accounts[v.a];
    if account.state != Unaffected {
      SettleAlike(H, s, l, full, account, v);
      var x, y := SettleStorage(H, l, account, v).value, SettleStorage(H, full, account, v).value;
      EntryBeside(s, x, y, AccountKey(H, v.a),
                  AccountEntry(H, account, TrieOf(x.storage, v.a)), AccountEntry(H, account, TrieOf(y.storage, v.a)));
    }
  }

  /** Every tour that succeeds on truncated tries succeeds on the full ones, with storage of the same contents. */
  lemma {:induction false} TourBeside(H: Hasher, s: Store, accounts: map<Address, DbAccount>, l: Ledger, full: Ledger, visits: seq<Visit>)
    requires LedgerBeside(s, l, full) && Tour(accounts, visits) && VisitedAll(H, accounts, l, visits).Ok?
    ensures VisitedAll(H, accounts, full, visits).Ok?
    ensures LedgerBeside(s, VisitedAll(H, accounts, l, visits).value, VisitedAll(H, accounts, full, visits).value)
    decreases |visits|
  {
    if visits != [] {
      var most, v := visits[..|visits| - 1], visits[|visits| - 1];
      TourBeside(H, s, accounts, l, full, most);
      VisitBeside(H, s, accounts, VisitedAll(H, accounts, l, most).value, VisitedAll(H, accounts, full, most).value, v);
    }
  }

  /** The storage of an account that is not visited stays. */
  lemma {:induction false} UnvisitedStays(H: Hasher, accounts: map<Address, DbAccount>, l: Ledger, visits: seq<Visit>, a: Address)
    requires ShapedLedger(l) && Tour(accounts, visits) && VisitedAll(H, accounts, l, visits).Ok? && a !in VisitedBy(visits)
    ensures var x := VisitedAll(H, accounts, l, visits).value;
            (a in x.storage <==> a in l.storage) && (a in l.storage ==> x.storage[a] == l.storage[a])
    decreases |visits|
  {
    if visits != [] { UnvisitedStays(H, accounts, l, visits[..|visits| - 1], a); }
  }

  // ----- from healed tries to the right root

  lemma {:induction false} HealedSees(s: Store, storage: Storage, full: Storage)
    requires Ranked(s) && StorageAlike(s, storage, full) && HealedStorage(s, storage)
    ensures StorageSees(s, storage, full)
  {
    forall a | a in storage ensures Sees(s, storage[a].trie, full[a].trie) { AlikeIsSeenIff(s, storage[a].trie, full[a].trie); }
  }

  lemma {:induction false} SameEntry(H: Hasher, s: Store, account: DbAccount, storage: Storage, full: Storage, a: Address)
    requires StorageSees(s, storage, full) && KeyedByReference(H, s.nodes)
    requires Shaped(TrieOf(storage, a)) && Shaped(TrieOf(full, a))
    ensures AccountEntry(H, account, TrieOf(storage, a)) == AccountEntry(H, account, TrieOf(full, a))
  {
    if a in storage { SameHash(H, s, storage[a].trie, full[a].trie); }
  }

  lemma {:induction false} EntryAlike(s: Store, x: Ledger, y: Ledger, key: Nibbles, entry: Option<Bytes>)
    requires LedgerBeside(s, x, y) && Alike(s, x.state, y.state) && |key| == KEY_NIBBLES && WriteEntry(x, key, entry).Ok?
    ensures WriteEntry(y, key, entry).Ok?
    ensures Alike(s, WriteEntry(x, key, entry).value.state, WriteEntry(y, key, entry).value.state)
  {
    AlikeWrite(s, x.state, y.state, key, entry);
  }

  lemma {:induction false} StepAlike(H: Hasher, s: Store, accounts: map<Address, DbAccount>, l: Ledger, full: Ledger, v: Visit)
    requires LedgerBeside(s, l, full) && KeyedByReference(H, s.nodes) && Sensible(accounts, v) && Visited(H, accounts, l, v).Ok?
    requires Alike(s, l.state, full.state) && HealedStorage(s, Visited(H, accounts, l, v).value.storage)
    ensures Visited(H, accounts, full, v).Ok?
    ensures Alike(s, Visited(H, accounts, l, v).value.state, Visited(H, accounts, full, v).value.state)
  {
    var account := accounts[v.a];
    if account.state != Unaffected {
      SettleAlike(H, s, l, full, account, v);
      var x, y := SettleStorage(H, l, account, v).value, SettleStorage(H, full, account, v).value;
      HealedSees(s, x.storage, y.storage);
      SameEntry(H, s, account, x.storage, y.storage, v.a);
      EntryAlike(s, x, y, AccountKey(H, v.a), AccountEntry(H, account, TrieOf(x.storage, v.a)));
    }
  }

  lemma {:induction false} VisitKeepsOthers(H: Hasher, accounts: map<Address, DbAccount>, l: Ledger, v: Visit)
    requires ShapedLedger(l) && Sensible(accounts, v) && Visited(H, accounts, l, v).Ok?
    ensures var x := Visited(H, accounts, l, v).value;
            && x.storage.Keys == l.storage.Keys
            && (forall a :: a in l.storage && a != v.a ==> x.storage[a] == l.storage[a])
            && (v.a !in Rewritten(accounts) ==> x.storage == l.storage)
  {
  }

  lemma {:induction false} HealedBefore(H: Hasher, s: Store, accounts: map<Address, DbAccount>, l: Ledger, visits: seq<Visit>)
    requires Ranked(s) && ShapedLedger(l) && visits != [] && Tour(accounts, visits) && VisitedAll(H, accounts, l, visits).Ok?
    requires HealedStorage(s, l.storage) && HealedStorage(s, VisitedAll(H, accounts, l, visits).value.storage)
    ensures HealedStorage(s, VisitedAll(H, accounts, l, visits[..|visits| - 1]).value.storage)
  {
    var most, v := visits[..|visits| - 1], visits[|visits| - 1];
    UnvisitedStays(H, accounts, l, most, v.a);
    VisitKeepsOthers(H, accounts, VisitedAll(H, accounts, l, most).value, v);
  }

  /** If the storage tries end up healed, the state trie ends up with the right contents. */
  lemma {:induction false} TourAlike(H: Hasher, s: Store, accounts: map<Address, DbAccount>, l: Ledger, full: Ledger, visits: seq<Visit>)
    requires LedgerBeside(s, l, full) && KeyedByReference(H, s.nodes) && Alike(s, l.state, full.state) && HealedStorage(s, l.storage)
    requires Tour(accounts, visits) && VisitedAll(H, accounts, l, visits).Ok?
    requires HealedStorage(s, VisitedAll(H, accounts, l, visits).value.storage)
    ensures VisitedAll(H, accounts, full, visits).Ok?
    ensures Alike(s, VisitedAll(H, accounts, l, visits).value.state, VisitedAll(H, accounts, full, visits).value.state)
    decreases |visits|
  {
    if visits != [] {
      var most, v := visits[..|visits| - 1], visits[|visits| - 1];
      HealedBefore(H, s, accounts, l, visits);
      TourAlike(H, s, accounts, l, full, most);
      TourBeside(H, s, accounts, l, full, most);
      StepAlike(H, s, accounts, VisitedAll(H, accounts, l, most).value, VisitedAll(H, accounts, full, most).value, v);
    }
  }

  lemma {:induction false} StartBeside(H: Hasher, s: Store, l: Ledger, full: Ledger)
    requires LedgerSees(s, l, full) && KeyedByReference(H, s.nodes) && Full(full.state)
    requires forall a :: a in full.storage ==> Full(full.storage[a].trie)
    ensures LedgerBeside(s, l, full) && Alike(s, l.state, full.state) && HealedStorage(s, l.storage)
  {
    SeesAlike(H, s, l.state, full.state);
    forall a | a in l.storage ensures Alike(s, l.storage[a].trie, full.storage[a].trie) {
      SeesAlike(H, s, l.storage[a].trie, full.storage[a].trie);
    }
  }

  /** A tour that ends in healed tries ends in what the tour over the full tries ends in. */
  lemma {:induction false} HealedIsSeen(H: Hasher, s: Store, accounts: map<Address, DbAccount>, l: Ledger, full: Ledger, visits: seq<Visit>)
    requires LedgerSees(s, l, full) && KeyedByReference(H, s.nodes) && Full(full.state)
    requires forall a :: a in full.storage ==> Full(full.storage[a].trie)
    requires Tour(accounts, visits) && VisitedAll(H, accounts, l, visits).Ok?
    ensures VisitedAll(H, accounts, full, visits).Ok?
    ensures var x, y := VisitedAll(H, accounts, l, visits).value, VisitedAll(H, accounts, full, visits).value;
            Healed(s, x) <==> LedgerSees(s, x, y)
  {
    StartBeside(H, s, l, full);
    TourBeside(H, s, accounts, l, full, visits);
    var x, y := VisitedAll(H, accounts, l, visits).value, VisitedAll(H, accounts, full, visits).value;
    if Healed(s, x) {
      TourAlike(H, s, accounts, l, full, visits);
      AlikeIsSeenIff(s, x.state, y.state);
      HealedSees(s, x.storage, y.storage);
    }
  }

  // ----- from the right root to healed tries

  lemma {:induction false} WriteIsKept(n: Node, key: Nibbles, entry: Option<Bytes>, q: Nibbles)
    requires Canonical(n) && Write(n, key, entry).res.Ok?
    ensures Canonical(Write(n, key, entry).node)
    ensures Get(Write(n, key, entry).node, q) == if q == key then Ok(entry) else Get(n, q)
  {
    WriteKeepsCanonical(n, key, entry);
    if entry.None? { DeleteIsRemoval(n, key, q); } else { InsertIsUpdate(n, key, entry.value, q); }
  }

  ghost predicate EntryIsThere(H: Hasher, accounts: map<Address, DbAccount>, l: Ledger, a: Address)
    requires ShapedLedger(l) && a in accounts
  {
    Get(l.state, AccountKey(H, a)) == Ok(AccountEntry(H, accounts[a], TrieOf(l.storage, a)))
  }

  lemma {:induction false} VisitLeavesEntry(H: Hasher, accounts: map<Address, DbAccount>, l: Ledger, v: Visit, a: Address)
    requires ShapedLedger(l) && Canonical(l.state) && Sensible(accounts, v) && Visited(H, accounts, l, v).Ok?
    requires AccountKeysDiffer(H, accounts.Keys) && a in Affected(accounts)
    requires a == v.a || EntryIsThere(H, accounts, l, a)
    ensures Canonical(Visited(H, accounts, l, v).value.state) && EntryIsThere(H, accounts, Visited(H, accounts, l, v).value, a)
  {
    var account := accounts[v.a];
    if account.state != Unaffected {
      var x := SettleStorage(H, l, account, v).value;
      WriteIsKept(x.state, AccountKey(H, v.a), AccountEntry(H, account, TrieOf(x.storage, v.a)), AccountKey(H, a));
      if AccountKey(H, a) == AccountKey(H, v.a) { AccountKeysAreDistinct(H, accounts.Keys, a, v.a); }
    }
  }

  lemma {:induction false} TourStaysCanonical(H: Hasher, accounts: map<Address, DbAccount>, l: Ledger, visits: seq<Visit>)
    requires ShapedLedger(l) && Canonical(l.state) && Tour(accounts, visits) && VisitedAll(H, accounts, l, visits).Ok?
    ensures Canonical(VisitedAll(H, accounts, l, visits).value.state)
    decreases |visits|
  {
    if visits != [] {
      var most, v := visits[..|visits| - 1], visits[|visits| - 1];
      TourStaysCanonical(H, accounts, l, most);
      var m := VisitedAll(H, accounts, l, most).value;
      if accounts[v.a].state != Unaffected {
        var x := SettleStorage(H, m, accounts[v.a], v).value;
        WriteKeepsCanonical(x.state, AccountKey(H, v.a), AccountEntry(H, accounts[v.a], TrieOf(x.storage, v.a)));
      }
    }
  }

  /** At the end of a tour the state trie holds the entry of every affected account that was visited. */
  lemma {:induction false} TourLeavesEntries(H: Hasher, accounts: map<Address, DbAccount>, l: Ledger, visits: seq<Visit>, a: Address)
    requires ShapedLedger(l) && Canonical(l.state) && Tour(accounts, visits) && VisitedAll(H, accounts, l, visits).Ok?
    requires AccountKeysDiffer(H, accounts.Keys) && a in VisitedBy(visits) && a in Affected(accounts)
    ensures EntryIsThere(H, accounts, VisitedAll(H, accounts, l, visits).value, a)
    decreases |visits|
  {
    var most, v := visits[..|visits| - 1], visits[|visits| - 1];
    TourStaysCanonical(H, accounts, l, most);
    if a != v.a { TourLeavesEntries(H, accounts, l, most, a); }
    VisitLeavesEntry(H, accounts, VisitedAll(H, accounts, l, most).value, v, a);
  }

  lemma {:induction false} UnwrittenStays(H: Hasher, accounts: map<Address, DbAccount>, l: Ledger, visits: seq<Visit>, a: Address)
    requires ShapedLedger(l) && Tour(accounts, visits) && VisitedAll(H, accounts, l, visits).Ok?
    requires a in l.storage && a !in Rewritten(accounts)
    ensures var x := VisitedAll(H, accounts, l, visits).value; a in x.storage && x.storage[a] == l.storage[a]
    decreases |visits|
  {
    if visits != [] {
      var most, v := visits[..|visits| - 1], visits[|visits| - 1];
      UnwrittenStays(H, accounts, l, most, a);
      VisitKeepsOthers(H, accounts, VisitedAll(H, accounts, l, most).value, v);
    }
  }

  lemma {:induction false} SameStoredSameHash(H: Hasher, account: DbAccount, x: Node, y: Node)
    requires Shaped(x) && Shaped(y) && account.state != Deleted && AccountEntry(H, account, x) == AccountEntry(H, account, y)
    ensures HashOf(H, x) == HashOf(H, y)
  {
    AccountRoundTrip(StoredAccount(H, account.info, x));
    AccountRoundTrip(StoredAccount(H, account.info, y));
  }

  /** The hash function has no collision among the encodings that occur in the tries at the end. */
  ghost predicate NoCollision(H: Hasher, s: Store, x: Ledger, y: Ledger)
    requires Ranked(s) && ShapedLedger(x) && ShapedLedger(y)
  {
    && H(EMPTY_STRING) == EMPTY_ROOT && Separates(H, Compared(H, ResolveNodes(s, x.state), y.state))
    && forall a :: a in x.storage && a in y.storage ==>
         Separates(H, Compared(H, ResolveNodes(s, x.storage[a].trie), y.storage[a].trie))
  }

  lemma {:induction false} RightStateIsWhole(H: Hasher, s: Store, n: Node, full: Node)
    requires Beside(s, n, full) && KeyedByReference(H, s.nodes) && HashOf(H, n) == HashOf(H, full)
    requires H(EMPTY_STRING) == EMPTY_ROOT && Separates(H, Compared(H, ResolveNodes(s, n), full))
    ensures ResolveNodes(s, n) == full
  {
    AlikeIsFirm(s, n);
    CanonicalIsTelling(full);
    SameHash(H, s, n, ResolveNodes(s, n));
    SameHashSameTree(H, ResolveNodes(s, n), full);
  }

  lemma {:induction false} RightEntryIsHealed(H: Hasher, s: Store, accounts: map<Address, DbAccount>, x: Ledger, y: Ledger, a: Address)
    requires LedgerBeside(s, x, y) && KeyedByReference(H, s.nodes) && NoCollision(H, s, x, y) && ResolveNodes(s, x.state) == y.state
    requires a in x.storage && a in Rewritten(accounts)
    requires EntryIsThere(H, accounts, x, a) && EntryIsThere(H, accounts, y, a)
    ensures Canonical(ResolveNodes(s, x.storage[a].trie))
  {
    SameAnswer(s, x.state, y.state, AccountKey(H, a));
    SameStoredSameHash(H, accounts[a], x.storage[a].trie, y.storage[a].trie);
    RootIsRightIff(H, s, x.storage[a].trie, y.storage[a].trie);
  }

  lemma {:induction false} RightIsHealed(H: Hasher, s: Store, accounts: map<Address, DbAccount>, l: Ledger, full: Ledger, visits: seq<Visit>)
    requires LedgerBeside(s, l, full) && KeyedByReference(H, s.nodes) && HealedStorage(s, l.storage) && AccountKeysDiffer(H, accounts.Keys)
    requires WholeTour(accounts, visits) && VisitedAll(H, accounts, l, visits).Ok? && VisitedAll(H, accounts, full, visits).Ok?
    requires var x, y := VisitedAll(H, accounts, l, visits).value, VisitedAll(H, accounts, full, visits).value;
             LedgerBeside(s, x, y) && NoCollision(H, s, x, y) && HashOf(H, x.state) == HashOf(H, y.state)
    ensures Healed(s, VisitedAll(H, accounts, l, visits).value)
  {
    var x, y := VisitedAll(H, accounts, l, visits).value, VisitedAll(H, accounts, full, visits).value;
    RightStateIsWhole(H, s, x.state, y.state);
    forall a | a in x.storage ensures Canonical(ResolveNodes(s, x.storage[a].trie)) {
      if a in Rewritten(accounts) {
        TourLeavesEntries(H, accounts, l, visits, a);
        TourLeavesEntries(H, accounts, full, visits, a);
        RightEntryIsHealed(H, s, accounts, x, y, a);
      } else {
        KeysStay(H, accounts, l, visits);
        UnwrittenStays(H, accounts, l, visits, a);
      }
    }
  }

  lemma {:induction false} KeysStay(H: Hasher, accounts: map<Address, DbAccount>, l: Ledger, visits: seq<Visit>)
    requires ShapedLedger(l) && Tour(accounts, visits) && VisitedAll(H, accounts, l, visits).Ok?
    ensures VisitedAll(H, accounts, l, visits).value.storage.Keys == l.storage.Keys
    decreases |visits|
  {
    if visits != [] { KeysStay(H, accounts, l, visits[..|visits| - 1]); }
  }

  /**
   The exact condition for the root over truncated tries. A tour that succeeds on them succeeds on the full
   ones and ends there in the overlaid state; and its root is that state's, if and only if the tries it ends
   in are canonical once they are resolved. The condition is enough whatever the hash function.
   */
  lemma {:induction false} RootIsRightExactly(H: Hasher, s: Store, accounts: map<Address, DbAccount>, l: Ledger, full: Ledger,
                                              visits: seq<Visit>)
    requires LedgerSees(s, l, full) && KeyedByReference(H, s.nodes) && Complete(H, full.state, full.storage, accounts)
    requires WholeTour(accounts, visits) && VisitedAll(H, accounts, l, visits).Ok?
    ensures VisitedAll(H, accounts, full, visits).Ok?
    ensures var x, y := VisitedAll(H, accounts, l, visits).value, VisitedAll(H, accounts, full, visits).value;
            && RootOver(H, full.state, full.storage, accounts, y.storage, y.state)
            && (Healed(s, x) ==> HashOf(H, x.state) == HashOf(H, y.state))
            && (NoCollision(H, s, x, y) ==> (HashOf(H, x.state) == HashOf(H, y.state) <==> Healed(s, x)))
  {
    var r := VisitedAll(H, accounts, l, visits);
    HealedIsSeen(H, s, accounts, l, full, visits);
    RootOfFull(H, full.state, full.storage, accounts, visits);
    var x, y := r.value, VisitedAll(H, accounts, full, visits).value;
    if Healed(s, x) { SameHash(H, s, x.state, y.state); }
    if NoCollision(H, s, x, y) && HashOf(H, x.state) == HashOf(H, y.state) {
      StartBeside(H, s, l, full);
      TourBeside(H, s, accounts, l, full, visits);
      RightIsHealed(H, s, accounts, l, full, visits);
    }
  }

  /** What can be told before each write is enough: a tour without an obstructed deletion ends in healed tries. */
  lemma {:induction false} UnobstructedIsHealed(H: Hasher, s: Store, accounts: map<Address, DbAccount>, l: Ledger, full: Ledger,
                                              visits: seq<Visit>)
    requires LedgerSees(s, l, full) && KeyedByReference(H, s.nodes) && Complete(H, full.state, full.storage, accounts)
    requires Tour(accounts, visits) && VisitedAll(H, accounts, l, visits).Ok?
    requires !TourObstructed(H, s, accounts, l, visits)
    ensures Healed(s, VisitedAll(H, accounts, l, visits).value)
  {
    TourSeen(H, s, accounts, l, full, visits);
    HealedIsSeen(H, s, accounts, l, full, visits);
  }
}
