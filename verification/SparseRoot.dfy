/**
 The state root over truncated tries, which is what the guest has: every write is seen through to the
 resolved tries, unless a deletion leaves a digest alone that stands for a leaf or an extension.
 */
module SparseRoot {
  import opened Prelude
  import opened HexPrefix
  import opened Trie
  import opened TrieCodec
  import opened TrieResolve
  import opened TrieTruncation
  import opened State
  import opened MemDb
  import opened StateRoot

  // ----- one write

  /** The write is a deletion that leaves alone a digest which stands for a leaf or an extension. */
  ghost predicate Obstructed(s: Store, n: Node, key: Nibbles, entry: Option<Bytes>)
    requires Ranked(s) && Shaped(n)
  {
    entry.None? && Delete(n, key).res == Ok(true) && HidesPath(s, n, key)
  }

  /** A write that succeeds on the truncated trie is the write on the resolved one, exactly if it is not obstructed. */
  lemma {:induction false} WriteSeen(s: Store, n: Node, full: Node, key: Nibbles, entry: Option<Bytes>)
    requires Sees(s, n, full) && Shaped(full) && Canonical(n) && Write(n, key, entry).res.Ok?
    ensures Canonical(Write(n, key, entry).node)
    ensures !Obstructed(s, n, key, entry) <==>
            Write(full, key, entry).res == Write(n, key, entry).res && Sees(s, Write(n, key, entry).node, Write(full, key, entry).node)
  {
    var b := Ceiling(s, n);
    var x := Write(n, key, entry);
    WriteKeepsCanonical(n, key, entry);
    if entry.None? { DeleteTransparentIff(s, n, b, key); } else { InsertTransparent(s, n, b, key, entry.value); }
    SeesAt(s, x.node, b);
  }

  // ----- one storage trie

  ghost predicate SlotsObstructed(H: Hasher, s: Store, base: Node, slots: map<U256, U256>, order: seq<U256>)
    requires Ranked(s) && Shaped(base) && forall k :: k in order ==> k in slots
  {
    order != [] &&
      var most, k := order[..|order| - 1], order[|order| - 1];
      var before := WriteSlots(H, base, slots, most);
      || SlotsObstructed(H, s, base, slots, most)
      || (before.Ok? && Obstructed(s, before.value, SlotKey(H, k), SlotEntry(slots[k])))
  }

  lemma {:induction false} SlotsSeen(H: Hasher, s: Store, n: Node, full: Node, slots: map<U256, U256>, order: seq<U256>)
    requires Sees(s, n, full) && Shaped(full) && Canonical(n) && forall k :: k in order ==> k in slots
    requires WriteSlots(H, n, slots, order).Ok? && !SlotsObstructed(H, s, n, slots, order)
    ensures Canonical(WriteSlots(H, n, slots, order).value)
    ensures WriteSlots(H, full, slots, order).Ok?
    ensures Sees(s, WriteSlots(H, n, slots, order).value, WriteSlots(H, full, slots, order).value)
  {
    if order != [] {
      var most, k := order[..|order| - 1], order[|order| - 1];
      SlotsSeen(H, s, n, full, slots, most);
      WriteSeen(s, WriteSlots(H, n, slots, most).value, WriteSlots(H, full, slots, most).value, SlotKey(H, k), SlotEntry(slots[k]));
    }
  }

  // ----- all tries

  ghost predicate StorageSees(s: Store, storage: Storage, full: Storage) {
    && storage.Keys == full.Keys
    && forall a :: a in storage ==>
         Canonical(storage[a].trie) && Sees(s, storage[a].trie, full[a].trie) && storage[a].slots == full[a].slots
  }

  ghost predicate LedgerSees(s: Store, l: Ledger, full: Ledger) {
    && ShapedLedger(l) && ShapedLedger(full)
    && Canonical(l.state) && Sees(s, l.state, full.state) && StorageSees(s, l.storage, full.storage)
  }

  ghost predicate StorageObstructed(H: Hasher, s: Store, l: Ledger, account: DbAccount, v: Visit)
    requires Ranked(s) && ShapedLedger(l) && forall k :: k in v.slots ==> k in account.storage
  {
    && account.state != Deleted && v.a in l.storage
    && SlotsObstructed(H, s, StorageBase(account, l.storage[v.a].trie), account.storage, v.slots)
  }

  ghost predicate EntryObstructed(H: Hasher, s: Store, l: Ledger, account: DbAccount, a: Address)
    requires Ranked(s) && ShapedLedger(l)
  {
    Obstructed(s, l.state, AccountKey(H, a), AccountEntry(H, account, TrieOf(l.storage, a)))
  }

  ghost predicate VisitObstructed(H: Hasher, s: Store, accounts: map<Address, DbAccount>, l: Ledger, v: Visit)
    requires Ranked(s) && ShapedLedger(l) && Sensible(accounts, v)
  {
    && accounts[v.a].state != Unaffected
    && var settled := SettleStorage(H, l, accounts[v.a], v);
       || StorageObstructed(H, s, l, accounts[v.a], v)
       || (settled.Ok? && EntryObstructed(H, s, settled.value, accounts[v.a], v.a))
  }

  ghost predicate TourObstructed(H: Hasher, s: Store, accounts: map<Address, DbAccount>, l: Ledger, visits: seq<Visit>)
    requires Ranked(s) && ShapedLedger(l) && Tour(accounts, visits)
  {
    visits != [] &&
      var most, v := visits[..|visits| - 1], visits[|visits| - 1];
      var before := VisitedAll(H, accounts, l, most);
      || TourObstructed(H, s, accounts, l, most)
      || (before.Ok? && VisitObstructed(H, s, accounts, before.value, v))
  }

  lemma {:induction false} SettleSeen(H: Hasher, s: Store, l: Ledger, full: Ledger, account: DbAccount, v: Visit)
    requires LedgerSees(s, l, full) && forall k :: k in v.slots ==> k in account.storage
    requires SettleStorage(H, l, account, v).Ok? && !StorageObstructed(H, s, l, account, v)
    ensures SettleStorage(H, full, account, v).Ok?
    ensures LedgerSees(s, SettleStorage(H, l, account, v).value, SettleStorage(H, full, account, v).value)
  {
    if account.state != Deleted {
      var n, m := StorageBase(account, l.storage[v.a].trie), StorageBase(account, full.storage[v.a].trie);
      assert Sees(s, Null, Null);
      SlotsSeen(H, s, n, m, account.storage, v.slots);
    }
  }

  lemma {:induction false} SameEntry(H: Hasher, s: Store, l: Ledger, full: Ledger, account: DbAccount, a: Address)
    requires LedgerSees(s, l, full) && KeyedByReference(H, s.nodes)
    ensures AccountEntry(H, account, TrieOf(l.storage, a)) == AccountEntry(H, account, TrieOf(full.storage, a))
  {
    if a in l.storage { SameHash(H, s, l.storage[a].trie, full.storage[a].trie); }
  }

  lemma {:induction false} VisitSeen(H: Hasher, s: Store, accounts: map<Address, DbAccount>, l: Ledger, full: Ledger, v: Visit)
    requires LedgerSees(s, l, full) && KeyedByReference(H, s.nodes) && Sensible(accounts, v)
    requires Visited(H, accounts, l, v).Ok? && !VisitObstructed(H, s, accounts, l, v)
    ensures Visited(H, accounts, full, v).Ok?
    ensures LedgerSees(s, Visited(H, accounts, l, v).value, Visited(H, accounts, full, v).value)
  {
    var account := accounts[v.a];
    if account.state != Unaffected {
      SettleSeen(H, s, l, full, account, v);
      var x, y := SettleStorage(H, l, account, v).value, SettleStorage(H, full, account, v).value;
      SameEntry(H, s, x, y, account, v.a);
      WriteSeen(s, x.state, y.state, AccountKey(H, v.a), AccountEntry(H, account, TrieOf(x.storage, v.a)));
    }
  }

  lemma {:induction false} TourSeen(H: Hasher, s: Store, accounts: map<Address, DbAccount>, l: Ledger, full: Ledger, visits: seq<Visit>)
    requires LedgerSees(s, l, full) && KeyedByReference(H, s.nodes) && Tour(accounts, visits)
    requires VisitedAll(H, accounts, l, visits).Ok? && !TourObstructed(H, s, accounts, l, visits)
    ensures VisitedAll(H, accounts, full, visits).Ok?
    ensures LedgerSees(s, VisitedAll(H, accounts, l, visits).value, VisitedAll(H, accounts, full, visits).value)
    decreases |visits|
  {
    if visits != [] {
      var most, v := visits[..|visits| - 1], visits[|visits| - 1];
      TourSeen(H, s, accounts, l, full, most);
      VisitSeen(H, s, accounts, VisitedAll(H, accounts, l, most).value, VisitedAll(H, accounts, full, most).value, v);
    }
  }

  // ----- with nothing truncated

  lemma {:induction false} NoSlotObstructed(H: Hasher, s: Store, base: Node, slots: map<U256, U256>, order: seq<U256>)
    requires Ranked(s) && s.nodes == map[] && Shaped(base) && forall k :: k in order ==> k in slots
    ensures !SlotsObstructed(H, s, base, slots, order)
  {
    if order != [] { NoSlotObstructed(H, s, base, slots, order[..|order| - 1]); }
  }

  lemma {:induction false} EmptyStoreIsClear(H: Hasher, s: Store, accounts: map<Address, DbAccount>, l: Ledger, visits: seq<Visit>)
    requires Ranked(s) && s.nodes == map[] && ShapedLedger(l) && Tour(accounts, visits)
    ensures !TourObstructed(H, s, accounts, l, visits)
    decreases |visits|
  {
    if visits != [] {
      var most, v := visits[..|visits| - 1], visits[|visits| - 1];
      EmptyStoreIsClear(H, s, accounts, l, most);
      var before := VisitedAll(H, accounts, l, most);
      if before.Ok? && accounts[v.a].state != Deleted && v.a in before.value.storage {
        NoSlotObstructed(H, s, StorageBase(accounts[v.a], before.value.storage[v.a].trie), accounts[v.a].storage, v.slots);
      }
    }
  }

  /** An empty store resolves every node to itself. */
  lemma {:induction false} EmptyStoreSees(s: Store, n: Node, b: nat)
    requires Fit(s, n, b) && s.nodes == map[]
    ensures Resolve(s, n, b) == n
  {
    match n
    case Branch(ch) =>
      forall j | 0 <= j < 16 ensures ch[j] == ResolvePlace(s, ch, b, j) {
        if ch[j].Some? { EmptyStoreSees(s, ch[j].value, b); }
      }
      ResolvedChildrenAre(s, ch, b, ch);
    case Extension(_, c) => EmptyStoreSees(s, c, b);
    case _ =>
  }
}
