/** Writing the committed accounts back into the tries, and the root that results. */
module StateRoot {
  import opened Prelude
  import opened HexPrefix
  import opened Trie
  import opened TrieMap
  import opened TrieUnique
  import opened TrieCodec
  import opened State
  import opened MemDb

  datatype StorageEntry = StorageEntry(trie: Node, slots: seq<U256>)

  datatype BuildError = TrieFailed(error: Trie.Error) | AddressNotFound

  /** A canonical trie with nothing missing, over hashed keys. */
  ghost predicate Full(n: Node) {
    Canonical(n) && Resolved(n) && KeysOfLength(n, KEY_NIBBLES)
  }

  // ----- patches

  /** What is to be written under which key; `None` is to be absent. */
  type Patch = map<Nibbles, Option<Bytes>>

  function Write(n: Node, key: Nibbles, entry: Option<Bytes>): Step
    requires Shaped(n)
  {
    match entry
    case None => Delete(n, key)
    case Some(v) => Insert(n, key, v)
  }

  /** A full trie with exactly the entries of `base`, overlaid with those of the patch. */
  ghost predicate Patched(base: Node, patch: Patch, after: Node) {
    && Full(base) && Full(after)
    && forall q :: Get(after, q) == if q in patch then Ok(patch[q]) else Get(base, q)
  }

  lemma {:induction false} WriteIsUpdate(n: Node, key: Nibbles, entry: Option<Bytes>)
    requires Full(n) && |key| == KEY_NIBBLES
    ensures var s := Write(n, key, entry);
            && s.res.Ok? && Full(s.node)
            && forall q :: Get(s.node, q) == if q == key then Ok(entry) else Get(n, q)
  {
    var s := Write(n, key, entry);
    match entry
    case None =>
      NeverRefused(n, key, []);
      DeleteResult(n, key);
      DeleteKeepsResolved(n, key);
      forall q ensures Get(s.node, q) == if q == key then Ok(entry) else Get(n, q) { DeleteIsRemoval(n, key, q); }
    case Some(v) =>
      NeverRefused(n, key, v);
      InsertKeepsCanonical(n, key, v);
      InsertKeepsResolved(n, key, v);
      forall q ensures Get(s.node, q) == if q == key then Ok(entry) else Get(n, q) { InsertIsUpdate(n, key, v, q); }
  }

  lemma {:induction false} WriteExtendsPatch(base: Node, patch: Patch, n: Node, key: Nibbles, entry: Option<Bytes>)
    requires Patched(base, patch, n) && |key| == KEY_NIBBLES
    ensures Write(n, key, entry).res.Ok? && Patched(base, patch[key := entry], Write(n, key, entry).node)
  {
    WriteIsUpdate(n, key, entry);
  }

  lemma {:induction false} WriteKeepsCanonical(n: Node, key: Nibbles, entry: Option<Bytes>)
    requires Canonical(n)
    ensures Canonical(Write(n, key, entry).node)
  {
    match entry
    case None => DeleteResult(n, key);
    case Some(v) => InsertKeepsCanonical(n, key, v);
  }

  /** A patched trie is determined by what is patched and how. */
  lemma {:induction false} PatchedIsUnique(base: Node, patch: Patch, a: Node, b: Node)
    requires Patched(base, patch, a) && Patched(base, patch, b)
    ensures a == b
  {
    OneShapePerMap(a, b);
  }

  // ----- one storage trie

  /** Zero slots are absent from the trie. */
  function SlotEntry(value: U256): Option<Bytes> {
    if value == 0 then None else Some(EncodeUint(value))
  }

  /** The patch that the slots in `done` amount to. */
  ghost predicate SlotPatch(H: Hasher, slots: map<U256, U256>, done: set<U256>, patch: Patch) {
    && done <= slots.Keys
    && patch.Keys == (set k | k in done :: SlotKey(H, k))
    && forall k :: k in done ==> patch[SlotKey(H, k)] == SlotEntry(slots[k])
  }

  lemma {:induction false} SlotPatchGrows(H: Hasher, slots: map<U256, U256>, done: set<U256>, patch: Patch, k: U256)
    requires SlotPatch(H, slots, done, patch) && k in slots && SlotKeysDiffer(H, slots.Keys)
    ensures SlotPatch(H, slots, done + {k}, patch[SlotKey(H, k) := SlotEntry(slots[k])])
  {
    var patch' := patch[SlotKey(H, k) := SlotEntry(slots[k])];
    forall j | j in done + {k} ensures patch'[SlotKey(H, j)] == SlotEntry(slots[j]) {
      if SlotKey(H, j) == SlotKey(H, k) { SlotKeysAreDistinct(H, slots.Keys, j, k); }
    }
  }

  /** The storage trie after all slots were written over `base`. */
  ghost predicate StorageOver(H: Hasher, base: Node, slots: map<U256, U256>, after: Node) {
    exists patch :: SlotPatch(H, slots, slots.Keys, patch) && Patched(base, patch, after)
  }

  /** The slots written one after the other, in the given order; a failure ends it. */
  function WriteSlots(H: Hasher, base: Node, slots: map<U256, U256>, order: seq<U256>): (r: Result<Node, Trie.Error>)
    requires Shaped(base) && forall k :: k in order ==> k in slots
    ensures r.Ok? ==> Shaped(r.value)
  {
    if order == [] then Ok(base)
    else
      var k := order[|order| - 1];
      var before := WriteSlots(H, base, slots, order[..|order| - 1]);
      if before.Err? then before
      else
        var s := Write(before.value, SlotKey(H, k), SlotEntry(slots[k]));
        if s.res.Ok? then Ok(s.node) else Err(s.res.error)
  }

  lemma {:induction false} WriteOneMore(H: Hasher, base: Node, slots: map<U256, U256>, order: seq<U256>, k: U256)
    requires Shaped(base) && k in slots && forall j :: j in order ==> j in slots
    ensures WriteSlots(H, base, slots, order + [k]) ==
            match WriteSlots(H, base, slots, order)
            case Err(e) => Err(e)
            case Ok(n) =>
              var s := Write(n, SlotKey(H, k), SlotEntry(slots[k]));
              if s.res.Ok? then Ok(s.node) else Err(s.res.error)
  {
    assert (order + [k])[..|order|] == order;
  }

  /** A failure is not undone by what would follow. */
  lemma {:induction false} FailureStays(H: Hasher, base: Node, slots: map<U256, U256>, order: seq<U256>, more: seq<U256>)
    requires Shaped(base) && forall k :: k in order + more ==> k in slots
    requires forall k :: k in order ==> k in slots
    requires WriteSlots(H, base, slots, order).Err?
    ensures WriteSlots(H, base, slots, order + more) == WriteSlots(H, base, slots, order)
    decreases |more|
  {
    if more == [] {
      assert order + more == order;
    } else {
      var most, k := more[..|more| - 1], more[|more| - 1];
      assert order + more == (order + most) + [k];
      assert forall j :: j in order + most ==> j in order + more;
      FailureStays(H, base, slots, order, most);
      assert k in order + more;
      WriteOneMore(H, base, slots, order + most, k);
    }
  }

  /** The elements of the set in some order, each once. */
  ghost predicate Lists<T(!new)>(order: seq<T>, all: set<T>) {
    && (forall x :: x in order <==> x in all)
    && forall i, j :: 0 <= i < j < |order| ==> order[i] != order[j]
  }

  lemma {:induction false} ListsMore<T(!new)>(order: seq<T>, all: set<T>, x: T)
    requires Lists(order, all) && x !in all
    ensures Lists(order + [x], all + {x})
  {
  }

  lemma {:induction false} ListsLess<T(!new)>(order: seq<T>, all: set<T>)
    requires Lists(order, all) && order != []
    ensures order[|order| - 1] in all && Lists(order[..|order| - 1], all - {order[|order| - 1]})
  {
    var x := order[|order| - 1];
    assert order == order[..|order| - 1] + [x];
  }

  lemma {:induction false} ListsBoth<T(!new)>(order: seq<T>, all: set<T>, more: seq<T>, rest: set<T>)
    requires Lists(order, all) && Lists(more, rest) && all !! rest
    ensures Lists(order + more, all + rest)
  {
    forall i, j | 0 <= i < j < |order + more| ensures (order + more)[i] != (order + more)[j] {
      assert i < |order| ==> order[i] in all;
      assert j >= |order| ==> more[j - |order|] in rest;
    }
  }

  lemma {:induction false} SomeOrder<T(!new)>(all: set<T>) returns (order: seq<T>)
    ensures Lists(order, all)
    decreases all
  {
    if all == {} {
      order := [];
    } else {
      var x :| x in all;
      var rest := SomeOrder(all - {x});
      order := rest + [x];
      ListsMore(rest, all - {x}, x);
      assert all - {x} + {x} == all;
    }
  }

  lemma {:induction false} FailedOrder(H: Hasher, base: Node, slots: map<U256, U256>, order: seq<U256>, todo: set<U256>)
    returns (whole: seq<U256>)
    requires Shaped(base) && todo <= slots.Keys && Lists(order, slots.Keys - todo) && WriteSlots(H, base, slots, order).Err?
    ensures Lists(whole, slots.Keys) && WriteSlots(H, base, slots, whole) == WriteSlots(H, base, slots, order)
  {
    var more := SomeOrder(todo);
    ListsBoth(order, slots.Keys - todo, more, todo);
    assert slots.Keys - todo + todo == slots.Keys;
    whole := order + more;
    FailureStays(H, base, slots, order, more);
  }

  /** The storage loop: every slot once, in an order that nothing is known about. */
  method UpdateStorage(H: Hasher, base: Node, slots: map<U256, U256>)
    returns (r: Result<Node, Trie.Error>, ghost order: seq<U256>)
    requires Shaped(base)
    ensures Lists(order, slots.Keys) && r == WriteSlots(H, base, slots, order)
  {
    order := [];
    var trie := base;
    var todo := slots.Keys;
    while todo != {}
      invariant todo <= slots.Keys && Shaped(trie) && Lists(order, slots.Keys - todo)
      invariant WriteSlots(H, base, slots, order) == Ok(trie)
      decreases todo
    {
      var k :| k in todo;
      var s := Write(trie, SlotKey(H, k), SlotEntry(slots[k]));
      WriteOneMore(H, base, slots, order, k);
      ListsMore(order, slots.Keys - todo, k);
      assert slots.Keys - todo + {k} == slots.Keys - (todo - {k});
      order, todo := order + [k], todo - {k};
      if s.res.Err? {
        order := FailedOrder(H, base, slots, order, todo);
        return Err(s.res.error), order;
      }
      trie := s.node;
    }
    r := Ok(trie);
  }

  lemma {:induction false} NothingPatched(base: Node)
    requires Full(base)
    ensures Patched(base, map[], base)
  {
  }

  lemma {:induction false} SlotsWrittenStep(H: Hasher, base: Node, slots: map<U256, U256>, done: set<U256>,
                                           patch: Patch, n: Node, k: U256)
    requires SlotKeysDiffer(H, slots.Keys) && k in slots
    requires Patched(base, patch, n) && SlotPatch(H, slots, done, patch)
    ensures var s := Write(n, SlotKey(H, k), SlotEntry(slots[k]));
            s.res.Ok? && Patched(base, patch[SlotKey(H, k) := SlotEntry(slots[k])], s.node)
    ensures SlotPatch(H, slots, done + {k}, patch[SlotKey(H, k) := SlotEntry(slots[k])])
  {
    WriteExtendsPatch(base, patch, n, SlotKey(H, k), SlotEntry(slots[k]));
    SlotPatchGrows(H, slots, done, patch, k);
  }

  /** Over a full trie every slot is written, and the result is the trie overlaid with the slots. */
  lemma {:induction false} SlotsWritten(H: Hasher, base: Node, slots: map<U256, U256>, done: set<U256>, order: seq<U256>)
    returns (patch: Patch)
    requires Full(base) && SlotKeysDiffer(H, slots.Keys) && done <= slots.Keys && Lists(order, done)
    ensures var r := WriteSlots(H, base, slots, order); r.Ok? && Patched(base, patch, r.value)
    ensures SlotPatch(H, slots, done, patch)
    decreases |order|
  {
    if order == [] {
      patch := map[];
      NothingPatched(base);
      assert done == {};
    } else {
      var most, k := order[..|order| - 1], order[|order| - 1];
      ListsLess(order, done);
      var less := SlotsWritten(H, base, slots, done - {k}, most);
      SlotsWrittenStep(H, base, slots, done - {k}, less, WriteSlots(H, base, slots, most).value, k);
      assert done - {k} + {k} == done;
      patch := less[SlotKey(H, k) := SlotEntry(slots[k])];
    }
  }

  lemma {:induction false} SlotsAreOver(H: Hasher, base: Node, slots: map<U256, U256>, order: seq<U256>)
    requires Full(base) && SlotKeysDiffer(H, slots.Keys) && Lists(order, slots.Keys)
    ensures var r := WriteSlots(H, base, slots, order); r.Ok? && StorageOver(H, base, slots, r.value)
  {
    var patch := SlotsWritten(H, base, slots, slots.Keys, order);
  }

  lemma {:induction false} SlotPatchIsUnique(H: Hasher, slots: map<U256, U256>, p: Patch, q: Patch)
    requires SlotPatch(H, slots, slots.Keys, p) && SlotPatch(H, slots, slots.Keys, q)
    ensures p == q
  {
    forall x | x in p ensures p[x] == q[x] {
      var k :| k in slots.Keys && x == SlotKey(H, k);
    }
  }

  lemma {:induction false} StorageOverIsUnique(H: Hasher, base: Node, slots: map<U256, U256>, a: Node, b: Node)
    requires StorageOver(H, base, slots, a) && StorageOver(H, base, slots, b)
    ensures a == b
  {
    var p :| SlotPatch(H, slots, slots.Keys, p) && Patched(base, p, a);
    var q :| SlotPatch(H, slots, slots.Keys, q) && Patched(base, q, b);
    SlotPatchIsUnique(H, slots, p, q);
    PatchedIsUnique(base, p, a, b);
  }

  // ----- the state trie

  function Affected(accounts: map<Address, DbAccount>): set<Address> {
    set a | a in accounts && accounts[a].state != Unaffected
  }

  function Rewritten(accounts: map<Address, DbAccount>): set<Address> {
    set a | a in accounts && accounts[a].state != Unaffected && accounts[a].state != Deleted
  }

  function StoredAccount(H: Hasher, info: AccountInfo, storageTrie: Node): StateAccount
    requires Shaped(storageTrie)
  {
    StateAccount(info.nonce, info.balance, HashOf(H, storageTrie), info.codeHash)
  }

  type Storage = map<Address, StorageEntry>

  ghost predicate CanonicalTries(storage: Storage) {
    forall a :: a in storage ==> Canonical(storage[a].trie)
  }

  /** What the state trie is to hold for an affected account. */
  function AccountEntry(H: Hasher, account: DbAccount, storageTrie: Node): Option<Bytes>
    requires Shaped(storageTrie)
  {
    if account.state == Deleted then None else Some(EncodeAccount(StoredAccount(H, account.info, storageTrie)))
  }

  function TrieOf(storage: Storage, a: Address): Node {
    if a in storage then storage[a].trie else Null
  }

  /** What the state trie is to hold for every affected account, over the given storage tries. */
  function Entries(H: Hasher, accounts: map<Address, DbAccount>, storage: Storage): map<Address, Option<Bytes>>
    requires CanonicalTries(storage)
  {
    map a | a in Affected(accounts) :: AccountEntry(H, accounts[a], TrieOf(storage, a))
  }

  /** The patch that the entries of the accounts in `done` amount to. */
  ghost predicate KeyedPatch(H: Hasher, entries: map<Address, Option<Bytes>>, done: set<Address>, patch: Patch) {
    && done <= entries.Keys
    && patch.Keys == (set a | a in done :: AccountKey(H, a))
    && forall a :: a in done ==> patch[AccountKey(H, a)] == entries[a]
  }

  ghost predicate AccountPatch(H: Hasher, accounts: map<Address, DbAccount>, storage: Storage,
                               done: set<Address>, patch: Patch)
    requires CanonicalTries(storage)
  {
    KeyedPatch(H, Entries(H, accounts, storage), done, patch)
  }

  /** Where an account's slots are written: over its parent storage, or over nothing. */
  function StorageBase(account: DbAccount, parent: Node): Node {
    if account.state == StorageCleared then Null else parent
  }

  /** The storage tries after the accounts in `done` were written back; all others are as before. */
  ghost predicate StorageWritten(H: Hasher, accounts: map<Address, DbAccount>, parent: Storage,
                                 done: set<Address>, storage: Storage)
  {
    && storage.Keys == parent.Keys
    && CanonicalTries(storage)
    && (forall a :: a in parent && a !in done * Rewritten(accounts) ==> storage[a] == parent[a])
    && (forall a :: a in done * Rewritten(accounts) ==>
          && a in parent
          && StorageOver(H, StorageBase(accounts[a], parent[a].trie), accounts[a].storage, storage[a].trie))
  }

  /** Nothing is missing, and the hash function tells the keys in use apart. */
  ghost predicate Complete(H: Hasher, state: Node, storage: Storage, accounts: map<Address, DbAccount>) {
    && Full(state)
    && (forall a :: a in storage ==> Full(storage[a].trie))
    && AccountKeysDiffer(H, accounts.Keys)
    && forall a :: a in accounts ==> SlotKeysDiffer(H, accounts[a].storage.Keys)
  }

  lemma {:induction false} PatchGrows(H: Hasher, addresses: set<Address>, done: set<Address>, patch: Patch, a: Address,
                                      entries: map<Address, Option<Bytes>>, entries': map<Address, Option<Bytes>>)
    requires AccountKeysDiffer(H, addresses) && done <= addresses && a in addresses && a !in done
    requires KeyedPatch(H, entries, done, patch) && entries'.Keys == entries.Keys && a in entries
    requires forall b :: b in entries && b != a ==> entries'[b] == entries[b]
    ensures KeyedPatch(H, entries', done + {a}, patch[AccountKey(H, a) := entries'[a]])
  {
    forall b | b in done ensures AccountKey(H, b) != AccountKey(H, a) {
      if AccountKey(H, b) == AccountKey(H, a) { AccountKeysAreDistinct(H, addresses, b, a); }
    }
  }

  lemma {:induction false} AccountPatchGrows(H: Hasher, accounts: map<Address, DbAccount>, storage: Storage, storage': Storage,
                                             done: set<Address>, patch: Patch, a: Address)
    requires CanonicalTries(storage) && CanonicalTries(storage') && AccountPatch(H, accounts, storage, done, patch)
    requires a in Affected(accounts) && a !in done && AccountKeysDiffer(H, accounts.Keys)
    requires forall b :: b != a ==> TrieOf(storage', b) == TrieOf(storage, b)
    ensures AccountPatch(H, accounts, storage', done + {a},
                         patch[AccountKey(H, a) := AccountEntry(H, accounts[a], TrieOf(storage', a))])
  {
    PatchGrows(H, accounts.Keys, done, patch, a, Entries(H, accounts, storage), Entries(H, accounts, storage'));
  }

  /** Everything known after the accounts in `done` were written back. */
  ghost predicate Progress(H: Hasher, base: Node, parent: Storage, accounts: map<Address, DbAccount>,
                           done: set<Address>, storage: Storage, patch: Patch, trie: Node)
  {
    && StorageWritten(H, accounts, parent, done, storage)
    && AccountPatch(H, accounts, storage, done * Affected(accounts), patch)
    && Patched(base, patch, trie)
  }

  lemma {:induction false} SkipAccount(H: Hasher, base: Node, parent: Storage, accounts: map<Address, DbAccount>,
                                       done: set<Address>, storage: Storage, patch: Patch, trie: Node, a: Address)
    requires Progress(H, base, parent, accounts, done, storage, patch, trie)
    requires a in accounts && accounts[a].state == Unaffected
    ensures Progress(H, base, parent, accounts, done + {a}, storage, patch, trie)
  {
    assert (done + {a}) * Affected(accounts) == done * Affected(accounts);
    assert (done + {a}) * Rewritten(accounts) == done * Rewritten(accounts);
  }

  lemma {:induction false} StorageWrittenGrows(H: Hasher, accounts: map<Address, DbAccount>, parent: Storage,
                                               done: set<Address>, storage: Storage, storage': Storage, a: Address)
    requires StorageWritten(H, accounts, parent, done, storage)
    requires a in Affected(accounts) && a !in done && CanonicalTries(storage') && storage'.Keys == storage.Keys
    requires forall b :: b in storage && b != a ==> storage'[b] == storage[b]
    requires accounts[a].state == Deleted ==> storage' == storage
    requires accounts[a].state != Deleted ==>
               a in parent && StorageOver(H, StorageBase(accounts[a], storage[a].trie), accounts[a].storage, storage'[a].trie)
    ensures StorageWritten(H, accounts, parent, done + {a}, storage')
  {
    forall b | b in (done + {a}) * Rewritten(accounts)
      ensures b in parent && StorageOver(H, StorageBase(accounts[b], parent[b].trie), accounts[b].storage, storage'[b].trie)
    {
      assert b != a ==> b in done * Rewritten(accounts);
    }
    forall b | b in parent && b !in (done + {a}) * Rewritten(accounts) ensures storage'[b] == parent[b] {
      assert b !in done * Rewritten(accounts);
    }
  }

  /** One account's storage was written back, or was left alone because the account is gone. */
  ghost predicate StorageStep(H: Hasher, account: DbAccount, a: Address, before: Storage, after: Storage) {
    && CanonicalTries(after) && after.Keys == before.Keys
    && (forall b :: b in before && b != a ==> after[b] == before[b])
    && (account.state == Deleted ==> after == before)
    && (account.state != Deleted ==>
          a in before && StorageOver(H, StorageBase(account, before[a].trie), account.storage, after[a].trie))
  }

  lemma {:induction false} OneMoreAffected(done: set<Address>, affected: set<Address>, a: Address)
    requires a in affected
    ensures (done + {a}) * affected == done * affected + {a}
  {
  }

  lemma {:induction false} EntryGrows(H: Hasher, accounts: map<Address, DbAccount>, done: set<Address>,
                                      storage: Storage, storage': Storage, patch: Patch, a: Address)
    requires CanonicalTries(storage) && AccountPatch(H, accounts, storage, done, patch)
    requires AccountKeysDiffer(H, accounts.Keys)
    requires a in Affected(accounts) && a !in done && StorageStep(H, accounts[a], a, storage, storage')
    ensures AccountPatch(H, accounts, storage', done + {a},
                         patch[AccountKey(H, a) := AccountEntry(H, accounts[a], TrieOf(storage', a))])
  {
    assert forall b :: b != a ==> TrieOf(storage', b) == TrieOf(storage, b);
    AccountPatchGrows(H, accounts, storage, storage', done, patch, a);
  }

  lemma {:induction false} ProgressGrows(H: Hasher, base: Node, parent: Storage, accounts: map<Address, DbAccount>,
                                         done: set<Address>, storage: Storage, storage': Storage,
                                         patch: Patch, trie: Node, a: Address, entry: Option<Bytes>)
    requires Progress(H, base, parent, accounts, done, storage, patch, trie) && AccountKeysDiffer(H, accounts.Keys)
    requires a in Affected(accounts) && a !in done && StorageStep(H, accounts[a], a, storage, storage')
    requires entry == AccountEntry(H, accounts[a], TrieOf(storage', a))
    ensures var s := Write(trie, AccountKey(H, a), entry);
            s.res.Ok? && Progress(H, base, parent, accounts, done + {a}, storage', patch[AccountKey(H, a) := entry], s.node)
  {
    StorageWrittenGrows(H, accounts, parent, done, storage, storage', a);
    OneMoreAffected(done, Affected(accounts), a);
    EntryGrows(H, accounts, done * Affected(accounts), storage, storage', patch, a);
    WriteExtendsPatch(base, patch, trie, AccountKey(H, a), entry);
  }

  lemma {:induction false} StillFull(H: Hasher, base: Node, parent: Storage, accounts: map<Address, DbAccount>,
                                     done: set<Address>, storage: Storage, patch: Patch, trie: Node, a: Address)
    requires Progress(H, base, parent, accounts, done, storage, patch, trie) && Complete(H, base, parent, accounts)
    requires a in accounts && a !in done
    ensures SlotKeysDiffer(H, accounts[a].storage.Keys) && (a in storage ==> Full(storage[a].trie))
  {
    assert a !in done * Rewritten(accounts);
  }

  /** The state trie `after` is the parent state overlaid with the accounts, storage tries included. */
  ghost predicate RootOver(H: Hasher, base: Node, parent: Storage, accounts: map<Address, DbAccount>,
                           storage: Storage, after: Node)
  {
    && StorageWritten(H, accounts, parent, accounts.Keys, storage)
    && exists patch :: AccountPatch(H, accounts, storage, Affected(accounts), patch) && Patched(base, patch, after)
  }

  lemma {:induction false} ProgressEnds(H: Hasher, base: Node, parent: Storage, accounts: map<Address, DbAccount>,
                                        storage: Storage, patch: Patch, trie: Node)
    requires Progress(H, base, parent, accounts, accounts.Keys, storage, patch, trie)
    ensures RootOver(H, base, parent, accounts, storage, trie)
    ensures Rewritten(accounts) <= parent.Keys
  {
    assert accounts.Keys * Affected(accounts) == Affected(accounts);
    assert accounts.Keys * Rewritten(accounts) == Rewritten(accounts);
  }

  // ----- visiting the accounts

  /** The tries as they stand while accounts are written back. */
  datatype Ledger = Ledger(state: Node, storage: Storage)

  ghost predicate ShapedLedger(l: Ledger) {
    Shaped(l.state) && forall a :: a in l.storage ==> Shaped(l.storage[a].trie)
  }

  /** One account, with the order in which its slots come. */
  datatype Visit = Visit(a: Address, slots: seq<U256>)

  predicate Sensible(accounts: map<Address, DbAccount>, v: Visit) {
    v.a in accounts && forall k :: k in v.slots ==> k in accounts[v.a].storage
  }

  function WriteEntry(l: Ledger, key: Nibbles, entry: Option<Bytes>): (r: Result<Ledger, BuildError>)
    requires ShapedLedger(l)
    ensures r.Ok? ==> ShapedLedger(r.value)
  {
    var s := Write(l.state, key, entry);
    if s.res.Ok? then Ok(l.(state := s.node)) else Err(TrieFailed(s.res.error))
  }

  /** An account's storage, written in place. */
  function SettleStorage(H: Hasher, l: Ledger, account: DbAccount, v: Visit): (r: Result<Ledger, BuildError>)
    requires ShapedLedger(l) && forall k :: k in v.slots ==> k in account.storage
    ensures r.Ok? ==> ShapedLedger(r.value)
  {
    if account.state == Deleted then Ok(l)
    else if v.a !in l.storage then Err(AddressNotFound)
    else
      var t := WriteSlots(H, StorageBase(account, l.storage[v.a].trie), account.storage, v.slots);
      if t.Err? then Err(TrieFailed(t.error))
      else Ok(l.(storage := l.storage[v.a := l.storage[v.a].(trie := t.value)]))
  }

  /** What visiting one account does to the tries. */
  function Visited(H: Hasher, accounts: map<Address, DbAccount>, l: Ledger, v: Visit): (r: Result<Ledger, BuildError>)
    requires ShapedLedger(l) && Sensible(accounts, v)
    ensures r.Ok? ==> ShapedLedger(r.value)
  {
    if accounts[v.a].state == Unaffected then Ok(l)
    else
      var settled := SettleStorage(H, l, accounts[v.a], v);
      if settled.Err? then settled
      else WriteEntry(settled.value, AccountKey(H, v.a), AccountEntry(H, accounts[v.a], TrieOf(settled.value.storage, v.a)))
  }

  function VisitedBy(visits: seq<Visit>): set<Address> {
    if visits == [] then {} else VisitedBy(visits[..|visits| - 1]) + {visits[|visits| - 1].a}
  }

  /** No account twice, each with all of its slots once, in orders that nothing is known about. */
  ghost predicate Tour(accounts: map<Address, DbAccount>, visits: seq<Visit>) {
    visits != [] ==>
      var most, v := visits[..|visits| - 1], visits[|visits| - 1];
      && Tour(accounts, most)
      && v.a in accounts && v.a !in VisitedBy(most) && Lists(v.slots, accounts[v.a].storage.Keys)
  }

  ghost predicate WholeTour(accounts: map<Address, DbAccount>, visits: seq<Visit>) {
    Tour(accounts, visits) && VisitedBy(visits) == accounts.Keys
  }

  ghost function VisitedAll(H: Hasher, accounts: map<Address, DbAccount>, l: Ledger, visits: seq<Visit>)
    : (r: Result<Ledger, BuildError>)
    requires ShapedLedger(l) && Tour(accounts, visits)
    ensures r.Ok? ==> ShapedLedger(r.value)
  {
    if visits == [] then Ok(l)
    else
      var before := VisitedAll(H, accounts, l, visits[..|visits| - 1]);
      if before.Err? then before else Visited(H, accounts, before.value, visits[|visits| - 1])
  }

  lemma {:induction false} VisitOneMore(H: Hasher, accounts: map<Address, DbAccount>, l: Ledger, visits: seq<Visit>, v: Visit)
    requires ShapedLedger(l) && Tour(accounts, visits)
    requires v.a in accounts && v.a !in VisitedBy(visits) && Lists(v.slots, accounts[v.a].storage.Keys)
    ensures Tour(accounts, visits + [v]) && VisitedBy(visits + [v]) == VisitedBy(visits) + {v.a}
    ensures VisitedAll(H, accounts, l, visits + [v]) ==
            match VisitedAll(H, accounts, l, visits) case Err(e) => Err(e) case Ok(m) => Visited(H, accounts, m, v)
  {
    assert (visits + [v])[..|visits|] == visits;
  }

  // ----- a tour over full tries

  lemma {:induction false} SettleIsStep(H: Hasher, l: Ledger, account: DbAccount, v: Visit)
    requires ShapedLedger(l) && CanonicalTries(l.storage) && (v.a in l.storage ==> Full(l.storage[v.a].trie))
    requires SlotKeysDiffer(H, account.storage.Keys) && Lists(v.slots, account.storage.Keys)
    ensures var r := SettleStorage(H, l, account, v);
            && (r.Ok? <==> account.state == Deleted || v.a in l.storage)
            && (r.Ok? ==> r.value.state == l.state && StorageStep(H, account, v.a, l.storage, r.value.storage))
  {
    if account.state != Deleted && v.a in l.storage {
      NothingPatched(Null);
      SlotsAreOver(H, StorageBase(account, l.storage[v.a].trie), account.storage, v.slots);
    }
  }

  /** What is known after the accounts in `done` were visited. */
  ghost predicate Reaches(H: Hasher, base: Node, parent: Storage, accounts: map<Address, DbAccount>,
                          done: set<Address>, patch: Patch, r: Result<Ledger, BuildError>)
  {
    && (r.Ok? <==> done * Rewritten(accounts) <= parent.Keys)
    && (r.Ok? ==> Progress(H, base, parent, accounts, done, r.value.storage, patch, r.value.state))
  }

  lemma {:induction false} OneMoreRewritten(done: set<Address>, rewritten: set<Address>, known: set<Address>, a: Address)
    requires done * rewritten <= known
    ensures (done + {a}) * rewritten <= known <==> (a in rewritten ==> a in known)
  {
    if a in rewritten { assert a in (done + {a}) * rewritten; }
  }

  lemma {:induction false} EntryProgress(H: Hasher, base: Node, parent: Storage, accounts: map<Address, DbAccount>,
                                         done: set<Address>, l: Ledger, settled: Ledger, patch: Patch, a: Address, entry: Option<Bytes>)
    requires ShapedLedger(settled) && settled.state == l.state && AccountKeysDiffer(H, accounts.Keys)
    requires Progress(H, base, parent, accounts, done, l.storage, patch, l.state)
    requires a in Affected(accounts) && a !in done && StorageStep(H, accounts[a], a, l.storage, settled.storage)
    requires entry == AccountEntry(H, accounts[a], TrieOf(settled.storage, a))
    ensures var r := WriteEntry(settled, AccountKey(H, a), entry);
            && r.Ok?
            && Progress(H, base, parent, accounts, done + {a}, r.value.storage, patch[AccountKey(H, a) := entry], r.value.state)
  {
    ProgressGrows(H, base, parent, accounts, done, l.storage, settled.storage, patch, l.state, a, entry);
  }

  lemma {:induction false} AffectedProgress(H: Hasher, base: Node, parent: Storage, accounts: map<Address, DbAccount>,
                                            done: set<Address>, l: Ledger, settled: Ledger, patch: Patch, v: Visit)
    returns (patch': Patch)
    requires ShapedLedger(l) && ShapedLedger(settled) && AccountKeysDiffer(H, accounts.Keys)
    requires Progress(H, base, parent, accounts, done, l.storage, patch, l.state)
    requires v.a in Affected(accounts) && v.a !in done && Sensible(accounts, v)
    requires SettleStorage(H, l, accounts[v.a], v) == Ok(settled) && settled.state == l.state
    requires StorageStep(H, accounts[v.a], v.a, l.storage, settled.storage)
    ensures var r := Visited(H, accounts, l, v);
            r.Ok? && Progress(H, base, parent, accounts, done + {v.a}, r.value.storage, patch', r.value.state)
  {
    var entry := AccountEntry(H, accounts[v.a], TrieOf(settled.storage, v.a));
    EntryProgress(H, base, parent, accounts, done, l, settled, patch, v.a, entry);
    assert Visited(H, accounts, l, v) == WriteEntry(settled, AccountKey(H, v.a), entry);
    patch' := patch[AccountKey(H, v.a) := entry];
  }

  lemma {:induction false} VisitProgress(H: Hasher, base: Node, parent: Storage, accounts: map<Address, DbAccount>,
                                         done: set<Address>, l: Ledger, patch: Patch, v: Visit) returns (patch': Patch)
    requires ShapedLedger(l) && Complete(H, base, parent, accounts)
    requires Reaches(H, base, parent, accounts, done, patch, Ok(l))
    requires v.a in accounts && v.a !in done && Lists(v.slots, accounts[v.a].storage.Keys)
    ensures Reaches(H, base, parent, accounts, done + {v.a}, patch', Visited(H, accounts, l, v))
  {
    OneMoreRewritten(done, Rewritten(accounts), parent.Keys, v.a);
    if accounts[v.a].state == Unaffected {
      SkipAccount(H, base, parent, accounts, done, l.storage, patch, l.state, v.a);
      patch' := patch;
    } else {
      StillFull(H, base, parent, accounts, done, l.storage, patch, l.state, v.a);
      SettleIsStep(H, l, accounts[v.a], v);
      patch' := patch;
      var settled := SettleStorage(H, l, accounts[v.a], v);
      if settled.Ok? {
        patch' := AffectedProgress(H, base, parent, accounts, done, l, settled.value, patch, v);
      }
    }
  }

  lemma {:induction false} StartProgress(H: Hasher, base: Node, parent: Storage, accounts: map<Address, DbAccount>)
    requires Complete(H, base, parent, accounts)
    ensures Progress(H, base, parent, accounts, {}, parent, map[], base)
  {
    NothingPatched(base);
    assert {} * Affected(accounts) == {};
  }

  lemma {:induction false} FewerRewritten(done: set<Address>, rewritten: set<Address>, known: set<Address>, a: Address)
    requires !(done * rewritten <= known)
    ensures !((done + {a}) * rewritten <= known)
  {
    var b :| b in done * rewritten && b !in known;
    assert b in (done + {a}) * rewritten;
  }

  lemma {:induction false} TourStep(H: Hasher, base: Node, parent: Storage, accounts: map<Address, DbAccount>, done: set<Address>,
                                    before: Result<Ledger, BuildError>, patch: Patch, v: Visit) returns (patch': Patch)
    requires Complete(H, base, parent, accounts) && (before.Ok? ==> ShapedLedger(before.value))
    requires Reaches(H, base, parent, accounts, done, patch, before)
    requires v.a in accounts && v.a !in done && Lists(v.slots, accounts[v.a].storage.Keys)
    ensures Reaches(H, base, parent, accounts, done + {v.a}, patch',
                    if before.Err? then before else Visited(H, accounts, before.value, v))
  {
    if before.Ok? {
      patch' := VisitProgress(H, base, parent, accounts, done, before.value, patch, v);
    } else {
      patch' := patch;
      FewerRewritten(done, Rewritten(accounts), parent.Keys, v.a);
    }
  }

  lemma {:induction false} TourProgress(H: Hasher, base: Node, parent: Storage, accounts: map<Address, DbAccount>, visits: seq<Visit>)
    returns (patch: Patch)
    requires Complete(H, base, parent, accounts) && Tour(accounts, visits) && ShapedLedger(Ledger(base, parent))
    ensures Reaches(H, base, parent, accounts, VisitedBy(visits), patch, VisitedAll(H, accounts, Ledger(base, parent), visits))
    decreases |visits|
  {
    if visits == [] {
      patch := map[];
      StartProgress(H, base, parent, accounts);
    } else {
      var most, v := visits[..|visits| - 1], visits[|visits| - 1];
      patch := TourProgress(H, base, parent, accounts, most);
      patch := TourStep(H, base, parent, accounts, VisitedBy(most), VisitedAll(H, accounts, Ledger(base, parent), most), patch, v);
    }
  }

  lemma {:induction false} TourEnds(H: Hasher, base: Node, parent: Storage, accounts: map<Address, DbAccount>,
                                    patch: Patch, r: Result<Ledger, BuildError>)
    requires Reaches(H, base, parent, accounts, accounts.Keys, patch, r)
    ensures r.Ok? <==> Rewritten(accounts) <= parent.Keys
    ensures r.Ok? ==> RootOver(H, base, parent, accounts, r.value.storage, r.value.state)
  {
    assert accounts.Keys * Rewritten(accounts) == Rewritten(accounts);
    if r.Ok? { ProgressEnds(H, base, parent, accounts, r.value.storage, patch, r.value.state); }
  }

  /**
   With nothing missing, every tour fails exactly when an account to be rewritten has no storage entry;
   otherwise it ends in the parent state overlaid with the affected accounts.
   */
  lemma {:induction false} RootOfFull(H: Hasher, base: Node, parent: Storage, accounts: map<Address, DbAccount>, visits: seq<Visit>)
    requires Complete(H, base, parent, accounts) && WholeTour(accounts, visits) && ShapedLedger(Ledger(base, parent))
    ensures var r := VisitedAll(H, accounts, Ledger(base, parent), visits);
            && (r.Ok? <==> Rewritten(accounts) <= parent.Keys)
            && (r.Ok? ==> RootOver(H, base, parent, accounts, r.value.storage, r.value.state))
  {
    var patch := TourProgress(H, base, parent, accounts, visits);
    TourEnds(H, base, parent, accounts, patch, VisitedAll(H, accounts, Ledger(base, parent), visits));
  }

  // ----- the builder

  lemma {:induction false} VisitFailureStays(H: Hasher, accounts: map<Address, DbAccount>, l: Ledger, visits: seq<Visit>)
    returns (whole: seq<Visit>)
    requires ShapedLedger(l) && Tour(accounts, visits) && VisitedBy(visits) <= accounts.Keys
    requires VisitedAll(H, accounts, l, visits).Err?
    ensures WholeTour(accounts, whole)
    ensures VisitedAll(H, accounts, l, whole) == VisitedAll(H, accounts, l, visits)
    decreases accounts.Keys - VisitedBy(visits)
  {
    if accounts.Keys <= VisitedBy(visits) {
      whole := visits;
    } else {
      var a :| a in accounts.Keys && a !in VisitedBy(visits);
      var order := SomeOrder(accounts[a].storage.Keys);
      VisitOneMore(H, accounts, l, visits, Visit(a, order));
      whole := VisitFailureStays(H, accounts, l, visits + [Visit(a, order)]);
    }
  }

  /** The accounts but those still to do were visited, with the given result. */
  ghost predicate OnTour(H: Hasher, accounts: map<Address, DbAccount>, start: Ledger, todo: set<Address>,
                         visits: seq<Visit>, r: Result<Ledger, BuildError>)
  {
    && ShapedLedger(start) && todo <= accounts.Keys
    && Tour(accounts, visits) && VisitedBy(visits) == accounts.Keys - todo
    && VisitedAll(H, accounts, start, visits) == r
  }

  lemma {:induction false} OnTourMore(H: Hasher, accounts: map<Address, DbAccount>, start: Ledger, todo: set<Address>,
                                      visits: seq<Visit>, l: Ledger, v: Visit)
    requires OnTour(H, accounts, start, todo, visits, Ok(l)) && ShapedLedger(l)
    requires v.a in todo && Lists(v.slots, accounts[v.a].storage.Keys)
    ensures OnTour(H, accounts, start, todo - {v.a}, visits + [v], Visited(H, accounts, l, v))
  {
    VisitOneMore(H, accounts, start, visits, v);
  }

  class RethBlockBuilder {
    var parentStateTrie: Node
    var parentStorage: Storage
    const db: Database

    constructor (state: Node, storage: Storage, database: Database)
      ensures parentStateTrie == state && parentStorage == storage && db == database
    {
      parentStateTrie, parentStorage, db := state, storage, database;
    }

    /** The storage of an affected account that is not gone: its trie is updated in place. */
    method WriteStorage(H: Hasher, a: Address, account: DbAccount, ghost trie: Node)
      returns (r: Result<bool, BuildError>, ghost order: seq<U256>)
      requires ShapedLedger(Ledger(trie, parentStorage)) && account.state != Deleted
      modifies this`parentStorage
      ensures Lists(order, account.storage.Keys)
      ensures SettleStorage(H, Ledger(trie, old(parentStorage)), account, Visit(a, order)) ==
              if r.Ok? then Ok(Ledger(trie, parentStorage)) else Err(r.error)
      ensures r.Err? ==> parentStorage == old(parentStorage)
    {
      if a !in parentStorage {
        order := SomeOrder(account.storage.Keys);
        return Err(AddressNotFound), order;
      }
      var entry := parentStorage[a];
      var updated;
      updated, order := UpdateStorage(H, StorageBase(account, entry.trie), account.storage);
      if updated.Err? { return Err(TrieFailed(updated.error)), order; }
      parentStorage := parentStorage[a := entry.(trie := updated.value)];
      r := Ok(true);
    }

    /** One account of the database. */
    method ApplyAccount(H: Hasher, a: Address, trie: Node) returns (r: Result<Node, BuildError>, ghost v: Visit)
      requires a in db.accounts && ShapedLedger(Ledger(trie, parentStorage))
      modifies this`parentStorage
      ensures v.a == a && Lists(v.slots, db.accounts[a].storage.Keys)
      ensures Visited(H, db.accounts, Ledger(trie, old(parentStorage)), v) ==
              if r.Ok? then Ok(Ledger(r.value, parentStorage)) else Err(r.error)
      ensures r.Ok? ==> ShapedLedger(Ledger(r.value, parentStorage))
    {
      var account := db.accounts[a];
      ghost var order := SomeOrder(account.storage.Keys);
      v := Visit(a, order);
      if account.state == Unaffected { return Ok(trie), v; }
      if account.state != Deleted {
        var written;
        written, order := WriteStorage(H, a, account, trie);
        v := Visit(a, order);
        if written.Err? { return Err(written.error), v; }
      }
      var s := Write(trie, AccountKey(H, a), AccountEntry(H, account, TrieOf(parentStorage, a)));
      r := if s.res.Ok? then Ok(s.node) else Err(TrieFailed(s.res.error));
    }

    /** `calculate_state_root`: some tour over all accounts, and the hash of the state trie it ends in. */
    method CalculateStateRoot(H: Hasher) returns (r: Result<Hash, BuildError>, ghost visits: seq<Visit>)
      requires ShapedLedger(Ledger(parentStateTrie, parentStorage))
      modifies this
      ensures WholeTour(db.accounts, visits)
      ensures match VisitedAll(H, db.accounts, Ledger(old(parentStateTrie), old(parentStorage)), visits)
              case Err(e) => r == Err(e)
              case Ok(l) => r == Ok(HashOf(H, l.state)) && parentStorage == l.storage
    {
      ghost var start := Ledger(parentStateTrie, parentStorage);
      visits := [];
      var trie := parentStateTrie;
      parentStateTrie := Null;
      var todo := db.accounts.Keys;
      while todo != {}
        invariant ShapedLedger(Ledger(trie, parentStorage))
        invariant OnTour(H, db.accounts, start, todo, visits, Ok(Ledger(trie, parentStorage)))
        decreases todo
      {
        var a :| a in todo;
        ghost var l := Ledger(trie, parentStorage);
        var applied;
        ghost var v;
        applied, v := ApplyAccount(H, a, trie);
        OnTourMore(H, db.accounts, start, todo, visits, l, v);
        visits, todo := visits + [v], todo - {a};
        if applied.Err? {
          visits := VisitFailureStays(H, db.accounts, start, visits);
          return Err(applied.error), visits;
        }
        trie := applied.value;
      }
      r := Ok(HashOf(H, trie));
    }
  }
}
