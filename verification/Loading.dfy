/** `create_mem_db`: loading the database from tries that are checked against the parent header. */
module Loading {
  import opened Prelude
  import opened Trie
  import opened TrieCodec
  import opened State
  import opened MemDb
  import opened StateRoot

  datatype Header = Header(number: U64, parentHash: Hash, stateRoot: Hash, rest: Bytes)

  datatype GuestInput = GuestInput(
    state: Node, storage: Storage, contracts: seq<Bytes>, parent: Header, ancestors: seq<Header>)

  const MAX_BLOCK_HASH_AGE: int := 256

  /** `MissingContract` is a panic in the program. */
  datatype LoadError =
    | BadStateRoot
    | Unreadable(error: Trie.Error)
    | BadEncoding
    | BadStorageRoot
    | MissingContract
    | NotTheParent
    | TooOld

  // ----- single values

  /** The account in the state trie, or the default account where there is none. */
  function LoadAccount(H: Hasher, state: Node, a: Address): Result<StateAccount, LoadError>
    requires Shaped(state)
  {
    match Get(state, AccountKey(H, a))
    case Err(e) => Err(Unreadable(e))
    case Ok(None) => Ok(DEFAULT_ACCOUNT)
    case Ok(Some(bytes)) =>
      var d := DecodeAccount(bytes);
      if d.None? then Err(BadEncoding) else Ok(d.value)
  }

  function LoadSlot(H: Hasher, trie: Node, slot: U256): Result<U256, LoadError>
    requires Shaped(trie)
  {
    match Get(trie, SlotKey(H, slot))
    case Err(e) => Err(Unreadable(e))
    case Ok(None) => Ok(0)
    case Ok(Some(bytes)) =>
      var d := DecodeUint(bytes);
      if d.None? then Err(BadEncoding) else Ok(d.value)
  }

  ghost predicate SlotsLoaded(H: Hasher, entry: StorageEntry, storage: map<U256, U256>)
    requires Shaped(entry.trie)
  {
    && storage.Keys == (set k | k in entry.slots)
    && forall k :: k in storage ==> LoadSlot(H, entry.trie, k) == Ok(storage[k])
  }

  method LoadStorage(H: Hasher, entry: StorageEntry) returns (r: Result<map<U256, U256>, LoadError>)
    requires Shaped(entry.trie)
    ensures r.Ok? <==> forall k :: k in entry.slots ==> LoadSlot(H, entry.trie, k).Ok?
    ensures r.Ok? ==> SlotsLoaded(H, entry, r.value)
  {
    var storage: map<U256, U256> := map[];
    for i := 0 to |entry.slots|
      invariant storage.Keys == (set k | k in entry.slots[..i])
      invariant forall k :: k in storage ==> LoadSlot(H, entry.trie, k) == Ok(storage[k])
    {
      var k := entry.slots[i];
      assert entry.slots[..i + 1] == entry.slots[..i] + [k];
      var v := LoadSlot(H, entry.trie, k);
      if v.Err? {
        assert k in entry.slots;
        return Err(v.error);
      }
      storage := storage[k := v.value];
    }
    assert entry.slots[..|entry.slots|] == entry.slots;
    r := Ok(storage);
  }

  // ----- one account

  predicate HasCode(H: Hasher, contracts: seq<Bytes>, h: Hash) {
    h == KECCAK_EMPTY || exists c :: c in contracts && H(c) == h
  }

  /** What makes an account loadable: readable, and the storage trie is the one its root commits to. */
  ghost predicate Loadable(H: Hasher, input: GuestInput, a: Address)
    requires Shaped(input.state) && a in input.storage && Shaped(input.storage[a].trie)
  {
    var s := LoadAccount(H, input.state, a);
    && s.Ok?
    && HashOf(H, input.storage[a].trie) == s.value.storageRoot
    && HasCode(H, input.contracts, s.value.codeHash)
    && forall k :: k in input.storage[a].slots ==> LoadSlot(H, input.storage[a].trie, k).Ok?
  }

  ghost predicate Loaded(H: Hasher, input: GuestInput, a: Address, d: DbAccount)
    requires Shaped(input.state) && a in input.storage && Shaped(input.storage[a].trie)
  {
    var s := LoadAccount(H, input.state, a);
    && s.Ok?
    && d.state == Unaffected
    && d.info.balance == s.value.balance && d.info.nonce == s.value.nonce && d.info.codeHash == s.value.codeHash
    && (if s.value.codeHash == KECCAK_EMPTY then d.info.code == [] else H(d.info.code) == s.value.codeHash)
    && SlotsLoaded(H, input.storage[a], d.storage)
  }

  /**
   An account that is not in the state trie: it loads exactly with an empty storage trie whose slots can be
   read, and then without balance, nonce and code.
   */
  lemma {:induction false} AbsentAccount(H: Hasher, input: GuestInput, a: Address)
    requires Shaped(input.state) && a in input.storage && Shaped(input.storage[a].trie)
    requires Get(input.state, AccountKey(H, a)) == Ok(None)
    ensures Loadable(H, input, a) <==>
            && HashOf(H, input.storage[a].trie) == EMPTY_ROOT
            && forall k :: k in input.storage[a].slots ==> LoadSlot(H, input.storage[a].trie, k).Ok?
    ensures forall d :: Loaded(H, input, a, d) ==> d.info == AccountInfo(0, 0, KECCAK_EMPTY, []) && HasNothing(d.info)
  {
  }

  /** An account that is there loads with the values that are written for it, and with no other storage trie. */
  lemma {:induction false} PresentAccount(H: Hasher, input: GuestInput, a: Address, s: StateAccount)
    requires Shaped(input.state) && a in input.storage && Shaped(input.storage[a].trie)
    requires Get(input.state, AccountKey(H, a)).Ok? && Get(input.state, AccountKey(H, a)).value.Some?
    requires EncodeAccount(s) <= Get(input.state, AccountKey(H, a)).value.value
    ensures Loadable(H, input, a) ==> HashOf(H, input.storage[a].trie) == s.storageRoot
    ensures forall d :: Loaded(H, input, a, d) ==>
              d.info.balance == s.balance && d.info.nonce == s.nonce && d.info.codeHash == s.codeHash
  {
    AccountExactly(Get(input.state, AccountKey(H, a)).value.value, s);
  }

  /** A slot has the value whose canonical bytes are found, and is zero where there is nothing. */
  lemma {:induction false} SlotExactly(H: Hasher, trie: Node, slot: U256, v: U256)
    requires Shaped(trie)
    ensures LoadSlot(H, trie, slot) == Ok(v) <==>
            var e := Get(trie, SlotKey(H, slot));
            e.Ok? && if e.value.None? then v == 0 else EncodeUint(v) <= e.value.value
  {
    var e := Get(trie, SlotKey(H, slot));
    if e.Ok? && e.value.Some? { UintExactly(e.value.value, v); }
  }

  method HashContracts(H: Hasher, contracts: seq<Bytes>) returns (m: map<Hash, Bytes>)
    ensures forall h :: h in m ==> H(m[h]) == h
    ensures forall h :: h in m <==> exists c :: c in contracts && H(c) == h
  {
    m := map[];
    for i := 0 to |contracts|
      invariant forall h :: h in m ==> H(m[h]) == h
      invariant forall h :: h in m <==> exists c :: c in contracts[..i] && H(c) == h
    {
      assert contracts[..i + 1] == contracts[..i] + [contracts[i]];
      assert contracts[i] in contracts[..i + 1];
      m := m[H(contracts[i]) := contracts[i]];
    }
    assert contracts[..|contracts|] == contracts;
  }

  method LoadOne(H: Hasher, input: GuestInput, contracts: map<Hash, Bytes>, a: Address)
    returns (r: Result<DbAccount, LoadError>)
    requires Shaped(input.state) && a in input.storage && Shaped(input.storage[a].trie)
    requires forall h :: h in contracts ==> H(contracts[h]) == h
    requires forall h :: h in contracts <==> exists c :: c in input.contracts && H(c) == h
    ensures r.Ok? <==> Loadable(H, input, a)
    ensures r.Ok? ==> Loaded(H, input, a, r.value)
  {
    var s := LoadAccount(H, input.state, a);
    if s.Err? { return Err(s.error); }
    var account := s.value;
    if HashOf(H, input.storage[a].trie) != account.storageRoot { return Err(BadStorageRoot); }
    var code: Bytes := [];
    if account.codeHash != KECCAK_EMPTY {
      if account.codeHash !in contracts { return Err(MissingContract); }
      code := contracts[account.codeHash];
    }
    var storage := LoadStorage(H, input.storage[a]);
    if storage.Err? { return Err(storage.error); }
    r := Ok(DbAccount(AccountInfo(account.balance, account.nonce, account.codeHash, code), Unaffected, storage.value));
  }

  // ----- block hashes

  /** The ancestor at `i` is the parent of the header before it, and no older than the window allows. */
  predicate LinkedAt(headerHash: Header -> Hash, parent: Header, ancestors: seq<Header>, i: nat)
    requires i < |ancestors|
  {
    && (if i == 0 then parent else ancestors[i - 1]).parentHash == headerHash(ancestors[i])
    && ancestors[i].number <= parent.number
    && parent.number - ancestors[i].number < 256
  }

  predicate Chained(headerHash: Header -> Hash, parent: Header, ancestors: seq<Header>) {
    forall i :: 0 <= i < |ancestors| ==> LinkedAt(headerHash, parent, ancestors, i)
  }

  /** A block hash that one of the headers stands for. */
  ghost predicate HashOfHeader(headerHash: Header -> Hash, parent: Header, ancestors: seq<Header>, n: U64, hash: Hash) {
    exists h :: (h == parent || h in ancestors) && h.number == n && hash == headerHash(h)
  }

  method LoadBlockHashes(headerHash: Header -> Hash, parent: Header, ancestors: seq<Header>)
    returns (r: Result<map<U64, Hash>, LoadError>)
    ensures r.Ok? <==> Chained(headerHash, parent, ancestors)
    ensures r.Ok? ==> forall h :: h == parent || h in ancestors ==> h.number in r.value
    ensures r.Ok? ==> forall n :: n in r.value ==> HashOfHeader(headerHash, parent, ancestors, n, r.value[n])
  {
    var hashes: map<U64, Hash> := map[parent.number := headerHash(parent)];
    var prev := parent;
    for i := 0 to |ancestors|
      invariant prev == if i == 0 then parent else ancestors[i - 1]
      invariant forall j :: 0 <= j < i ==> LinkedAt(headerHash, parent, ancestors, j)
      invariant parent.number in hashes && forall j :: 0 <= j < i ==> ancestors[j].number in hashes
      invariant forall n :: n in hashes ==> HashOfHeader(headerHash, parent, ancestors, n, hashes[n])
    {
      var current := ancestors[i];
      if prev.parentHash != headerHash(current) {
        assert !LinkedAt(headerHash, parent, ancestors, i);
        return Err(NotTheParent);
      }
      if parent.number < current.number || parent.number - current.number >= MAX_BLOCK_HASH_AGE {
        assert !LinkedAt(headerHash, parent, ancestors, i);
        return Err(TooOld);
      }
      assert HashOfHeader(headerHash, parent, ancestors, current.number, headerHash(current));
      hashes := hashes[current.number := headerHash(current)];
      prev := current;
    }
    r := Ok(hashes);
  }

  // ----- everything

  ghost predicate ShapedInput(input: GuestInput) {
    Shaped(input.state) && forall a :: a in input.storage ==> Shaped(input.storage[a].trie)
  }

  ghost predicate Accepted(H: Hasher, headerHash: Header -> Hash, input: GuestInput)
    requires ShapedInput(input)
  {
    && HashOf(H, input.state) == input.parent.stateRoot
    && (forall a :: a in input.storage ==> Loadable(H, input, a))
    && Chained(headerHash, input.parent, input.ancestors)
  }

  ghost predicate LoadedAll(H: Hasher, input: GuestInput, accounts: map<Address, DbAccount>)
    requires ShapedInput(input)
  {
    && accounts.Keys == input.storage.Keys
    && forall a :: a in accounts ==> Loaded(H, input, a, accounts[a])
  }

  /** Input is accepted exactly when all tries match their roots and everything asked for can be read. */
  method CreateMemDb(H: Hasher, headerHash: Header -> Hash, input: GuestInput)
    returns (r: Result<(map<Address, DbAccount>, map<U64, Hash>), LoadError>)
    requires ShapedInput(input)
    ensures r.Ok? <==> Accepted(H, headerHash, input)
    ensures r.Ok? ==> LoadedAll(H, input, r.value.0)
    ensures r.Ok? ==> forall h :: h == input.parent || h in input.ancestors ==> h.number in r.value.1
    ensures r.Ok? ==> forall n :: n in r.value.1 ==>
              HashOfHeader(headerHash, input.parent, input.ancestors, n, r.value.1[n])
  {
    if HashOf(H, input.state) != input.parent.stateRoot { return Err(BadStateRoot); }
    var contracts := HashContracts(H, input.contracts);
    var accounts: map<Address, DbAccount> := map[];
    var todo := input.storage.Keys;
    while todo != {}
      invariant todo <= input.storage.Keys && accounts.Keys == input.storage.Keys - todo
      invariant forall a :: a in accounts ==> Loaded(H, input, a, accounts[a]) && Loadable(H, input, a)
      decreases todo
    {
      var a :| a in todo;
      var d := LoadOne(H, input, contracts, a);
      if d.Err? { return Err(d.error); }
      accounts := accounts[a := d.value];
      todo := todo - {a};
    }
    var hashes := LoadBlockHashes(headerHash, input.parent, input.ancestors);
    if hashes.Err? { return Err(hashes.error); }
    r := Ok((accounts, hashes.value));
  }
}
