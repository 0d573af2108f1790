/** The in-memory database: loaded accounts, and the small state machine that a commit drives. */
module MemDb {
  import opened Prelude
  import opened State

  datatype AccountInfo = AccountInfo(balance: U256, nonce: U64, codeHash: Hash, code: Bytes)

  const EMPTY_INFO: AccountInfo := AccountInfo(0, 0, KECCAK_EMPTY, [])
  const ZERO_HASH: Hash := FixedBytes(0, 32)

  /** An account without balance, nonce and code. */
  predicate IsBlank(balance: U256, nonce: U64, codeHash: Hash) {
    balance == 0 && nonce == 0 && (codeHash == KECCAK_EMPTY || codeHash == ZERO_HASH)
  }

  predicate IsEmpty(info: AccountInfo) {
    IsBlank(info.balance, info.nonce, info.codeHash)
  }

  /** Equality of infos is by balance, nonce and code hash; the code itself is not compared. */
  predicate SameInfo(x: AccountInfo, y: AccountInfo) {
    x.balance == y.balance && x.nonce == y.nonce && x.codeHash == y.codeHash
  }

  datatype AccountState = Deleted | Touched | StorageCleared | Unaffected

  datatype DbAccount = DbAccount(info: AccountInfo, state: AccountState, storage: map<U256, U256>)

  /** A slot in a change set, with its value before and after execution. */
  datatype Slot = Slot(original: U256, present: U256)

  datatype Account = Account(info: AccountInfo, storage: map<U256, Slot>,
                             touched: bool, selfdestructed: bool, created: bool)

  /** `NotLoaded` is the uncached load; `Panic` the `unreachable!` of a deleted account's storage. */
  datatype DbError = NotLoaded | Panic

  /** The slots of a change set whose values really changed. */
  function Written(storage: map<U256, Slot>): map<U256, U256> {
    map k | k in storage && storage[k].original != storage[k].present :: storage[k].present
  }

  const DELETED_ACCOUNT: DbAccount := DbAccount(EMPTY_INFO, Deleted, map[])

  /** What a commit makes of one account. */
  function Committed(before: Option<DbAccount>, change: Account): Option<DbAccount> {
    if !change.touched then before
    else if change.selfdestructed || IsEmpty(change.info) then
      if before.None? then None else Some(DELETED_ACCOUNT)
    else if change.created then
      Some(DbAccount(change.info, StorageCleared, Written(change.storage)))
    else
      var storage := if before.None? then map[] else before.value.storage;
      var cleared := before.Some? && before.value.state == StorageCleared;
      Some(DbAccount(change.info, if cleared then StorageCleared else Touched, storage + Written(change.storage)))
  }

  // ----- a commit, slot by slot

  /** Neither balance nor nonce nor code: what EIP-161 calls empty, or a code hash that was never set. */
  predicate HasNothing(info: AccountInfo) {
    info.balance == 0 && info.nonce == 0 && (info.codeHash == KECCAK_EMPTY || forall i :: 0 <= i < 32 ==> info.codeHash[i] == 0)
  }

  lemma {:induction false} EmptyExactly(info: AccountInfo)
    ensures IsEmpty(info) <==> HasNothing(info)
  {
    FixedBytesOfZero(32);
    if forall i :: 0 <= i < 32 ==> info.codeHash[i] == 0 { assert info.codeHash == ZERO_HASH; }
  }

  predicate Removes(change: Account) {
    change.selfdestructed || HasNothing(change.info)
  }

  /** Every slot that changed has its new value; the others are as before, or gone if the account is new. */
  ghost predicate SlotsAfter(before: map<U256, U256>, slots: map<U256, Slot>, after: map<U256, U256>) {
    forall k :: Find(after, k) ==
      if k in slots && slots[k].original != slots[k].present then Some(slots[k].present) else Find(before, k)
  }

  /** What a commit does to one account, in terms of what was changed. */
  ghost predicate CommittedAs(before: Option<DbAccount>, change: Account, after: Option<DbAccount>) {
    if !change.touched then after == before
    else if Removes(change) then
      if before.None? then after.None? else after == Some(DbAccount(AccountInfo(0, 0, KECCAK_EMPTY, []), Deleted, map[]))
    else
      && after.Some?
      && after.value.info == change.info
      && after.value.state == (if change.created || (before.Some? && before.value.state == StorageCleared)
                               then StorageCleared else Touched)
      && SlotsAfter(if change.created || before.None? then map[] else before.value.storage, change.storage, after.value.storage)
  }

  lemma {:induction false} SlotsExactly(before: map<U256, U256>, slots: map<U256, Slot>, after: map<U256, U256>)
    ensures after == before + Written(slots) <==> SlotsAfter(before, slots, after)
  {
    var all := before + Written(slots);
    forall k ensures Find(all, k) ==
      if k in slots && slots[k].original != slots[k].present then Some(slots[k].present) else Find(before, k) { }
    if SlotsAfter(before, slots, after) {
      forall k ensures k in after <==> k in all ensures k in all ==> after[k] == all[k] {
        assert Find(after, k) == Find(all, k);
      }
    }
  }

  /** The state machine does this and nothing else. */
  lemma {:induction false} CommittedExactly(before: Option<DbAccount>, change: Account, after: Option<DbAccount>)
    ensures after == Committed(before, change) <==> CommittedAs(before, change, after)
  {
    EmptyExactly(change.info);
    assert map[] + Written(change.storage) == Written(change.storage);
    if after.Some? {
      SlotsExactly(if change.created || before.None? then map[] else before.value.storage, change.storage, after.value.storage);
    }
  }

  function Find<K, V>(m: map<K, V>, k: K): Option<V> {
    if k in m then Some(m[k]) else None
  }

  /** Every account ends as the state machine says, whatever the order of the commit. */
  ghost predicate CommittedAll(before: map<Address, DbAccount>, changes: map<Address, Account>, after: map<Address, DbAccount>) {
    forall a :: Find(after, a) ==
      if a in changes then Committed(Find(before, a), changes[a]) else Find(before, a)
  }

  class Database {
    var accounts: map<Address, DbAccount>
    var blockHashes: map<U64, Hash>

    constructor ()
      ensures accounts == map[] && blockHashes == map[]
    {
      accounts, blockHashes := map[], map[];
    }

    function Basic(a: Address): Result<Option<AccountInfo>, DbError>
      reads this
    {
      if a !in accounts then Err(NotLoaded)
      else if accounts[a].state == Deleted then Ok(None)
      else Ok(Some(accounts[a].info))
    }

    function Storage(a: Address, slot: U256): Result<U256, DbError>
      reads this
    {
      if a !in accounts then Err(NotLoaded)
      else if slot in accounts[a].storage then Ok(accounts[a].storage[slot])
      else match accounts[a].state
        case Deleted => Err(Panic)
        case StorageCleared => Ok(0)
        case _ => Err(NotLoaded)
    }

    function BlockHash(n: U64): Result<Hash, DbError>
      reads this
    {
      if n in blockHashes then Ok(blockHashes[n]) else Err(NotLoaded)
    }

    /** Keeps what is there; false is the panic over a different account info. */
    method InsertAccountInfo(a: Address, info: AccountInfo) returns (ok: bool)
      modifies this`accounts
      ensures ok <==> a in old(accounts) ==>
                var i := old(accounts)[a].info; i.balance == info.balance && i.nonce == info.nonce && i.codeHash == info.codeHash
      ensures accounts == if a in old(accounts) then old(accounts)
                          else old(accounts)[a := DbAccount(info, Unaffected, map[])]
    {
      if a in accounts {
        ok := SameInfo(accounts[a].info, info);
      } else {
        accounts := accounts[a := DbAccount(info, Unaffected, map[])];
        ok := true;
      }
    }

    /** False is the panic over a missing account. */
    method InsertAccountStorage(a: Address, slot: U256, value: U256) returns (ok: bool)
      modifies this`accounts
      ensures ok <==> a in old(accounts)
      ensures !ok ==> accounts == old(accounts)
      ensures ok ==> var d := old(accounts)[a]; accounts == old(accounts)[a := d.(storage := d.storage[slot := value])]
    {
      ok := a in accounts;
      if ok {
        var d := accounts[a];
        accounts := accounts[a := d.(storage := d.storage[slot := value])];
      }
    }

    method InsertBlockHash(n: U64, h: Hash) returns (ok: bool)
      modifies this`blockHashes
      ensures ok <==> n !in old(blockHashes) || old(blockHashes)[n] == h
      ensures blockHashes == if n in old(blockHashes) then old(blockHashes) else old(blockHashes)[n := h]
    {
      if n in blockHashes {
        ok := blockHashes[n] == h;
      } else {
        blockHashes := blockHashes[n := h];
        ok := true;
      }
    }

    /** What the next reads of a touched account find. */
    ghost predicate ReadBack(a: Address, before: Option<DbAccount>, change: Account)
      reads this
    {
      if Removes(change) then
        && Basic(a) == (if before.None? then Err(NotLoaded) else Ok(None))
        && forall k :: Storage(a, k) == Err(if before.None? then NotLoaded else Panic)
      else
        && Basic(a) == Ok(Some(change.info))
        && (forall k :: k in change.storage && change.storage[k].original != change.storage[k].present ==>
              Storage(a, k) == Ok(change.storage[k].present))
        && (forall k :: change.created && (k !in change.storage || change.storage[k].original == change.storage[k].present) ==>
              Storage(a, k) == Ok(0))
    }

    lemma {:induction false} ReadsCommitted(a: Address, before: Option<DbAccount>, change: Account)
      requires change.touched && CommittedAs(before, change, Find(accounts, a))
      ensures ReadBack(a, before, change)
    {
      if !Removes(change) {
        var after := accounts[a].storage;
        forall k | k in change.storage && change.storage[k].original != change.storage[k].present
          ensures Storage(a, k) == Ok(change.storage[k].present)
        {
          assert Find(after, k) == Some(change.storage[k].present);
        }
        forall k | change.created && (k !in change.storage || change.storage[k].original == change.storage[k].present)
          ensures Storage(a, k) == Ok(0)
        {
          assert Find(after, k) == None;
        }
      }
    }

    method CommitAccount(a: Address, change: Account)
      modifies this`accounts
      ensures forall b :: b != a ==> Find(accounts, b) == Find(old(accounts), b)
      ensures Find(accounts, a) == Committed(Find(old(accounts), a), change)
      ensures CommittedAs(Find(old(accounts), a), change, Find(accounts, a))
    {
      CommittedExactly(Find(accounts, a), change, Committed(Find(accounts, a), change));
      if !change.touched { return; }
      if change.selfdestructed {
        if a in accounts { accounts := accounts[a := DELETED_ACCOUNT]; }
        return;
      }
      var account;
      if a in accounts {
        if IsEmpty(change.info) {
          accounts := accounts[a := DELETED_ACCOUNT];
          return;
        }
        account := accounts[a].(info := change.info);
      } else {
        if IsEmpty(change.info) { return; }
        account := DbAccount(change.info, Unaffected, map[]);
      }
      if change.created {
        account := account.(storage := map[], state := StorageCleared);
      } else if account.state != StorageCleared {
        account := account.(state := Touched);
      }
      assert map[] + Written(change.storage) == Written(change.storage);
      account := account.(storage := account.storage + Written(change.storage));
      accounts := accounts[a := account];
    }

    method Commit(changes: map<Address, Account>)
      modifies this`accounts
      ensures CommittedAll(old(accounts), changes, accounts)
      ensures forall a :: a in changes ==> CommittedAs(Find(old(accounts), a), changes[a], Find(accounts, a))
      ensures forall a :: a !in changes ==> Find(accounts, a) == Find(old(accounts), a)
      ensures forall a :: a in changes && changes[a].touched ==> ReadBack(a, old(Find(accounts, a)), changes[a])
    {
      var todo := changes.Keys;
      while todo != {}
        invariant todo <= changes.Keys
        invariant forall a :: Find(accounts, a) ==
                    if a in changes && a !in todo then Committed(Find(old(accounts), a), changes[a])
                    else Find(old(accounts), a)
        decreases todo
      {
        var a :| a in todo;
        CommitAccount(a, changes[a]);
        todo := todo - {a};
      }
      forall a | a in changes
        ensures CommittedAs(Find(old(accounts), a), changes[a], Find(accounts, a))
        ensures changes[a].touched ==> ReadBack(a, old(Find(accounts, a)), changes[a])
      {
        CommittedExactly(Find(old(accounts), a), changes[a], Find(accounts, a));
        if changes[a].touched { ReadsCommitted(a, Find(old(accounts), a), changes[a]); }
      }
    }
  }
}
