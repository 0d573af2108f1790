/**
 Optimistic preflight: execution is repeated over guessed reads until a run needs no guess. The
 executor is an arbitrary program of reads that ends in one commit or gives up.
 */
module Preflight {
  import opened Prelude
  import opened State
  import opened MemDb

  // ----- programs

  datatype Query = ReadAccount(a: Address) | ReadSlot(a: Address, k: U256) | ReadHash(n: U256)

  datatype Answer = AccountIs(info: Option<AccountInfo>) | SlotIs(value: U256) | HashIs(hash: Hash)

  datatype Action = Read(query: Query) | Done(changes: map<Address, Account>) | Abort

  /** What is done next depends on the mode and on the answers so far; `limit` bounds the reads. */
  datatype Program = Program(next: (bool, seq<Answer>) -> Action, limit: nat)

  ghost predicate Bounded(p: Program) {
    forall mode, h :: |h| >= p.limit ==> !p.next(mode, h).Read?
  }

  /** The chain state that the provider serves. */
  datatype World = World(accounts: Address -> AccountInfo, slots: (Address, U256) -> U256, hashes: U64 -> Hash)

  const MAX_U64: U64 := 0xFFFF_FFFF_FFFF_FFFF

  /** A block number that does not fit in 64 bits is an error of the database. */
  predicate InRange(q: Query) {
    q.ReadHash? ==> q.n <= MAX_U64
  }

  function Truth(w: World, q: Query): Answer
    requires InRange(q)
  {
    match q
    case ReadAccount(a) => AccountIs(Some(w.accounts(a)))
    case ReadSlot(a, k) => SlotIs(w.slots(a, k))
    case ReadHash(n) => HashIs(w.hashes(n))
  }

  /** The program reads next, and the database can answer. */
  predicate Asks(p: Program, mode: bool, h: seq<Answer>) {
    p.next(mode, h).Read? && InRange(p.next(mode, h).query)
  }

  /** The answers of a direct run, every read being answered with the truth. */
  ghost function DirectAnswers(p: Program, w: World, mode: bool, h: seq<Answer>): (d: seq<Answer>)
    requires Bounded(p)
    ensures h <= d && !Asks(p, mode, d)
    decreases p.limit - |h|
  {
    if !Asks(p, mode, h) then h
    else DirectAnswers(p, w, mode, h + [Truth(w, p.next(mode, h).query)])
  }

  /** Every answer so far was asked for, and is the truth. */
  ghost predicate OnDirect(p: Program, w: World, mode: bool, h: seq<Answer>) {
    forall i :: 0 <= i < |h| ==> Asks(p, mode, h[..i]) && h[i] == Truth(w, p.next(mode, h[..i]).query)
  }

  lemma {:induction false} DirectFrom(p: Program, w: World, mode: bool, h: seq<Answer>)
    requires Bounded(p) && OnDirect(p, w, mode, h)
    ensures DirectAnswers(p, w, mode, h) == DirectAnswers(p, w, mode, [])
    decreases |h|
  {
    if h != [] {
      var g := h[..|h| - 1];
      assert h == g + [h[|g|]];
      forall i | 0 <= i < |g| ensures Asks(p, mode, g[..i]) && g[i] == Truth(w, p.next(mode, g[..i]).query) {
        assert h[..i] == g[..i];
      }
      DirectFrom(p, w, mode, g);
    }
  }

  lemma {:induction false} DirectGrows(p: Program, w: World, mode: bool, h: seq<Answer>)
    requires OnDirect(p, w, mode, h) && Asks(p, mode, h)
    ensures OnDirect(p, w, mode, h + [Truth(w, p.next(mode, h).query)])
  {
    var h' := h + [Truth(w, p.next(mode, h).query)];
    forall i | 0 <= i < |h'| ensures Asks(p, mode, h'[..i]) && h'[i] == Truth(w, p.next(mode, h'[..i]).query) {
      assert i < |h| ==> h'[..i] == h[..i];
      assert i == |h| ==> h'[..i] == h;
    }
  }

  // ----- the two modes of execution

  /** The reads of a direct run. */
  ghost function DirectQueries(p: Program, w: World, mode: bool, h: seq<Answer>): seq<Query>
    requires Bounded(p)
    decreases p.limit - |h|
  {
    if !Asks(p, mode, h) then []
    else
      var q := p.next(mode, h).query;
      [q] + DirectQueries(p, w, mode, h + [Truth(w, q)])
  }

  /** Validation may turn a finished run down, and changes nothing else. */
  predicate SameOrTurnedDown(optimistic: Action, validated: Action) {
    validated == optimistic || (optimistic.Done? && validated.Abort?)
  }

  /** Along the direct run, the mode makes no difference but for validation. */
  ghost predicate ModesAgree(p: Program, w: World) {
    forall h :: OnDirect(p, w, true, h) ==> SameOrTurnedDown(p.next(true, h), p.next(false, h))
  }

  /** The validated direct run makes the same reads, and ends with the same changes unless turned down. */
  ghost predicate SameRun(p: Program, w: World)
    requires Bounded(p)
  {
    var d := DirectAnswers(p, w, true, []);
    && DirectQueries(p, w, false, []) == DirectQueries(p, w, true, [])
    && DirectAnswers(p, w, false, []) == d
    && SameOrTurnedDown(p.next(true, d), p.next(false, d))
  }

  /** Whatever the answers, true or not, the mode makes no difference but for validation. */
  ghost predicate ValidatesOnly(p: Program) {
    forall h :: SameOrTurnedDown(p.next(true, h), p.next(false, h))
  }

  /** What can be told from the executor alone, without the chain state: then the modes agree in every world. */
  lemma {:induction false} ValidatesOnlyAgrees(p: Program, w: World)
    requires Bounded(p) && ValidatesOnly(p)
    ensures ModesAgree(p, w) && SameRun(p, w)
  {
    SameRunIff(p, w);
  }

  lemma {:induction false} SameRunFrom(p: Program, w: World, h: seq<Answer>)
    requires Bounded(p) && ModesAgree(p, w) && OnDirect(p, w, true, h)
    ensures DirectQueries(p, w, false, h) == DirectQueries(p, w, true, h)
    ensures DirectAnswers(p, w, false, h) == DirectAnswers(p, w, true, h)
    decreases p.limit - |h|
  {
    if Asks(p, true, h) {
      DirectGrows(p, w, true, h);
      SameRunFrom(p, w, h + [Truth(w, p.next(true, h).query)]);
    }
  }

  lemma {:induction false} DirectIsOnDirect(p: Program, w: World, mode: bool, h: seq<Answer>)
    requires Bounded(p) && OnDirect(p, w, mode, h)
    ensures OnDirect(p, w, mode, DirectAnswers(p, w, mode, h))
    decreases p.limit - |h|
  {
    if Asks(p, mode, h) {
      DirectGrows(p, w, mode, h);
      DirectIsOnDirect(p, w, mode, h + [Truth(w, p.next(mode, h).query)]);
    }
  }

  /** Wherever the optimistic direct run gets, the validated one gets too, with the same reads ahead. */
  lemma {:induction false} SameReadsAhead(p: Program, w: World, h: seq<Answer>)
    requires Bounded(p) && SameRun(p, w) && OnDirect(p, w, true, h)
    ensures OnDirect(p, w, false, h) && DirectQueries(p, w, false, h) == DirectQueries(p, w, true, h)
    decreases |h|
  {
    if h != [] {
      var g, x := h[..|h| - 1], h[|h| - 1];
      assert h == g + [x];
      forall i | 0 <= i < |g| ensures Asks(p, true, g[..i]) && g[i] == Truth(w, p.next(true, g[..i]).query) {
        assert h[..i] == g[..i];
      }
      SameReadsAhead(p, w, g);
      assert Asks(p, true, g) && x == Truth(w, p.next(true, g).query) by { assert h[..|g|] == g; }
      assert DirectQueries(p, w, false, g)[0] == p.next(true, g).query;
      assert DirectQueries(p, w, false, g)[1..] == DirectQueries(p, w, true, g)[1..];
      DirectGrows(p, w, false, g);
    }
  }

  /** The modes make the same run exactly when they agree along it. */
  lemma {:induction false} SameRunIff(p: Program, w: World)
    requires Bounded(p)
    ensures SameRun(p, w) <==> ModesAgree(p, w)
  {
    if ModesAgree(p, w) {
      SameRunFrom(p, w, []);
      DirectIsOnDirect(p, w, true, []);
    }
    if SameRun(p, w) {
      forall h | OnDirect(p, w, true, h) ensures SameOrTurnedDown(p.next(true, h), p.next(false, h)) {
        SameReadsAhead(p, w, h);
        DirectFrom(p, w, true, h);
        if Asks(p, true, h) { assert DirectQueries(p, w, false, h)[0] == p.next(true, h).query; }
      }
    }
  }

  /** Accounts are read before their slots. */
  ghost predicate AccountFirst(p: Program) {
    forall mode, h :: p.next(mode, h).Read? && p.next(mode, h).query.ReadSlot? ==>
      ReadBefore(p, mode, h, ReadAccount(p.next(mode, h).query.a))
  }

  ghost predicate ReadBefore(p: Program, mode: bool, h: seq<Answer>, q: Query) {
    exists i :: 0 <= i < |h| && p.next(mode, h[..i]) == Read(q)
  }

  // ----- what the databases know

  /** Nothing but the provider's own values, nothing changed yet. */
  ghost predicate TrueAccounts(w: World, accounts: map<Address, DbAccount>) {
    forall a :: a in accounts ==>
      && accounts[a].state == Unaffected && accounts[a].info == w.accounts(a)
      && forall k :: k in accounts[a].storage ==> accounts[a].storage[k] == w.slots(a, k)
  }

  ghost predicate TrueHashes(w: World, hashes: map<U64, Hash>) {
    forall n :: n in hashes ==> hashes[n] == w.hashes(n)
  }

  predicate HasSlot(accounts: map<Address, DbAccount>, a: Address, k: U256) {
    a in accounts && k in accounts[a].storage
  }

  predicate Has(accounts: map<Address, DbAccount>, hashes: map<U64, Hash>, q: Query) {
    match q
    case ReadAccount(a) => a in accounts
    case ReadSlot(a, k) => HasSlot(accounts, a, k)
    case ReadHash(n) => n <= MAX_U64 && n in hashes
  }

  /** Nothing known is forgotten. */
  ghost predicate Keeps(before: map<Address, DbAccount>, after: map<Address, DbAccount>) {
    && before.Keys <= after.Keys
    && forall a, k :: HasSlot(before, a, k) ==> HasSlot(after, a, k)
  }

  lemma {:induction false} AddAccount(w: World, accounts: map<Address, DbAccount>, a: Address)
    requires TrueAccounts(w, accounts) && a !in accounts
    ensures var after := accounts[a := DbAccount(w.accounts(a), Unaffected, map[])];
            TrueAccounts(w, after) && Keeps(accounts, after)
  {
  }

  lemma {:induction false} AddSlot(w: World, accounts: map<Address, DbAccount>, a: Address, k: U256)
    requires TrueAccounts(w, accounts) && a in accounts
    ensures var d := accounts[a];
            var after := accounts[a := d.(storage := d.storage[k := w.slots(a, k)])];
            && TrueAccounts(w, after) && Keeps(accounts, after) && after.Keys == accounts.Keys
            && forall b, j :: HasSlot(after, b, j) <==> HasSlot(accounts, b, j) || (b == a && j == k)
  {
  }

  /** A hash set as a list, in any order. */
  method Listed<T(==)>(s: set<T>) returns (l: seq<T>)
    ensures forall x :: x in l <==> x in s
  {
    l := [];
    var todo := s;
    while todo != {}
      invariant todo <= s && forall x :: x in l <==> x in s - todo
      decreases todo
    {
      var x :| x in todo;
      l := l + [x];
      todo := todo - {x};
    }
  }

  // ----- the speculating database

  /** What an unknown account is taken to be. */
  const GUESSED: AccountInfo := AccountInfo(0, MAX_U64, KECCAK_EMPTY, [])

  datatype Failure = Execution | Rpc | Db(error: DbError)

  class ProviderDb {
    const world: World
    const initialDb: Database
    const stagingDb: Database
    var currentDb: Database
    var optimistic: bool
    var pendingAccounts: set<Address>
    var pendingSlots: set<(Address, U256)>
    var pendingHashes: set<U64>
    /** Whether the provider's next answers to non-empty requests arrive; past the end they all do. */
    var script: seq<bool>

    ghost predicate Valid()
      reads this, initialDb, stagingDb, currentDb
    {
      && initialDb != stagingDb && currentDb != initialDb && currentDb != stagingDb
      && TrueAccounts(world, initialDb.accounts) && TrueHashes(world, initialDb.blockHashes)
      && TrueAccounts(world, stagingDb.accounts) && TrueHashes(world, stagingDb.blockHashes)
    }

    /** A cache of true values may be given, and for the anchor transaction a history of block hashes. */
    constructor (w: World, accounts: map<Address, DbAccount>, cached: map<U64, Hash>, history: map<U64, Hash>,
                 outcomes: seq<bool>)
      requires TrueAccounts(w, accounts) && TrueHashes(w, cached) && TrueHashes(w, history)
      ensures Valid() && IsValidRun() && Covered() && currentDb.accounts == map[]
      ensures fresh(initialDb) && fresh(stagingDb) && fresh(currentDb) && world == w && script == outcomes
      ensures initialDb.accounts == stagingDb.accounts == accounts
      ensures initialDb.blockHashes == cached + history && stagingDb.blockHashes == cached
    {
      world, optimistic, script := w, false, outcomes;
      pendingAccounts, pendingSlots, pendingHashes := {}, {}, {};
      var initial := new Database();
      var staging := new Database();
      var current := new Database();
      initial.accounts, initial.blockHashes := accounts, cached + history;
      staging.accounts, staging.blockHashes := accounts, cached;
      initialDb, stagingDb, currentDb := initial, staging, current;
    }

    predicate IsValidRun()
      reads this
    {
      pendingAccounts == {} && pendingSlots == {} && pendingHashes == {}
    }

    ghost predicate Fresh()
      reads this, currentDb
    {
      currentDb.accounts == map[]
    }

    ghost predicate Covered()
      reads this, initialDb, stagingDb
    {
      initialDb.accounts.Keys <= stagingDb.accounts.Keys
    }

    /** The accounts of all pending slots are there, or will be, when the slots are stored. */
    ghost predicate SlotsBacked()
      reads this, stagingDb
    {
      forall s :: s in pendingSlots ==> s.0 in stagingDb.accounts || s.0 in pendingAccounts
    }

    ghost predicate Recorded(q: Query)
      reads this, initialDb
    {
      Has(initialDb.accounts, initialDb.blockHashes, q)
    }

    ghost predicate Known(q: Query)
      reads this, initialDb, stagingDb
    {
      Recorded(q) || Has(stagingDb.accounts, stagingDb.blockHashes, q)
    }

    ghost predicate Pending(q: Query)
      reads this
    {
      match q
      case ReadAccount(a) => a in pendingAccounts
      case ReadSlot(a, k) => (a, k) in pendingSlots
      case ReadHash(n) => n <= MAX_U64 && n in pendingHashes
    }

    /** What reading never does: forget a value, drop pending work, or add any outside optimistic mode. */
    twostate predicate Grew()
      reads this, initialDb, stagingDb, currentDb
    {
      && Valid()
      && |script| <= |old(script)|
      && Keeps(old(initialDb.accounts), initialDb.accounts)
      && old(initialDb.blockHashes.Keys) <= initialDb.blockHashes.Keys
      && old(pendingAccounts) <= pendingAccounts && old(pendingSlots) <= pendingSlots && old(pendingHashes) <= pendingHashes
      && (!optimistic ==>
            && pendingAccounts == old(pendingAccounts) && pendingSlots == old(pendingSlots)
            && pendingHashes == old(pendingHashes))
      && (optimistic && old(Covered()) ==> Covered())
    }

    /** One request to the provider; a request for nothing is always answered. */
    method Answered(nothing: bool) returns (ok: bool)
      modifies this`script
      ensures |script| <= |old(script)|
      ensures !ok ==> !nothing && |script| < |old(script)|
    {
      ok := nothing || script == [] || script[0];
      if !nothing && script != [] { script := script[1..]; }
    }

    method Basic(a: Address) returns (r: Result<Option<AccountInfo>, Failure>)
      requires Valid()
      modifies this`pendingAccounts, this`script, initialDb`accounts
      ensures Grew()
      ensures r.Err? ==> r == Err(Rpc) && !optimistic && old(script) != [] && pendingAccounts == old(pendingAccounts)
      ensures a in currentDb.accounts ==> r == Ok(currentDb.Basic(a).value) && initialDb.accounts == old(initialDb.accounts)
      ensures a !in currentDb.accounts && r.Ok? ==>
                r == Ok(Some(if optimistic && !old(Known(ReadAccount(a))) then AccountInfo(0, 0xFFFF_FFFF_FFFF_FFFF, KECCAK_EMPTY, [])
                             else world.accounts(a)))
      ensures optimistic && !old(IsValidRun()) ==> initialDb.accounts == old(initialDb.accounts)
      ensures Fresh() && IsValidRun() && r.Ok? ==> r == Ok(Some(world.accounts(a))) && a in initialDb.accounts
      ensures pendingAccounts != old(pendingAccounts) ==> a in pendingAccounts && !old(Known(ReadAccount(a)))
      ensures Fresh() && optimistic ==> a in initialDb.accounts || a in stagingDb.accounts || a in pendingAccounts
    {
      var current := currentDb.Basic(a);
      if current.Ok? { return Ok(current.value); }
      var initial := initialDb.Basic(a);
      if initial.Ok? { return Ok(initial.value); }
      var staged := stagingDb.Basic(a);
      if staged.Ok? {
        if IsValidRun() {
          AddAccount(world, initialDb.accounts, a);
          var _ := initialDb.InsertAccountInfo(a, staged.value.value);
        }
        return Ok(staged.value);
      }
      if optimistic {
        pendingAccounts := pendingAccounts + {a};
        return Ok(Some(GUESSED));
      }
      var ok := Answered(false);
      if !ok { return Err(Rpc); }
      AddAccount(world, initialDb.accounts, a);
      var _ := initialDb.InsertAccountInfo(a, world.accounts(a));
      return Ok(Some(world.accounts(a)));
    }

    method GuessSlot(a: Address, k: U256) returns (r: Result<U256, Failure>)
      requires Valid() && optimistic
      modifies this`pendingAccounts, this`pendingSlots, this`script, initialDb`accounts
      ensures Grew()
      ensures r == Ok(0) && (a, k) in pendingSlots
      ensures Fresh() && old(Covered()) && old(SlotsBacked()) ==> SlotsBacked()
      ensures !old(IsValidRun()) ==> initialDb.accounts == old(initialDb.accounts)
    {
      var _ := Basic(a); // does not fail in optimistic mode
      pendingSlots := pendingSlots + {(a, k)};
      return Ok(0);
    }

    method FetchSlot(a: Address, k: U256) returns (r: Result<U256, Failure>)
      requires Valid() && !optimistic
      modifies this`script, initialDb`accounts
      ensures Grew()
      ensures r.Ok? ==> r == Ok(world.slots(a, k)) && HasSlot(initialDb.accounts, a, k)
      ensures r.Err? && old(script) == [] ==> a !in old(initialDb.accounts)
      ensures r.Err? ==> r == if a !in old(initialDb.accounts) then Err(Db(NotLoaded)) else Err(Rpc)
      ensures a !in old(initialDb.accounts) ==> r.Err?
    {
      if initialDb.Basic(a).Err? { return Err(Db(NotLoaded)); }
      var ok := Answered(false);
      if !ok { return Err(Rpc); }
      AddSlot(world, initialDb.accounts, a, k);
      var _ := initialDb.InsertAccountStorage(a, k, world.slots(a, k));
      return Ok(world.slots(a, k));
    }

    method Storage(a: Address, k: U256) returns (r: Result<U256, Failure>)
      requires Valid()
      modifies this`pendingAccounts, this`pendingSlots, this`script, initialDb`accounts
      ensures Grew()
      ensures r == Err(Db(Panic)) <==>
                || currentDb.Storage(a, k) == Err(Panic)
                || (currentDb.Storage(a, k) == Err(NotLoaded) && a !in old(initialDb.accounts)
                    && HasSlot(stagingDb.accounts, a, k) && old(IsValidRun()))
      ensures r == Err(Db(NotLoaded)) <==>
                currentDb.Storage(a, k) == Err(NotLoaded) && a !in old(initialDb.accounts)
                && !HasSlot(stagingDb.accounts, a, k) && !optimistic
      ensures r == Err(Rpc) ==> !optimistic && old(script) != []
      ensures currentDb.Storage(a, k).Ok? ==> r == Ok(currentDb.Storage(a, k).value)
      ensures currentDb.Storage(a, k) == Err(NotLoaded) && r.Ok? ==>
                r == Ok(if optimistic && !old(Known(ReadSlot(a, k))) then 0 else world.slots(a, k))
      ensures optimistic && !old(IsValidRun()) ==> initialDb.accounts == old(initialDb.accounts)
      ensures Fresh() && IsValidRun() && r.Ok? ==> r == Ok(world.slots(a, k)) && HasSlot(initialDb.accounts, a, k)
      ensures Fresh() && old(IsValidRun()) && !IsValidRun() ==>
                optimistic && r.Ok? && (a, k) in pendingSlots && !old(Known(ReadSlot(a, k)))
      ensures Fresh() && optimistic && old(Covered()) && old(SlotsBacked()) ==> SlotsBacked()
      ensures Fresh() && old(script) == [] && r.Err? ==>
                a !in old(initialDb.accounts) && (optimistic ==> old(IsValidRun()))
    {
      var current := currentDb.Storage(a, k);
      if current == Err(Panic) { return Err(Db(Panic)); }
      if current.Ok? { return Ok(current.value); }
      var initial := initialDb.Storage(a, k);
      if initial.Ok? { return Ok(initial.value); }
      var staged := stagingDb.Storage(a, k);
      if staged.Ok? {
        if IsValidRun() {
          if a in initialDb.accounts { AddSlot(world, initialDb.accounts, a, k); }
          var ok := initialDb.InsertAccountStorage(a, k, staged.value);
          if !ok { return Err(Db(Panic)); }
        }
        return Ok(staged.value);
      }
      if optimistic { r := GuessSlot(a, k); } else { r := FetchSlot(a, k); }
    }

    method BlockHash(n: U256) returns (r: Result<Hash, Failure>)
      requires Valid()
      modifies this`pendingHashes, this`script, initialDb`blockHashes
      ensures Grew()
      ensures n > MAX_U64 ==> r == Err(Execution)
      ensures n <= MAX_U64 && r.Ok? ==>
                r == Ok(if optimistic && !old(Known(ReadHash(n))) then ZERO_HASH else world.hashes(n))
      ensures optimistic && !old(IsValidRun()) ==> initialDb.blockHashes == old(initialDb.blockHashes)
      ensures Fresh() && IsValidRun() && r.Ok? ==>
                n <= MAX_U64 && r == Ok(world.hashes(n)) && n in initialDb.blockHashes
      ensures old(IsValidRun()) && !IsValidRun() ==>
                n <= MAX_U64 && optimistic && r.Ok? && n in pendingHashes && !old(Known(ReadHash(n)))
      ensures old(script) == [] && r.Err? ==> n > MAX_U64
    {
      if n > MAX_U64 { return Err(Execution); }
      var initial := initialDb.BlockHash(n);
      if initial.Ok? { return Ok(initial.value); }
      var staged := stagingDb.BlockHash(n);
      if staged.Ok? {
        if IsValidRun() { var _ := initialDb.InsertBlockHash(n, staged.value); }
        return Ok(staged.value);
      }
      if optimistic {
        pendingHashes := pendingHashes + {n};
        return Ok(ZERO_HASH);
      }
      var ok := Answered(false);
      if !ok { return Err(Rpc); }
      var _ := initialDb.InsertBlockHash(n, world.hashes(n));
      return Ok(world.hashes(n));
    }

    /** Answers one read, for whatever the executor asks. */
    method Serve(q: Query) returns (r: Result<Answer, Failure>)
      requires Valid()
      modifies this`pendingAccounts, this`pendingSlots, this`pendingHashes, this`script, initialDb
      ensures Grew()
      ensures !InRange(q) ==> r == Err(Execution)
      ensures Fresh() && IsValidRun() && r.Ok? ==> r == Ok(Truth(world, q)) && Recorded(q)
      ensures Fresh() && old(IsValidRun()) && !IsValidRun() ==> optimistic && r.Ok? && Pending(q) && !old(Known(q))
      ensures Fresh() && optimistic && old(Covered()) && old(SlotsBacked()) ==> SlotsBacked()
      ensures Fresh() && old(script) == [] && r.Err? && InRange(q) ==>
                q.ReadSlot? && q.a !in old(initialDb.accounts) && (optimistic ==> old(IsValidRun()))
    {
      match q
      case ReadAccount(a) =>
        var x := Basic(a);
        r := if x.Ok? then Ok(AccountIs(x.value)) else Err(x.error);
      case ReadSlot(a, k) =>
        var x := Storage(a, k);
        r := if x.Ok? then Ok(SlotIs(x.value)) else Err(x.error);
      case ReadHash(n) =>
        var x := BlockHash(n);
        r := if x.Ok? then Ok(HashIs(x.value)) else Err(x.error);
    }

    /** Every read of the run so far is on record as part of the initial state. */
    ghost predicate AllRecorded(p: Program, h: seq<Answer>)
      reads this, initialDb
    {
      forall i :: 0 <= i < |h| && p.next(optimistic, h[..i]).Read? ==> Recorded(p.next(optimistic, h[..i]).query)
    }

    ghost predicate AllKnown(p: Program, h: seq<Answer>, n: nat)
      reads this, initialDb, stagingDb
    {
      forall i :: 0 <= i < |h| && i < n && p.next(optimistic, h[..i]).Read? ==> Known(p.next(optimistic, h[..i]).query)
    }

    /** The direct run up to its first guessed read, which is now to be fetched. */
    ghost predicate FirstGuess(p: Program, g: seq<Answer>)
      reads this, initialDb, stagingDb
    {
      && optimistic && OnDirect(p, world, optimistic, g) && Asks(p, optimistic, g)
      && Pending(p.next(optimistic, g).query)
      && AllKnown(p, g, |g|)
    }

    lemma {:induction false} RecordGrows(p: Program, h: seq<Answer>, x: Answer)
      requires AllRecorded(p, h) && p.next(optimistic, h).Read? && Recorded(p.next(optimistic, h).query)
      ensures AllRecorded(p, h + [x])
    {
      forall i | 0 <= i < |h + [x]| && p.next(optimistic, (h + [x])[..i]).Read?
        ensures Recorded(p.next(optimistic, (h + [x])[..i]).query)
      {
        assert (h + [x])[..i] == h[..i];
        assert h[..|h|] == h;
      }
    }

    /** What is known of a run that began afresh, without pending work. */
    ghost predicate OnTrack(p: Program, h: seq<Answer>, g: seq<Answer>)
      reads this, initialDb, stagingDb, currentDb
    {
      && Fresh()
      && if IsValidRun() then OnDirect(p, world, optimistic, h) && AllRecorded(p, h) else FirstGuess(p, g)
    }

    lemma {:induction false} AccountOnRecord(p: Program, h: seq<Answer>)
      requires AllRecorded(p, h) && AccountFirst(p)
      requires p.next(optimistic, h).Read? && p.next(optimistic, h).query.ReadSlot?
      ensures p.next(optimistic, h).query.a in initialDb.accounts
    {
      assert ReadBefore(p, optimistic, h, ReadAccount(p.next(optimistic, h).query.a));
    }

    /** One read of a run. */
    method Step(p: Program, h: seq<Answer>, ghost g: seq<Answer>, ghost clean: bool)
      returns (x: Result<Answer, Failure>, ghost g': seq<Answer>)
      requires Valid() && p.next(optimistic, h).Read?
      requires clean ==> OnTrack(p, h, g)
      modifies this`pendingAccounts, this`pendingSlots, this`pendingHashes, this`script, initialDb
      ensures Grew()
      ensures clean && x.Ok? ==> OnTrack(p, h + [x.value], g')
      ensures clean && x.Err? ==> OnTrack(p, h, g')
      ensures if clean && old(IsValidRun()) && !IsValidRun() then g' == h && !old(Known(p.next(optimistic, h).query)) else g' == g
      ensures clean && optimistic && old(Covered()) && old(SlotsBacked()) ==> SlotsBacked()
      ensures clean && old(script) == [] && AccountFirst(p) && x.Err? ==> x == Err(Execution)
    {
      var q := p.next(optimistic, h).query;
      ghost var valid := IsValidRun();
      if clean && valid && AccountFirst(p) && q.ReadSlot? { AccountOnRecord(p, h); }
      x := Serve(q);
      g' := if clean && valid && !IsValidRun() then h else g;
      if clean {
        assert valid ==> AllRecorded(p, h);
        assert !valid ==> FirstGuess(p, g);
        if x.Ok? && IsValidRun() {
          DirectGrows(p, world, optimistic, h);
          RecordGrows(p, h, x.value);
        }
      }
    }

    /**
     One run of the program. From a fresh start, a run without a guess is the direct run and all its
     reads are on record; a run with a guess leaves the first guessed read of the direct run pending.
     */
    method Run(p: Program) returns (r: Result<map<Address, Account>, Failure>, ghost h: seq<Answer>, ghost g: seq<Answer>)
      requires Valid() && Bounded(p)
      modifies this`pendingAccounts, this`pendingSlots, this`pendingHashes, this`script, initialDb
      ensures Grew()
      ensures Fresh() && old(IsValidRun()) ==> OnTrack(p, h, g)
      ensures Fresh() && old(IsValidRun()) && !IsValidRun() ==> !old(Known(p.next(optimistic, g).query))
      ensures r.Ok? ==> p.next(optimistic, h) == Done(r.value)
      ensures p.next(optimistic, []).Done? ==>
                r.Ok? && initialDb.accounts == old(initialDb.accounts) && IsValidRun() == old(IsValidRun())
      ensures Fresh() && old(IsValidRun()) && optimistic && old(Covered()) && old(SlotsBacked()) ==> SlotsBacked()
      ensures Fresh() && old(IsValidRun()) && old(script) == [] && AccountFirst(p) && r.Err? ==> r == Err(Execution)
    {
      ghost var clean := Fresh() && IsValidRun();
      var answers: seq<Answer> := [];
      h, g := [], [];
      while p.next(optimistic, answers).Read?
        invariant Grew() && h == answers
        invariant p.next(optimistic, []).Done? ==>
                    answers == [] && initialDb.accounts == old(initialDb.accounts) && IsValidRun() == old(IsValidRun())
        invariant clean ==> OnTrack(p, answers, g)
        invariant clean && !IsValidRun() ==> !old(Known(p.next(optimistic, g).query))
        invariant clean && optimistic && old(Covered()) && old(SlotsBacked()) ==> SlotsBacked()
        decreases p.limit - |answers|
      {
        var x;
        x, g := Step(p, answers, g, clean);
        if x.Err? { return Err(x.error), answers, g; }
        answers := answers + [x.value];
        h := answers;
      }
      r := match p.next(optimistic, answers) case Done(changes) => Ok(changes) case _ => Err(Execution);
    }

    // ----- fetching what was guessed

    method StoreAccounts(list: seq<Address>)
      requires Valid()
      modifies stagingDb`accounts
      ensures Valid() && Keeps(old(stagingDb.accounts), stagingDb.accounts)
      ensures forall a :: a in stagingDb.accounts <==> a in old(stagingDb.accounts) || a in list
    {
      for i := 0 to |list|
        invariant Valid() && Keeps(old(stagingDb.accounts), stagingDb.accounts)
        invariant forall a :: a in stagingDb.accounts <==> a in old(stagingDb.accounts) || a in list[..i]
      {
        assert list[..i + 1] == list[..i] + [list[i]];
        if list[i] !in stagingDb.accounts { AddAccount(world, stagingDb.accounts, list[i]); }
        var _ := stagingDb.InsertAccountInfo(list[i], world.accounts(list[i]));
      }
      assert list[..|list|] == list;
    }

    method DrainAccounts() returns (ok: bool)
      requires Valid()
      modifies this`pendingAccounts, this`script, stagingDb`accounts
      ensures Valid() && |script| <= |old(script)| && Keeps(old(stagingDb.accounts), stagingDb.accounts)
      ensures ok ==> pendingAccounts == {} && stagingDb.accounts.Keys == old(stagingDb.accounts.Keys) + old(pendingAccounts)
      ensures !ok ==> pendingAccounts == old(pendingAccounts) != {} && |script| < |old(script)|
    {
      var list := Listed(pendingAccounts);
      ok := Answered(pendingAccounts == {});
      if ok {
        pendingAccounts := {};
        StoreAccounts(list);
      }
    }

    /** False is the panic over a slot whose account is missing. */
    method StoreSlots(list: seq<(Address, U256)>) returns (ok: bool)
      requires Valid()
      modifies stagingDb`accounts
      ensures Valid() && Keeps(old(stagingDb.accounts), stagingDb.accounts)
      ensures (forall s :: s in list ==> s.0 in old(stagingDb.accounts)) ==> ok
      ensures ok ==> forall s :: s in list ==> HasSlot(stagingDb.accounts, s.0, s.1)
    {
      for i := 0 to |list|
        invariant Valid() && Keeps(old(stagingDb.accounts), stagingDb.accounts)
        invariant stagingDb.accounts.Keys == old(stagingDb.accounts.Keys)
        invariant forall j :: 0 <= j < i ==> HasSlot(stagingDb.accounts, list[j].0, list[j].1)
      {
        var (a, k) := list[i];
        assert list[i] in list;
        if a in stagingDb.accounts { AddSlot(world, stagingDb.accounts, a, k); }
        ok := stagingDb.InsertAccountStorage(a, k, world.slots(a, k));
        if !ok { return; }
      }
      ok := true;
    }

    method DrainSlots() returns (r: Result<bool, Failure>)
      requires Valid()
      modifies this`pendingSlots, this`script, stagingDb`accounts
      ensures Valid() && |script| <= |old(script)| && Keeps(old(stagingDb.accounts), stagingDb.accounts)
      ensures old(pendingSlots) == {} ==> r == Ok(true)
      ensures (forall s :: s in old(pendingSlots) ==> s.0 in old(stagingDb.accounts)) ==> r.Ok?
      ensures r == Ok(true) ==> pendingSlots == {} && forall s :: s in old(pendingSlots) ==> HasSlot(stagingDb.accounts, s.0, s.1)
      ensures r == Ok(false) ==> pendingSlots == old(pendingSlots) != {} && |script| < |old(script)|
    {
      var list := Listed(pendingSlots);
      var ok := Answered(pendingSlots == {});
      if !ok { return Ok(false); }
      pendingSlots := {};
      ok := StoreSlots(list);
      r := if ok then Ok(true) else Err(Db(Panic));
    }

    method StoreHashes(list: seq<U64>)
      requires Valid()
      modifies stagingDb`blockHashes
      ensures Valid() && old(stagingDb.blockHashes.Keys) <= stagingDb.blockHashes.Keys
      ensures forall n :: n in list ==> n in stagingDb.blockHashes
    {
      for i := 0 to |list|
        invariant Valid() && old(stagingDb.blockHashes.Keys) <= stagingDb.blockHashes.Keys
        invariant forall j :: 0 <= j < i ==> list[j] in stagingDb.blockHashes
      {
        var _ := stagingDb.InsertBlockHash(list[i], world.hashes(list[i]));
      }
    }

    method DrainHashes() returns (ok: bool)
      requires Valid()
      modifies this`pendingHashes, this`script, stagingDb`blockHashes
      ensures Valid() && |script| <= |old(script)| && old(stagingDb.blockHashes.Keys) <= stagingDb.blockHashes.Keys
      ensures ok ==> pendingHashes == {} && old(pendingHashes) <= stagingDb.blockHashes.Keys
      ensures !ok ==> pendingHashes == old(pendingHashes) != {} && |script| < |old(script)|
    {
      var list := Listed(pendingHashes);
      ok := Answered(pendingHashes == {});
      if ok {
        pendingHashes := {};
        StoreHashes(list);
      }
    }

    /** Fetches all that is pending; true when everything has arrived. */
    method FetchAll() returns (r: Result<bool, Failure>)
      requires Valid()
      modifies this`pendingAccounts, this`pendingSlots, this`pendingHashes, this`script, stagingDb
      ensures Valid() && |script| <= |old(script)|
      ensures old(SlotsBacked()) ==> r.Ok?
      ensures r == Ok(false) ==> !IsValidRun() && |script| < |old(script)|
      ensures old(IsValidRun()) ==> r == Ok(true)
      ensures Keeps(old(stagingDb.accounts), stagingDb.accounts)
      ensures old(stagingDb.blockHashes.Keys) <= stagingDb.blockHashes.Keys
      ensures r == Ok(true) ==>
                && IsValidRun()
                && old(pendingAccounts) <= stagingDb.accounts.Keys
                && (forall s :: s in old(pendingSlots) ==> HasSlot(stagingDb.accounts, s.0, s.1))
                && old(pendingHashes) <= stagingDb.blockHashes.Keys
    {
      var ok := DrainAccounts();
      if !ok { return Ok(false); }
      r := DrainSlots();
      if r != Ok(true) { return; }
      ok := DrainHashes();
      r := Ok(ok);
    }

    /**
     The end of a run. False unless nothing was guessed; the changes of a run with guesses are dropped,
     but only once everything has arrived.
     */
    method FetchData() returns (r: Result<bool, Failure>)
      requires Valid()
      modifies this`pendingAccounts, this`pendingSlots, this`pendingHashes, this`script, this`currentDb, stagingDb
      ensures Valid() && |script| <= |old(script)| && (currentDb == old(currentDb) || fresh(currentDb))
      ensures old(IsValidRun()) ==> r == Ok(true) && currentDb == old(currentDb)
      ensures r == Ok(true) ==> old(IsValidRun())
      ensures r == Ok(false) ==> if IsValidRun() then Fresh() else |script| < |old(script)|
      ensures old(SlotsBacked()) ==> r.Ok?
      ensures r == Ok(false) && IsValidRun() ==> forall q :: old(Known(q)) || old(Pending(q)) ==> Known(q)
      ensures old(stagingDb.accounts.Keys) <= stagingDb.accounts.Keys
    {
      var validRun := IsValidRun();
      r := FetchAll();
      if r != Ok(true) { return; }
      if !validRun { currentDb := new Database(); }
      r := Ok(validRun);
    }
  }

  // ----- the loop

  const MAX_ITERATIONS: nat := 100

  /** The database is ready for a run: either afresh, or with work pending that makes the run void. */
  ghost predicate Ready(db: ProviderDb)
    reads db, db.initialDb, db.stagingDb, db.currentDb
  {
    db.Valid() && (db.IsValidRun() ==> db.Fresh())
  }

  /** Without failures, the first `n` reads of the direct run are known after `n` runs. */
  ghost predicate KnownSoFar(db: ProviderDb, p: Program, n: nat)
    requires Bounded(p)
    reads db, db.initialDb, db.stagingDb, db.currentDb
  {
    && db.IsValidRun() && db.Covered() && db.script == []
    && var d := DirectAnswers(p, db.world, true, []);
       forall i :: 0 <= i < n && i < |d| && p.next(true, d[..i]).Read? ==> db.Known(p.next(true, d[..i]).query)
  }

  /** What a finished preflight promises, for the mode of its last run. */
  ghost predicate Refines(db: ProviderDb, p: Program)
    requires Bounded(p)
    reads db, db.initialDb, db.currentDb
  {
    var d := DirectAnswers(p, db.world, db.optimistic, []);
    && p.next(db.optimistic, d).Done?
    && CommittedAll(map[], p.next(db.optimistic, d).changes, db.currentDb.accounts)
    && db.AllRecorded(p, d)
    && TrueAccounts(db.world, db.initialDb.accounts) && TrueHashes(db.world, db.initialDb.blockHashes)
  }

  ghost predicate RecordedIn(db: ProviderDb, p: Program, mode: bool)
    requires Bounded(p)
    reads db, db.initialDb
  {
    forall q :: q in DirectQueries(p, db.world, mode, []) ==> db.Recorded(q)
  }

  lemma {:induction false} QueriesRecorded(db: ProviderDb, p: Program, mode: bool, h: seq<Answer>, q: Query)
    requires Bounded(p) && mode == db.optimistic && OnDirect(p, db.world, mode, h)
    requires db.AllRecorded(p, DirectAnswers(p, db.world, mode, h)) && q in DirectQueries(p, db.world, mode, h)
    ensures db.Recorded(q)
    decreases p.limit - |h|
  {
    var r := p.next(mode, h).query;
    var h' := h + [Truth(db.world, r)];
    var d := DirectAnswers(p, db.world, mode, h);
    assert d == DirectAnswers(p, db.world, mode, h') && h' <= d;
    assert d[..|h|] == h;
    DirectGrows(p, db.world, mode, h);
    if q != r { QueriesRecorded(db, p, mode, h', q); }
  }

  /** The validated run, which is the guest's: it reads only what is recorded, and unless it is turned
      down its changes are those committed. */
  ghost predicate GuestServed(db: ProviderDb, p: Program)
    requires Bounded(p)
    reads db, db.initialDb, db.currentDb
  {
    var last := p.next(false, DirectAnswers(p, db.world, false, []));
    && RecordedIn(db, p, false)
    && (last.Abort? || (last.Done? && CommittedAll(map[], last.changes, db.currentDb.accounts)))
  }

  /** A finished preflight serves the guest if the modes agree along the direct run, or the last run was validated. */
  lemma {:induction false} GuestIsServed(db: ProviderDb, p: Program)
    requires Bounded(p) && Refines(db, p) && (db.optimistic ==> ModesAgree(p, db.world))
    ensures GuestServed(db, p)
  {
    SameRunIff(p, db.world);
    forall q | q in DirectQueries(p, db.world, false, []) ensures db.Recorded(q) {
      QueriesRecorded(db, p, db.optimistic, [], q);
    }
  }

  /** A program that reads an account only when it is validated. */
  function ReadsWhenValidated(a: Address): Program {
    Program((mode: bool, h: seq<Answer>) => if mode || |h| > 0 then Done(map[]) else Read(ReadAccount(a)), 1)
  }

  lemma {:induction false} GuestIsLeftOut(db: ProviderDb, a: Address)
    requires Refines(db, ReadsWhenValidated(a)) && a !in db.initialDb.accounts
    ensures !ModesAgree(ReadsWhenValidated(a), db.world) && !GuestServed(db, ReadsWhenValidated(a))
  {
    var p := ReadsWhenValidated(a);
    assert OnDirect(p, db.world, true, []);
    assert DirectQueries(p, db.world, false, [])[0] == ReadAccount(a);
    assert !db.Recorded(ReadAccount(a));
  }

  lemma {:induction false} GuessOnDirect(p: Program, w: World, mode: bool, g: seq<Answer>)
    requires Bounded(p) && OnDirect(p, w, mode, g) && Asks(p, mode, g)
    ensures var d := DirectAnswers(p, w, mode, []); |g| < |d| && d[..|g|] == g
  {
    DirectFrom(p, w, mode, g);
    var g' := g + [Truth(w, p.next(mode, g).query)];
    assert g' <= DirectAnswers(p, w, mode, g');
  }

  /** A run that guessed first at `g` had more than the first `n` reads known, and now has one more. */
  lemma {:induction false} OneMoreKnown(db: ProviderDb, p: Program, g: seq<Answer>, n: nat)
    requires Bounded(p) && OnDirect(p, db.world, true, g) && Asks(p, true, g) && n <= |g|
    requires db.IsValidRun() && db.Covered() && db.script == []
    requires db.Known(p.next(true, g).query)
    requires forall i :: 0 <= i < |g| && p.next(true, g[..i]).Read? ==> db.Known(p.next(true, g[..i]).query)
    ensures KnownSoFar(db, p, n + 1)
  {
    GuessOnDirect(p, db.world, true, g);
    var d := DirectAnswers(p, db.world, true, []);
    forall i | 0 <= i < n + 1 && i < |d| && p.next(true, d[..i]).Read? ensures db.Known(p.next(true, d[..i]).query) {
      assert i < |g| ==> d[..i] == g[..i];
    }
  }

  lemma {:induction false} ValidRunRefines(db: ProviderDb, p: Program, h: seq<Answer>, changes: map<Address, Account>)
    requires Bounded(p) && db.Valid() && OnDirect(p, db.world, db.optimistic, h) && db.AllRecorded(p, h)
    requires p.next(db.optimistic, h) == Done(changes) && CommittedAll(map[], changes, db.currentDb.accounts)
    ensures Refines(db, p)
  {
    DirectFrom(p, db.world, db.optimistic, h);
  }

  /** The run of one iteration, and its commit. */
  method Attempt(db: ProviderDb, p: Program, i: nat, ghost smooth: bool)
    returns (r: Result<map<Address, Account>, Failure>, ghost h: seq<Answer>, ghost g: seq<Answer>)
    requires Bounded(p) && Ready(db)
    requires smooth ==> KnownSoFar(db, p, i)
    modifies db`optimistic, db`pendingAccounts, db`pendingSlots, db`pendingHashes, db`script, db.initialDb, db.currentDb
    ensures db.Valid() && |db.script| <= |old(db.script)| && db.optimistic == (i + 1 < MAX_ITERATIONS)
    ensures i + 1 >= MAX_ITERATIONS ==> db.IsValidRun() == old(db.IsValidRun())
    ensures p.next(i + 1 < MAX_ITERATIONS, []).Done? ==>
              r.Ok? && db.initialDb.accounts == old(db.initialDb.accounts) && db.IsValidRun() == old(db.IsValidRun())
    ensures db.IsValidRun() && r.Ok? ==>
              && OnDirect(p, db.world, db.optimistic, h) && db.AllRecorded(p, h)
              && p.next(db.optimistic, h) == Done(r.value) && CommittedAll(map[], r.value, db.currentDb.accounts)
    ensures smooth && !db.IsValidRun() && r.Ok? ==>
              db.FirstGuess(p, g) && i <= |g| < |DirectAnswers(p, db.world, true, [])| && db.Covered() && db.SlotsBacked()
    ensures smooth && AccountFirst(p) && r.Err? ==> r == Err(Execution)
  {
    db.optimistic := i + 1 < MAX_ITERATIONS;
    r, h, g := db.Run(p);
    if r.Err? { return; }
    if smooth && !db.IsValidRun() { GuessOnDirect(p, db.world, true, g); }
    db.currentDb.Commit(r.value);
  }

  /** One iteration; true ends the loop. */
  method Iterate(db: ProviderDb, p: Program, i: nat, ghost smooth: bool) returns (r: Result<bool, Failure>)
    requires Bounded(p) && Ready(db)
    requires smooth ==> KnownSoFar(db, p, i)
    modifies db, db.initialDb, db.stagingDb, db.currentDb
    ensures db.currentDb == old(db.currentDb) || fresh(db.currentDb)
    ensures |db.script| <= |old(db.script)| && db.optimistic == (i + 1 < MAX_ITERATIONS)
    ensures r == Ok(true) ==> Refines(db, p)
    ensures r == Ok(false) ==> Ready(db)
    ensures old(db.IsValidRun()) && p.next(i + 1 < MAX_ITERATIONS, []).Done? ==>
              r == Ok(true) && db.initialDb.accounts == old(db.initialDb.accounts)
    ensures r == Ok(false) && i + 1 >= MAX_ITERATIONS ==>
              |db.script| < |old(db.script)| || (db.IsValidRun() && !old(db.IsValidRun()))
    ensures smooth && r == Ok(false) ==>
              i + 1 < MAX_ITERATIONS && KnownSoFar(db, p, i + 1) && i < |DirectAnswers(p, db.world, true, [])|
    ensures smooth && AccountFirst(p) && r.Err? ==> r == Err(Execution)
  {
    var run;
    ghost var h, g;
    run, h, g := Attempt(db, p, i, smooth);
    if run.Err? { return Err(run.error); }
    r := db.FetchData();
    if r == Ok(true) {
      ValidRunRefines(db, p, h, run.value);
    } else if smooth && r == Ok(false) {
      OneMoreKnown(db, p, g, i);
    }
  }

  /**
   `execute_txs`. When it succeeds, the changes are those of a direct run and every read of that run is
   on record with its true value, whichever requests failed on the way. If none fails, there are at most
   a hundred runs, and at most one more than the direct run has reads; and then, if accounts are read
   before their slots, only the program itself can fail.
   */
  method ExecuteTxs(db: ProviderDb, p: Program) returns (r: Result<nat, Failure>)
    requires Bounded(p) && Ready(db)
    modifies db, db.initialDb, db.stagingDb, db.currentDb
    ensures r.Ok? ==> Refines(db, p) && r.value > 0 && db.optimistic == (r.value < 100)
    ensures r.Ok? && ModesAgree(p, db.world) ==> GuestServed(db, p)
    ensures old(db.script) == [] && old(db.IsValidRun()) && old(db.Covered()) ==>
              && (r.Ok? ==> r.value <= 100 && r.value <= |DirectAnswers(p, db.world, true, [])| + 1)
              && (AccountFirst(p) && r.Err? ==> r == Err(Execution))
    ensures old(db.IsValidRun()) && p.next(true, []).Done? ==>
              r == Ok(1) && db.optimistic && db.initialDb.accounts == old(db.initialDb.accounts)
  {
    ghost var smooth := db.script == [] && db.IsValidRun() && db.Covered();
    var i := 0;
    while true
      invariant Ready(db) && (db.currentDb == old(db.currentDb) || fresh(db.currentDb))
      invariant smooth ==> KnownSoFar(db, p, i) && i <= |DirectAnswers(p, db.world, true, [])| && i < MAX_ITERATIONS
      invariant old(db.IsValidRun()) && p.next(true, []).Done? ==>
                  i == 0 && db.IsValidRun() && db.initialDb.accounts == old(db.initialDb.accounts)
      decreases if i < MAX_ITERATIONS then MAX_ITERATIONS - i else 0, |db.script|, if db.IsValidRun() then 0 else 1
    {
      var done := Iterate(db, p, i, smooth);
      if done.Err? { return Err(done.error); }
      i := i + 1;
      if done.value {
        if ModesAgree(p, db.world) { GuestIsServed(db, p); }
        return Ok(i);
      }
    }
  }

  /** In every world: a preflight that succeeds at once, and leaves the guest without the account it reads. */
  method GuestCanBeLeftOut(w: World, a: Address) returns (db: ProviderDb, r: Result<nat, Failure>)
    ensures Bounded(ReadsWhenValidated(a)) && AccountFirst(ReadsWhenValidated(a)) && db.world == w
    ensures r == Ok(1) && Refines(db, ReadsWhenValidated(a)) && !GuestServed(db, ReadsWhenValidated(a))
  {
    db := new ProviderDb(w, map[], map[], map[], []);
    r := ExecuteTxs(db, ReadsWhenValidated(a));
    GuestIsLeftOut(db, a);
  }
}
