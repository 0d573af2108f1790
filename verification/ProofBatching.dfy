/** `get_merkle_proofs`: asking for the proofs of many accounts and slots in batches of limited size. */
module ProofBatching {
  import opened Prelude
  import opened State
  import opened Distribution

  const BATCH_LIMIT: nat := 1000

  type Wanted = map<Address, seq<U256>>

  datatype ProofRequest = ProofRequest(address: Address, keys: seq<U256>)

  datatype StorageProof = StorageProof(key: U256, nodes: seq<Bytes>)

  datatype AccountProof = AccountProof(nodes: seq<Bytes>, storage: seq<StorageProof>)

  /** A provider that proves what it is asked; `up` says which of its batches arrive. */
  datatype Provider = Provider(account: Address -> seq<Bytes>, slot: (Address, U256) -> seq<Bytes>, up: nat -> bool)

  // ----- what is asked for

  /** One for the account, and one for every key. */
  function Weight(batch: seq<ProofRequest>): nat {
    if batch == [] then 0 else Weight(batch[..|batch| - 1]) + 1 + |batch[|batch| - 1].keys|
  }

  /** All keys asked for an account, in order. */
  function KeysAsked(asked: seq<ProofRequest>, a: Address): seq<U256> {
    if asked == [] then []
    else
      var last := asked[|asked| - 1];
      KeysAsked(asked[..|asked| - 1], a) + if last.address == a then last.keys else []
  }

  predicate Asked(asked: seq<ProofRequest>, a: Address) {
    exists i :: 0 <= i < |asked| && asked[i].address == a
  }

  lemma {:induction false} AskOneMore(asked: seq<ProofRequest>, r: ProofRequest, a: Address)
    ensures KeysAsked(asked + [r], a) == KeysAsked(asked, a) + if r.address == a then r.keys else []
    ensures Asked(asked + [r], a) <==> Asked(asked, a) || r.address == a
    ensures Weight(asked + [r]) == Weight(asked) + 1 + |r.keys|
  {
    assert (asked + [r])[..|asked|] == asked;
    assert (asked + [r])[|asked|] == r;
    if Asked(asked, a) {
      var i :| 0 <= i < |asked| && asked[i].address == a;
      assert (asked + [r])[i].address == a;
    }
  }

  /** What is still wanted of an account. */
  function Rest(wanted: Wanted, a: Address): seq<U256> {
    if a in wanted then wanted[a] else []
  }

  /** What was asked and what is still wanted make up what was wanted; nothing is dropped unasked. */
  ghost predicate Conserved(original: Wanted, asked: seq<ProofRequest>, wanted: Wanted) {
    && wanted.Keys <= original.Keys
    && (forall a :: KeysAsked(asked, a) + Rest(wanted, a) == Rest(original, a))
    && (forall a :: a in original && a !in wanted ==> Asked(asked, a))
    && (forall a :: Asked(asked, a) ==> a in original)
  }

  /** The keys still wanted, by account and position. */
  ghost function Positions(wanted: Wanted): set<(Address, int)> {
    set a, i | a in wanted && 0 <= i < |wanted[a]| :: (a, i)
  }

  // ----- one batch

  /** Takes as many keys of one account as the batch has room for. */
  function TakeKeys(wanted: Wanted, a: Address, size: nat): (ProofRequest, Wanted)
    requires a in wanted && size < BATCH_LIMIT
  {
    var keys := wanted[a];
    var num := if size + |keys| < BATCH_LIMIT then |keys| else BATCH_LIMIT - size;
    (ProofRequest(a, keys[..num]), if num == |keys| then wanted - {a} else wanted[a := keys[num..]])
  }

  lemma {:induction false} TakenKeys(wanted: Wanted, a: Address, size: nat, b: Address)
    requires a in wanted && size < BATCH_LIMIT
    ensures var (r, rest) := TakeKeys(wanted, a, size);
            Rest(wanted, b) == (if b == a then r.keys else []) + Rest(rest, b)
  {
    var (r, rest) := TakeKeys(wanted, a, size);
    if b == a {
      var keys, num := wanted[a], |r.keys|;
      assert keys == keys[..num] + keys[num..];
    }
  }

  lemma {:induction false} TakeConservesKeys(asked: seq<ProofRequest>, wanted: Wanted, a: Address, size: nat, b: Address)
    requires a in wanted && size < BATCH_LIMIT
    ensures var (r, rest) := TakeKeys(wanted, a, size);
            KeysAsked(asked + [r], b) + Rest(rest, b) == KeysAsked(asked, b) + Rest(wanted, b)
  {
    var (r, rest) := TakeKeys(wanted, a, size);
    AskOneMore(asked, r, b);
    TakenKeys(wanted, a, size, b);
    Regroup(KeysAsked(asked, b), if b == a then r.keys else [], Rest(rest, b));
  }

  lemma {:induction false} TakeConserves(original: Wanted, asked: seq<ProofRequest>, wanted: Wanted, a: Address, size: nat)
    requires Conserved(original, asked, wanted) && a in wanted && size < BATCH_LIMIT
    ensures var (r, rest) := TakeKeys(wanted, a, size); Conserved(original, asked + [r], rest)
  {
    var (r, rest) := TakeKeys(wanted, a, size);
    forall b ensures KeysAsked(asked + [r], b) + Rest(rest, b) == Rest(original, b) {
      TakeConservesKeys(asked, wanted, a, size, b);
    }
    forall b ensures Asked(asked + [r], b) <==> Asked(asked, b) || b == a {
      AskOneMore(asked, r, b);
    }
  }

  lemma {:induction false} TakeProgresses(wanted: Wanted, a: Address, size: nat)
    requires a in wanted && size < BATCH_LIMIT
    ensures var (r, rest) := TakeKeys(wanted, a, size);
            && rest.Keys <= wanted.Keys
            && if a in rest then rest.Keys == wanted.Keys && Positions(rest) < Positions(wanted) && size + 1 + |r.keys| > BATCH_LIMIT
               else rest.Keys == wanted.Keys - {a}
  {
    var (r, rest) := TakeKeys(wanted, a, size);
    if a in rest {
      var last := (a, |wanted[a]| - 1);
      assert last in Positions(wanted) && last !in Positions(rest);
    }
  }

  /** Fills one batch, with any account first, until it is full or nothing is wanted any more. */
  method FillBatch(wanted: Wanted, ghost original: Wanted, ghost asked: seq<ProofRequest>)
    returns (batch: seq<ProofRequest>, rest: Wanted)
    requires Conserved(original, asked, wanted) && wanted != map[]
    ensures Conserved(original, asked + batch, rest)
    ensures Weight(batch) <= 1001 && (rest != map[] ==> Weight(batch) >= 1000)
    ensures rest.Keys <= wanted.Keys && (rest.Keys == wanted.Keys ==> Positions(rest) < Positions(wanted))
  {
    batch, rest := [], wanted;
    assert asked + [] == asked;
    var size := 0;
    while rest != map[] && size < BATCH_LIMIT
      invariant Conserved(original, asked + batch, rest)
      invariant Weight(batch) == size <= BATCH_LIMIT + 1
      invariant rest.Keys <= wanted.Keys
      invariant size == 0 ==> rest == wanted
      invariant size > 0 && rest.Keys == wanted.Keys ==> size >= BATCH_LIMIT && Positions(rest) < Positions(wanted)
      decreases rest.Keys, BATCH_LIMIT - size
    {
      var a :| a in rest;
      var (r, less) := TakeKeys(rest, a, size);
      TakeConserves(original, asked + batch, rest, a, size);
      TakeProgresses(rest, a, size);
      AskOneMore(batch, r, a);
      assert asked + batch + [r] == asked + (batch + [r]);
      batch, rest, size := batch + [r], less, size + 1 + |r.keys|;
    }
  }

  // ----- what comes back

  function Proofs(p: Provider, a: Address, keys: seq<U256>): seq<StorageProof> {
    seq(|keys|, i requires 0 <= i < |keys| => StorageProof(keys[i], p.slot(a, keys[i])))
  }

  /** Exactly the accounts asked for, each with the proofs of its keys in the order they were asked. */
  ghost predicate Merged(p: Provider, asked: seq<ProofRequest>, proofs: map<Address, AccountProof>) {
    && (forall a :: a in proofs <==> Asked(asked, a))
    && (forall a :: a in proofs ==> proofs[a] == AccountProof(p.account(a), Proofs(p, a, KeysAsked(asked, a))))
  }

  function Merge(p: Provider, proofs: map<Address, AccountProof>, r: ProofRequest): map<Address, AccountProof> {
    var added := Proofs(p, r.address, r.keys);
    if r.address in proofs then
      proofs[r.address := proofs[r.address].(storage := proofs[r.address].storage + added)]
    else proofs[r.address := AccountProof(p.account(r.address), added)]
  }

  lemma {:induction false} UnaskedKeys(asked: seq<ProofRequest>, a: Address)
    requires !Asked(asked, a)
    ensures KeysAsked(asked, a) == []
    decreases |asked|
  {
    if asked != [] {
      var most := asked[..|asked| - 1];
      assert asked == most + [asked[|asked| - 1]];
      AskOneMore(most, asked[|asked| - 1], a);
      UnaskedKeys(most, a);
    }
  }

  lemma {:induction false} ProofsAppend(p: Provider, a: Address, x: seq<U256>, y: seq<U256>)
    ensures Proofs(p, a, x + y) == Proofs(p, a, x) + Proofs(p, a, y)
  {
  }

  lemma {:induction false} MergeStep(p: Provider, asked: seq<ProofRequest>, proofs: map<Address, AccountProof>, r: ProofRequest)
    requires Merged(p, asked, proofs)
    ensures Merged(p, asked + [r], Merge(p, proofs, r))
  {
    var after := Merge(p, proofs, r);
    ProofsAppend(p, r.address, KeysAsked(asked, r.address), r.keys);
    if !Asked(asked, r.address) { UnaskedKeys(asked, r.address); }
    forall a ensures a in after <==> Asked(asked + [r], a)
      ensures a in after ==> after[a] == AccountProof(p.account(a), Proofs(p, a, KeysAsked(asked + [r], a)))
    {
      AskOneMore(asked, r, a);
    }
  }

  method Collect(p: Provider, proofs: map<Address, AccountProof>, batch: seq<ProofRequest>, ghost asked: seq<ProofRequest>)
    returns (after: map<Address, AccountProof>)
    requires Merged(p, asked, proofs)
    ensures Merged(p, asked + batch, after)
  {
    after := proofs;
    assert asked + batch[..0] == asked;
    for i := 0 to |batch|
      invariant Merged(p, asked + batch[..i], after)
    {
      assert asked + batch[..i + 1] == (asked + batch[..i]) + [batch[i]];
      MergeStep(p, asked + batch[..i], after, batch[i]);
      after := Merge(p, after, batch[i]);
    }
    assert batch[..|batch|] == batch;
  }

  // ----- all batches

  lemma {:induction false} NothingAsked(original: Wanted)
    ensures Conserved(original, [], original)
  {
    forall a ensures KeysAsked([], a) + Rest(original, a) == Rest(original, a) {
      assert [] + Rest(original, a) == Rest(original, a);
    }
  }

  lemma {:induction false} AllAsked(original: Wanted, asked: seq<ProofRequest>)
    requires Conserved(original, asked, map[])
    ensures forall a :: Asked(asked, a) <==> a in original
    ensures forall a :: a in original ==> KeysAsked(asked, a) == original[a]
  {
    forall a | a in original ensures KeysAsked(asked, a) == original[a] {
      assert KeysAsked(asked, a) + Rest(map[], a) == Rest(original, a);
    }
  }

  /** Exactly the wanted accounts were asked for, each with its keys in order, and the result holds their proofs. */
  ghost predicate Delivered(p: Provider, original: Wanted, asked: seq<ProofRequest>, proofs: map<Address, AccountProof>) {
    && (forall a :: Asked(asked, a) <==> a in original)
    && (forall a :: a in original ==> KeysAsked(asked, a) == original[a])
    && proofs.Keys == original.Keys
    && (forall a :: a in original ==> proofs[a] == AccountProof(p.account(a), Proofs(p, a, original[a])))
  }

  lemma {:induction false} AllMerged(p: Provider, original: Wanted, asked: seq<ProofRequest>, proofs: map<Address, AccountProof>)
    requires Merged(p, asked, proofs)
    requires forall a :: Asked(asked, a) <==> a in original
    requires forall a :: a in original ==> KeysAsked(asked, a) == original[a]
    ensures Delivered(p, original, asked, proofs)
  {
  }

  /** No batch outweighs the limit by more than one, and all are full; the last need not be if it is the end. */
  ghost predicate Filled(batches: seq<seq<ProofRequest>>, ends: bool) {
    forall i :: 0 <= i < |batches| ==>
      Weight(batches[i]) <= 1001 && (i < |batches| - 1 || !ends ==> Weight(batches[i]) >= 1000)
  }

  lemma {:induction false} FilledGrows(batches: seq<seq<ProofRequest>>, batch: seq<ProofRequest>, ends: bool)
    requires Filled(batches, false) && Weight(batch) <= 1001 && (!ends ==> Weight(batch) >= 1000)
    ensures Filled(batches + [batch], ends)
  {
  }

  predicate AllUp(p: Provider, n: nat) {
    forall i: nat :: i < n ==> p.up(i)
  }

  lemma {:induction false} UpNext(p: Provider, n: nat)
    ensures AllUp(p, n + 1) <==> AllUp(p, n) && p.up(n)
  {
  }

  /**
   For every order in which accounts are taken: it ends; every batch but the last is full, and none outweighs
   the limit by more than one;
   and if all batches arrive, exactly the wanted accounts were asked for, each with its keys in order,
   none lost and none repeated, and the result holds their proofs in that order.
   */
  method GetMerkleProofs(p: Provider, original: Wanted)
    returns (r: Option<map<Address, AccountProof>>, batches: seq<seq<ProofRequest>>)
    ensures Filled(batches, true)
    ensures r.Some? <==> AllUp(p, |batches|)
    ensures r.Some? ==> Delivered(p, original, Concat(batches), r.value)
  {
    var proofs: map<Address, AccountProof> := map[];
    batches := [];
    var wanted := original;
    ghost var asked: seq<ProofRequest> := [];
    NothingAsked(original);
    while wanted != map[]
      invariant asked == Concat(batches) && Conserved(original, asked, wanted) && Merged(p, asked, proofs)
      invariant Filled(batches, wanted == map[]) && AllUp(p, |batches|)
      decreases wanted.Keys, Positions(wanted)
    {
      var batch, rest := FillBatch(wanted, original, asked);
      ConcatGrows(batches, batch);
      FilledGrows(batches, batch, rest == map[]);
      UpNext(p, |batches|);
      var ok := p.up(|batches|);
      batches := batches + [batch];
      if !ok { return None, batches; }
      proofs := Collect(p, proofs, batch, asked);
      asked, wanted := asked + batch, rest;
    }
    AllAsked(original, asked);
    AllMerged(p, original, asked, proofs);
    r := Some(proofs);
  }
}
