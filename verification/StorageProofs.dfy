/**
 How one storage trie is rebuilt from the proofs of its slots before and after the block, and why all the
 deletions of the block can be made from it.
 */
module StorageProofs {
  import opened Prelude
  import opened HexPrefix
  import opened Trie
  import opened TrieCodec
  import opened TrieFidelity
  import opened TrieResolve
  import opened TrieProofs
  import opened HonestProofs
  import opened ProofServing
  import opened ManyDeletions

  datatype SlotProof = SlotProof(key: Bytes, proof: seq<Bytes>)

  // ----- collecting

  /** The proof parses and assembles; the program panics otherwise. */
  predicate Readable(H: Hasher, p: SlotProof) {
    var nodes := ParsedProof(p.proof);
    nodes.Ok? && Assembled(H, nodes.value).Some?
  }

  /** The proof is empty or has an answer for its key. */
  ghost predicate Answered(H: Hasher, p: SlotProof) {
    p.proof == [] || ProofAnswer(H, p.key, p.proof).Some?
  }

  function Parsed(p: SlotProof): (r: seq<Node>)
    ensures AllShaped(r)
  {
    var nodes := ParsedProof(p.proof);
    if nodes.Ok? then nodes.value else []
  }

  /** What is stored for the proof of a key after the block. */
  ghost function Orphans(H: Hasher, p: SlotProof): (r: seq<Node>)
    ensures AllShaped(r)
  {
    if p.proof == [] || ProofAnswer(H, p.key, p.proof) != Some(None) then []
    else
      var last := ParsedProof(p.proof).value[|p.proof| - 1];
      assert last in ParsedProof(p.proof).value;
      ShortenedShaped(last);
      Shortened(last)
  }

  ghost function AllParsed(ps: seq<SlotProof>): (r: seq<Node>)
    ensures AllShaped(r)
  {
    if ps == [] then [] else AllParsed(ps[..|ps| - 1]) + Parsed(ps[|ps| - 1])
  }

  ghost function AllOrphans(H: Hasher, ps: seq<SlotProof>): (r: seq<Node>)
    ensures AllShaped(r)
  {
    if ps == [] then [] else AllOrphans(H, ps[..|ps| - 1]) + Orphans(H, ps[|ps| - 1])
  }

  /** The first node of the last proof that has one. */
  function RootNode(ps: seq<SlotProof>): (r: Node)
    ensures Shaped(r)
  {
    if ps == [] then Null
    else
      var nodes := Parsed(ps[|ps| - 1]);
      if nodes == [] then RootNode(ps[..|ps| - 1]) else assert nodes[0] in nodes; nodes[0]
  }

  /** The root is taken from the last proof that has a node. */
  lemma {:induction false} RootNodeIs(ps: seq<SlotProof>, i: nat)
    requires i < |ps| && Parsed(ps[i]) != [] && forall j :: i < j < |ps| ==> Parsed(ps[j]) == []
    ensures RootNode(ps) == Parsed(ps[i])[0]
    decreases |ps|
  {
    if i < |ps| - 1 { RootNodeIs(ps[..|ps| - 1], i); }
  }

  ghost predicate AllReadable(H: Hasher, ps: seq<SlotProof>) {
    forall p :: p in ps ==> Readable(H, p)
  }

  ghost predicate AllAnswered(H: Hasher, ps: seq<SlotProof>) {
    forall p :: p in ps ==> Answered(H, p)
  }

  lemma {:induction false} OneMore(ps: seq<SlotProof>, i: nat)
    requires i < |ps|
    ensures ps[i] in ps && ps[..i + 1] == ps[..i] + [ps[i]] && ps[..i + 1][..i] == ps[..i]
  {
  }

  lemma {:induction false} NextParents(H: Hasher, ps: seq<SlotProof>, i: nat)
    requires i < |ps|
    ensures StoredAll(H, map[], AllParsed(ps[..i + 1])) ==
            StoredAll(H, StoredAll(H, map[], AllParsed(ps[..i])), Parsed(ps[i]))
    ensures RootNode(ps[..i + 1]) == if Parsed(ps[i]) == [] then RootNode(ps[..i]) else Parsed(ps[i])[0]
  {
    OneMore(ps, i);
    StoredInTwo(H, map[], AllParsed(ps[..i]), Parsed(ps[i]));
  }

  lemma {:induction false} NextOrphans(H: Hasher, ps: seq<SlotProof>, i: nat, parents: map<Reference, Node>)
    requires i < |ps|
    ensures StoredAll(H, parents, AllOrphans(H, ps[..i + 1])) ==
            StoredAll(H, StoredAll(H, parents, AllOrphans(H, ps[..i])), Orphans(H, ps[i]))
  {
    OneMore(ps, i);
    StoredInTwo(H, parents, AllOrphans(H, ps[..i]), Orphans(H, ps[i]));
  }

  method CollectParents(H: Hasher, before: seq<SlotProof>) returns (r: Option<(Node, map<Reference, Node>)>)
    ensures r.Some? <==> AllReadable(H, before)
    ensures r.Some? ==> r.value == (RootNode(before), StoredAll(H, map[], AllParsed(before)))
  {
    var root, nodes := Null, map[];
    for i := 0 to |before|
      invariant AllReadable(H, before[..i])
      invariant root == RootNode(before[..i])
      invariant nodes == StoredAll(H, map[], AllParsed(before[..i]))
    {
      OneMore(before, i);
      NextParents(H, before, i);
      var parsed := ParsedProof(before[i].proof);
      if parsed.Err? || Assembled(H, parsed.value).None? { return None; }
      if parsed.value != [] { root := parsed.value[0]; }
      nodes := StoreNodes(H, nodes, parsed.value);
    }
    assert before[..|before|] == before;
    r := Some((root, nodes));
  }

  method StoreOrphans(H: Hasher, p: SlotProof, nodes: map<Reference, Node>) returns (r: Option<map<Reference, Node>>)
    ensures r == if Answered(H, p) then Some(StoredAll(H, nodes, Orphans(H, p))) else None
  {
    r := AddOrphanedLeafs(H, p.key, p.proof, nodes);
  }

  method CollectOrphans(H: Hasher, after: seq<SlotProof>, parents: map<Reference, Node>)
    returns (r: Option<map<Reference, Node>>)
    ensures r == if AllAnswered(H, after) then Some(StoredAll(H, parents, AllOrphans(H, after))) else None
  {
    var nodes := parents;
    for i := 0 to |after|
      invariant AllAnswered(H, after[..i])
      invariant nodes == StoredAll(H, parents, AllOrphans(H, after[..i]))
    {
      OneMore(after, i);
      NextOrphans(H, after, i, parents);
      var more := StoreOrphans(H, after[i], nodes);
      if more.None? { return None; }
      nodes := more.value;
    }
    assert after[..|after|] == after;
    r := Some(nodes);
  }

  /** The root node and the nodes from which the storage trie is resolved; `None` where the program gives up. */
  method CollectStorage(H: Hasher, before: seq<SlotProof>, after: seq<SlotProof>)
    returns (r: Option<(Node, map<Reference, Node>)>)
    ensures r.Some? <==> AllReadable(H, before) && AllAnswered(H, after)
    ensures r.Some? ==> r.value == (RootNode(before), StoredAll(H, map[], AllParsed(before) + AllOrphans(H, after)))
  {
    var parents := CollectParents(H, before);
    if parents.None? { return None; }
    var nodes := CollectOrphans(H, after, parents.value.1);
    if nodes.None? { return None; }
    StoredInTwo(H, map[], AllParsed(before), AllOrphans(H, after));
    r := Some((parents.value.0, nodes.value));
  }

  // ----- proofs that an honest node gives

  function KeyOf(H: Hasher, slot: Bytes): Nibbles {
    NibblesOf(H(slot))
  }

  function ProofsOf(H: Hasher, n: Node, slots: seq<Bytes>): (r: seq<SlotProof>)
    requires Shaped(n)
    ensures |r| == |slots|
  {
    if slots == [] then []
    else
      var last := slots[|slots| - 1];
      ProofsOf(H, n, slots[..|slots| - 1]) + [SlotProof(last, HonestProof(H, n, KeyOf(H, last)))]
  }

  /** The proofs of the slots fit into memory. */
  ghost predicate AllSmall(H: Hasher, n: Node, slots: seq<Bytes>)
    requires Shaped(n)
  {
    forall x :: x in slots ==> Small(H, PathNodes(H, n, KeyOf(H, x)))
  }

  ghost predicate NoTwins(H: Hasher, n: Node, slots: seq<Bytes>)
    requires Shaped(n)
  {
    forall x :: x in slots ==> NoTwin(H, n, KeyOf(H, x))
  }

  ghost predicate Within(part: seq<Node>, list: seq<Node>) {
    forall m :: m in part ==> m in list
  }

  lemma {:induction false} LastProof(H: Hasher, n: Node, slots: seq<Bytes>)
    requires Shaped(n) && slots != []
    ensures var ps, last := ProofsOf(H, n, slots), slots[|slots| - 1];
            && ps[..|ps| - 1] == ProofsOf(H, n, slots[..|slots| - 1])
            && ps[|ps| - 1] == SlotProof(last, HonestProof(H, n, KeyOf(H, last)))
            && ps == ps[..|ps| - 1] + [ps[|ps| - 1]]
  {
  }

  lemma {:induction false} HonestParents(H: Hasher, t: Node, slot: Bytes)
    requires Canonical(t) && Resolved(t) && Small(H, PathNodes(H, t, KeyOf(H, slot)))
    ensures var p := SlotProof(slot, HonestProof(H, t, KeyOf(H, slot)));
            && Readable(H, p)
            && Parsed(p) == Shallows(H, PathNodes(H, t, KeyOf(H, slot)))
            && Parsed(p) != [] && Parsed(p)[0] == Shallow(H, t)
  {
    ProofsAreComplete(H, t, slot);
    ShallowsAt(H, PathNodes(H, t, KeyOf(H, slot)), 0);
  }

  lemma {:induction false} ParentsReadable(H: Hasher, t: Node, slots: seq<Bytes>)
    requires Canonical(t) && Resolved(t) && AllSmall(H, t, slots)
    ensures AllReadable(H, ProofsOf(H, t, slots))
    ensures slots != [] ==> RootNode(ProofsOf(H, t, slots)) == Shallow(H, t)
    decreases |slots|
  {
    if slots != [] {
      var most, last := slots[..|slots| - 1], slots[|slots| - 1];
      assert last in slots && forall x :: x in most ==> x in slots;
      ParentsReadable(H, t, most);
      HonestParents(H, t, last);
      LastProof(H, t, slots);
    }
  }

  lemma {:induction false} ParentsCollected(H: Hasher, t: Node, slots: seq<Bytes>, x: Bytes)
    requires Canonical(t) && Resolved(t) && AllSmall(H, t, slots) && x in slots
    ensures Within(Shallows(H, PathNodes(H, t, KeyOf(H, x))), AllParsed(ProofsOf(H, t, slots)))
    decreases |slots|
  {
    var most, last := slots[..|slots| - 1], slots[|slots| - 1];
    assert slots == most + [last];
    LastProof(H, t, slots);
    if x == last { HonestParents(H, t, last); } else { ParentsCollected(H, t, most, x); }
  }

  lemma {:induction false} LastOf(H: Hasher, nodes: seq<Node>, last: Node)
    requires AllShaped(nodes) && nodes != [] && nodes[|nodes| - 1] == last && Shaped(last)
    ensures |Encodings(H, nodes)| == |nodes| && Shallows(H, nodes)[|nodes| - 1] == Shallow(H, last)
  {
    ShallowsAt(H, nodes, |nodes| - 1);
  }

  lemma {:induction false} HonestEnd(H: Hasher, t: Node, slot: Bytes)
    requires Canonical(t) && Resolved(t) && Small(H, PathNodes(H, t, KeyOf(H, slot)))
    ensures var proof := HonestProof(H, t, KeyOf(H, slot));
            && proof != [] && ParsedProof(proof).Ok?
            && ParsedProof(proof).value[|proof| - 1] == Shallow(H, LastNode(H, t, KeyOf(H, slot)))
  {
    var key := KeyOf(H, slot);
    ProofsAreComplete(H, t, slot);
    LastNodeIsLast(H, t, key);
    LastOf(H, PathNodes(H, t, key), LastNode(H, t, key));
  }

  lemma {:induction false} HonestOrphans(H: Hasher, t: Node, slot: Bytes)
    requires Canonical(t) && Resolved(t) && Small(H, PathNodes(H, t, KeyOf(H, slot))) && NoTwin(H, t, KeyOf(H, slot))
    ensures var p := SlotProof(slot, HonestProof(H, t, KeyOf(H, slot)));
            && Answered(H, p)
            && (Get(t, KeyOf(H, slot)) == Ok(None) ==> Orphans(H, p) == Shortened(Shallow(H, LastNode(H, t, KeyOf(H, slot)))))
  {
    ProofsAreComplete(H, t, slot);
    HonestEnd(H, t, slot);
  }

  lemma {:induction false} OrphansAnswered(H: Hasher, t: Node, slots: seq<Bytes>)
    requires Canonical(t) && Resolved(t) && AllSmall(H, t, slots) && NoTwins(H, t, slots)
    ensures AllAnswered(H, ProofsOf(H, t, slots))
    decreases |slots|
  {
    if slots != [] {
      var most, last := slots[..|slots| - 1], slots[|slots| - 1];
      assert last in slots && forall x :: x in most ==> x in slots;
      OrphansAnswered(H, t, most);
      HonestOrphans(H, t, last);
      LastProof(H, t, slots);
    }
  }

  lemma {:induction false} OrphansCollected(H: Hasher, t: Node, slots: seq<Bytes>, x: Bytes)
    requires Canonical(t) && Resolved(t) && AllSmall(H, t, slots) && NoTwins(H, t, slots) && x in slots
    requires Get(t, KeyOf(H, x)) == Ok(None)
    ensures Within(Shortened(Shallow(H, LastNode(H, t, KeyOf(H, x)))), AllOrphans(H, ProofsOf(H, t, slots)))
    decreases |slots|
  {
    var most, last := slots[..|slots| - 1], slots[|slots| - 1];
    assert slots == most + [last];
    LastProof(H, t, slots);
    if x == last { HonestOrphans(H, t, last); } else { OrphansCollected(H, t, most, x); }
  }

  // ----- the main result

  lemma {:induction false} ListServes(H: Hasher, t: Node, t': Node, key: Nibbles, list: seq<Node>, s: Store)
    requires Shaped(t) && Shaped(t') && AllShaped(list) && ToldApart(H, list) && s.nodes == StoredAll(H, map[], list)
    requires Within(Shallows(H, PathNodes(H, t, key)), list) && Within(Shortened(Shallow(H, LastNode(H, t', key))), list)
    ensures HasPath(H, s, PathNodes(H, t, key)[1..]) && HasOrphans(H, s, LastNode(H, t', key))
  {
    var nodes := PathNodes(H, t, key);
    forall x | x in nodes[1..] ensures Ref(H, x) in s.nodes && s.nodes[Ref(H, x)] == Shallow(H, x) {
      assert x in nodes;
      ShallowIn(H, nodes, x);
      StoredIsFound(H, list, Shallow(H, x));
      ShallowSameBytes(H, x);
    }
    var last := Shallow(H, LastNode(H, t', key));
    forall m | m in Shortened(last) && Shaped(m) ensures Ref(H, m) in s.nodes { StoredIsFound(H, list, m); }
  }

  /** The keys are those of some of the slots. */
  ghost predicate KeysOfSlots(H: Hasher, keys: seq<Nibbles>, slots: seq<Bytes>) {
    forall q :: q in keys ==> exists x :: x in slots && KeyOf(H, x) == q
  }

  /**
   The deletions of a block from encoded proofs, end to end. The proofs of the slots are those of the trie
   before and of the trie after, in which some of the keys are gone. The program collects a store from them;
   the trie that it resolves from this store has the root before, all deletions can be made from it in any
   order, and they end in the root after.
   */
  lemma {:induction false} DeletionsFromProofs(
    H: Hasher, t: Node, slots: seq<Bytes>, keys: seq<Nibbles>, t': Node, s: Store, f: Store)
    requires Canonical(t) && Resolved(t) && Canonical(t') && Resolved(t') && slots != []
    requires AllHeld(t, keys) && NoRepeats(keys) && Without(t, keys, t') && KeysOfSlots(H, keys, slots)
    requires AllSmall(H, t, slots) && AllSmall(H, t', slots) && NoTwins(H, t', slots)
    requires var list := AllParsed(ProofsOf(H, t, slots)) + AllOrphans(H, ProofsOf(H, t', slots));
             ToldApart(H, list) && s.nodes == StoredAll(H, map[], list)
    requires Ranked(s) && PartOf(s, f) && KeyedByReference(H, f.nodes) && Sees(f, Shallow(H, t), t)
    ensures AllReadable(H, ProofsOf(H, t, slots))
    ensures AllAnswered(H, ProofsOf(H, t', slots))
    ensures var n := ResolveNodes(s, RootNode(ProofsOf(H, t, slots)));
            && HashOf(H, n) == HashOf(H, t)
            && (forall q :: q in keys ==> Get(n, q) == Get(t, q))
            && AllDeleted(n, keys)
            && Sees(f, DeletedAll(n, keys), t')
            && HashOf(H, DeletedAll(n, keys)) == HashOf(H, t')
  {
    ParentsReadable(H, t, slots);
    OrphansAnswered(H, t', slots);
    var list := AllParsed(ProofsOf(H, t, slots)) + AllOrphans(H, ProofsOf(H, t', slots));
    forall q | q in keys
      ensures HasPath(H, s, PathNodes(H, t, q)[1..]) && HasOrphans(H, s, LastNode(H, t', q))
    {
      var x :| x in slots && KeyOf(H, x) == q;
      assert Get(t', q) == Ok(None);
      ParentsCollected(H, t, slots, x);
      OrphansCollected(H, t', slots, x);
      ListServes(H, t, t', q, list, s);
    }
    DeletionsAreServed(H, t, keys, t', s, f);
  }
}
