/**
 Whole histories of a trie in memory: every way in which the program makes, changes and replaces its
 nodes, with references cached and asked for in between.
 */
module MptHistory {
  import opened Prelude
  import opened HexPrefix
  import opened Trie
  import opened TrieCodec
  import opened TrieResolve
  import opened TrieProofs
  import opened MptHeap

  // ----- assembling a proof

  method IsDigest(ghost H: Hasher, n: MptNode, i: Nibble, d: Hash) returns (b: bool)
    requires n.Valid(H) && n.data.BranchData?
    ensures b <==> n.node.children[i] == Some(Digest(d))
  {
    var c := n.data.children[i];
    b := c != null && c.data.DigestData? && c.data.digest == d;
  }

  /** The first child that is the given digest. */
  method FindDigest(ghost H: Hasher, n: MptNode, d: Hash) returns (r: Option<Nibble>)
    requires n.Valid(H) && n.data.BranchData?
    ensures r == DigestPlace(n.node.children, d, 0)
  {
    for i := 0 to 16
      invariant DigestPlace(n.node.children, d, 0) == DigestPlace(n.node.children, d, i)
    {
      var found := IsDigest(H, n, i, d);
      if found { return Some(i); }
    }
    r := None;
  }

  method PutChild(ghost H: Hasher, n: MptNode, i: Nibble, rep: MptNode) returns (m: MptNode)
    requires n.Valid(H) && n.data.BranchData? && rep.Valid(H)
    ensures m.Valid(H) && m.node == WithChild(n.node.children, i, rep.node) && fresh(m.Repr - rep.Repr)
  {
    m := n.Clone(H);
    m.TakeIn(H, i, rep);
  }

  method GraftIntoBranch(ghost H: Hasher, n: MptNode, d: Hash, rep: MptNode) returns (m: MptNode?)
    requires n.Valid(H) && n.data.BranchData? && rep.Valid(H) && Ref(H, rep.node) == ByDigest(d)
    ensures Grafted(H, n.node, rep.node) == if m == null then None else Some(m.node)
    ensures m != null ==> m.Valid(H) && fresh(m.Repr - rep.Repr)
  {
    m := null;
    var i := FindDigest(H, n, d);
    if i.Some? { m := PutChild(H, n, i.value, rep); }
  }

  method GraftBelowExtension(ghost H: Hasher, n: MptNode, d: Hash, rep: MptNode) returns (m: MptNode?)
    requires n.Valid(H) && n.data.ExtensionData? && rep.Valid(H) && Ref(H, rep.node) == ByDigest(d)
    ensures Grafted(H, n.node, rep.node) == if m == null then None else Some(m.node)
    ensures m != null ==> m.Valid(H) && fresh(m.Repr - rep.Repr)
  {
    m := null;
    var c := n.data.child;
    if c.data.DigestData? && c.data.digest == d {
      m := new MptNode.Of(H, ExtensionData(n.data.prefix, rep), None, Extension(n.node.path, rep.node), rep.Repr);
    }
  }

  /** A copy of the node with its successor in the place of the digest; null is a panic. */
  method Graft(H: Hasher, n: MptNode, rep: MptNode) returns (m: MptNode?)
    requires n.Valid(H) && rep.Valid(H) && n.Repr !! rep.Repr
    modifies rep.Repr`cached
    ensures n.Valid(H) && n.node == old(n.node) && n.Repr == old(n.Repr)
    ensures Grafted(H, n.node, old(rep.node)) == if m == null then None else Some(m.node)
    ensures m != null ==> m.Valid(H) && fresh(m.Repr - old(rep.Repr))
  {
    m := null;
    var ref := rep.Reference(H);
    if ref.Inline? { return; }
    if n.data.BranchData? {
      m := GraftIntoBranch(H, n, ref.hash, rep);
    } else if n.data.ExtensionData? {
      m := GraftBelowExtension(H, n, ref.hash, rep);
    }
  }

  ghost predicate AllValid(H: Hasher, nodes: seq<MptNode>, values: seq<Node>)
    reads nodes, set i, o | 0 <= i < |nodes| && o in nodes[i].Repr :: o
  {
    |nodes| == |values| && forall i :: 0 <= i < |nodes| ==> nodes[i].Valid(H) && nodes[i].node == values[i]
  }

  /** One round: the node before the assembled rest is copied, with the rest grafted in. */
  method GraftNext(H: Hasher, nodes: seq<MptNode>, ghost values: seq<Node>, i: nat, rest: MptNode) returns (m: MptNode?)
    requires AllValid(H, nodes, values) && AllShaped(values) && i + 1 < |nodes| && rest.Valid(H)
    requires forall k :: 0 <= k < |nodes| ==> nodes[k].Repr !! rest.Repr
    requires Assembled(H, values[i + 1..]) == Some(rest.node)
    modifies rest.Repr`cached
    ensures AllValid(H, nodes, values)
    ensures Assembled(H, values[i..]) == if m == null then None else Some(m.node)
    ensures m != null ==> m.Valid(H) && fresh(m.Repr - old(rest.Repr))
  {
    assert values[i..][1..] == values[i + 1..];
    assert values[i] in values && nodes[i].Valid(H);
    m := Graft(H, nodes[i], rest);
  }

  /**
   `mpt_from_proof`: from the last node up, each node is copied with its successor grafted in, whose
   reference is asked for and cached on the way; null is a panic.
   */
  method MptFromProof(H: Hasher, nodes: seq<MptNode>, ghost values: seq<Node>) returns (m: MptNode?)
    requires AllValid(H, nodes, values) && AllShaped(values)
    ensures Assembled(H, values) == if m == null then None else Some(m.node)
    ensures m != null ==> m.Valid(H) && fresh(m.Repr)
  {
    m := null;
    var i := |nodes|;
    while i > 0
      invariant 0 <= i <= |nodes| && AllValid(H, nodes, values)
      invariant i < |nodes| <==> m != null
      invariant m != null ==> m.Valid(H) && fresh(m.Repr) && Assembled(H, values[i..]) == Some(m.node)
    {
      i := i - 1;
      assert nodes[i].Valid(H);
      if m == null {
        m := nodes[i].Clone(H);
      } else {
        m := GraftNext(H, nodes, values, i, m);
        if m == null {
          AssembledNeedsTail(H, values, i);
          return;
        }
      }
    }
    assert values[0..] == values;
    if m == null { m := new MptNode.Empty(H); }
  }

  // ----- nodes from bytes, and node stores

  /** The nodes of a parsed proof. */
  method BuildAll(ghost H: Hasher, values: seq<Node>) returns (nodes: seq<MptNode>)
    requires AllShaped(values)
    ensures AllValid(H, nodes, values)
  {
    nodes := [];
    for i := 0 to |values|
      invariant AllValid(H, nodes, values[..i])
    {
      assert values[i] in values && values[..i + 1] == values[..i] + [values[i]];
      var m := Build(H, values[i]);
      nodes := nodes + [m];
    }
    assert values[..|values|] == values;
  }

  /** A store that every resolution ends on. */
  ghost predicate Usable(s: Store) {
    Ranked(s) && forall r :: r in s.nodes ==> Shaped(s.nodes[r])
  }

  /** The nodes of a store in memory; their references are asked for, and so cached, as they are stored. */
  method BuildStore(H: Hasher, s: Store) returns (heap: map<Reference, MptNode>)
    requires Usable(s)
    ensures MptNode.Stored(H, heap, s)
  {
    heap := map[];
    ghost var memory: set<MptNode> := {};
    var todo := s.nodes.Keys;
    while todo != {}
      invariant todo <= s.nodes.Keys && heap.Keys == s.nodes.Keys - todo && fresh(memory)
      invariant forall r :: r in heap ==>
                  heap[r] in memory && heap[r].Repr <= memory && heap[r].Valid(H) && heap[r].node == s.nodes[r]
      decreases todo
    {
      var r :| r in todo;
      var m := Build(H, s.nodes[r]);
      var _ := m.Reference(H);
      heap, memory, todo := heap[r := m], memory + m.Repr, todo - {r};
    }
  }

  // ----- histories

  datatype Deed =
    | Inserting(key: Nibbles, value: Bytes)
    | Deleting(key: Nibbles)
    | Clearing
    | Copying
    | Hashing
    | Resolving(store: Store)
    | Decoding(bytes: Bytes)
    | Assembling(proof: seq<Bytes>)

  ghost predicate Allowed(d: Deed) {
    d.Resolving? ==> Usable(d.store)
  }

  /**
   What a deed makes of a trie, with no caches in sight. An operation that is refused, and bytes that do
   not decode, leave the trie for further use; `None` is a panic.
   */
  function Outcome(H: Hasher, n: Node, d: Deed): (r: Option<Node>)
    requires Shaped(n) && Allowed(d)
    ensures r.Some? ==> Shaped(r.value)
  {
    match d
    case Inserting(k, v) => Some(Insert(n, k, v).node)
    case Deleting(k) => var s := Delete(n, k); if s.res == Err(Panic) then None else Some(s.node)
    case Clearing => Some(Null)
    case Copying => Some(n)
    case Hashing => Some(n)
    case Resolving(s) => Some(TrieResolve.ResolveNodes(s, n))
    case Decoding(b) => var x := Decode(b); if x.Ok? then Some(x.value) else Some(n)
    case Assembling(p) => var x := ParsedProof(p); if x.Ok? then Assembled(H, x.value) else Some(n)
  }

  function After(H: Hasher, n: Node, deeds: seq<Deed>): (r: Option<Node>)
    requires Shaped(n) && forall d :: d in deeds ==> Allowed(d)
    ensures r.Some? ==> Shaped(r.value)
    decreases |deeds|
  {
    if deeds == [] then Some(n)
    else
      var m := Outcome(H, n, deeds[0]);
      if m.None? then None else After(H, m.value, deeds[1..])
  }

  /** A trie resolved from a store of its own. */
  method ResolveFrom(H: Hasher, trie: MptNode, s: Store) returns (m: MptNode)
    requires trie.Valid(H) && Usable(s)
    ensures m.Valid(H) && m.node == TrieResolve.ResolveNodes(s, trie.node) && fresh(m.Repr)
  {
    var heap := BuildStore(H, s);
    m := trie.ResolveNodes(H, heap, s, Ceiling(s, trie.node));
  }

  method AssembleFrom(H: Hasher, values: seq<Node>) returns (m: MptNode?)
    requires AllShaped(values)
    ensures Assembled(H, values) == if m == null then None else Some(m.node)
    ensures m != null ==> m.Valid(H) && fresh(m.Repr)
  {
    var nodes := BuildAll(H, values);
    m := MptFromProof(H, nodes, values);
  }

  /** Deeds that change the trie in place. */
  method Change(ghost H: Hasher, trie: MptNode, d: Deed) returns (ok: bool)
    requires trie.Valid(H) && (d.Inserting? || d.Deleting? || d.Clearing?)
    modifies trie.Repr
    ensures ok ==> trie.Valid(H) && fresh(trie.Repr - old(trie.Repr))
    ensures Outcome(H, old(trie.node), d) == if ok then Some(trie.node) else None
  {
    if d.Inserting? {
      var _ := trie.InsertInternal(H, d.key, d.value);
      ok := true;
    } else if d.Deleting? {
      var res := trie.DeleteInternal(H, d.key);
      ok := res != Err(Panic);
    } else {
      trie.Clear(H);
      ok := true;
    }
  }

  /** Deeds that put another trie in its place. */
  method Replace(H: Hasher, trie: MptNode, d: Deed) returns (m: MptNode?)
    requires trie.Valid(H) && Allowed(d) && (d.Copying? || d.Resolving? || d.Decoding? || d.Assembling?)
    ensures m != null ==> m.Valid(H) && fresh(m.Repr - trie.Repr)
    ensures Outcome(H, trie.node, d) == if m == null then None else Some(m.node)
  {
    m := trie;
    if d.Copying? {
      m := trie.Clone(H);
    } else if d.Resolving? {
      m := ResolveFrom(H, trie, d.store);
    } else if d.Decoding? {
      var x := Decode(d.bytes);
      if x.Ok? { m := Build(H, x.value); }
    } else {
      var x := ParsedProof(d.proof);
      if x.Ok? { m := AssembleFrom(H, x.value); }
    }
  }

  /** One deed; null is a panic. */
  method Do(H: Hasher, trie: MptNode, d: Deed) returns (m: MptNode?)
    requires trie.Valid(H) && Allowed(d)
    modifies trie.Repr
    ensures m != null ==> m.Valid(H) && fresh(m.Repr - old(trie.Repr))
    ensures Outcome(H, old(trie.node), d) == if m == null then None else Some(m.node)
  {
    if d.Hashing? {
      var _ := trie.Hash(H);
      m := trie;
    } else if d.Inserting? || d.Deleting? || d.Clearing? {
      var ok := Change(H, trie, d);
      m := if ok then trie else null;
    } else {
      m := Replace(H, trie, d);
    }
  }

  /**
   A whole history of deeds of every kind, in any order, refused ones among them: caches are filled, copied
   along, grafted and dropped on the way, and the hash at the end is that of the plain specification.
   */
  method Replay(H: Hasher, deeds: seq<Deed>) returns (h: Option<Hash>)
    requires forall d :: d in deeds ==> Allowed(d)
    ensures h == match After(H, Null, deeds) case None => None case Some(n) => Some(HashOf(H, n))
  {
    var trie: MptNode := new MptNode.Empty(H);
    for i := 0 to |deeds|
      invariant trie.Valid(H) && fresh(trie.Repr)
      invariant After(H, trie.node, deeds[i..]) == After(H, Null, deeds)
    {
      assert deeds[i..][1..] == deeds[i + 1..] && deeds[i] in deeds;
      var m := Do(H, trie, deeds[i]);
      if m == null { return None; }
      trie := m;
    }
    assert deeds[|deeds|..] == [];
    var final := trie.Hash(H);
    h := Some(final);
  }
}
