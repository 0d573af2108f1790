/**
 Tries rebuilt from EIP-1186 proofs: assembling a proof, collecting proof nodes in a store, and
 recovering the sibling that a deletion merges away.
 */
module TrieProofs {
  import opened Prelude
  import opened HexPrefix
  import opened Rlp
  import opened Trie
  import opened TrieMap
  import opened TrieCodec
  import opened TrieResolve
  import opened TrieTruncation

  // ----- assembling one proof

  /** The proof node has a child that is the given digest. */
  predicate RefersTo(n: Node, d: Hash) {
    match n
    case Branch(ch) => Some(Digest(d)) in ch
    case Extension(_, c) => c == Digest(d)
    case _ => false
  }

  /** A proof node is followed by a node it refers to by hash. */
  predicate Linked(H: Hasher, parent: Node, child: Node)
    requires Shaped(child)
  {
    Ref(H, child).ByDigest? && RefersTo(parent, Ref(H, child).hash)
  }

  predicate AllShaped(nodes: seq<Node>) {
    forall n :: n in nodes ==> Shaped(n)
  }

  /** The first child, at or after `i`, that is the given digest. */
  function DigestPlace(ch: Children, d: Hash, i: nat): (r: Option<Nibble>)
    requires |ch| == 16 && i <= 16
    ensures r.Some? ==> ch[r.value] == Some(Digest(d))
    ensures r.None? ==> forall j :: i <= j < 16 ==> ch[j] != Some(Digest(d))
    decreases 16 - i
  {
    if i == 16 then None else if ch[i] == Some(Digest(d)) then Some(i) else DigestPlace(ch, d, i + 1)
  }

  /** The successor put in the place of the digest that refers to it; `None` is a panic. */
  function Grafted(H: Hasher, node: Node, replacement: Node): (r: Option<Node>)
    requires Shaped(node) && Shaped(replacement)
    ensures r.Some? ==> Shaped(r.value)
  {
    match Ref(H, replacement)
    case Inline(_) => None
    case ByDigest(d) =>
      match node
      case Branch(ch) =>
        var i := DigestPlace(ch, d, 0);
        if i.Some? then Some(WithChild(ch, i.value, replacement)) else None
      case Extension(p, c) => if c == Digest(d) then Some(Extension(p, replacement)) else None
      case _ => None
  }

  /** A whole proof put together, from its last node up. */
  function Assembled(H: Hasher, proof: seq<Node>): (r: Option<Node>)
    requires AllShaped(proof)
    ensures r.Some? ==> Shaped(r.value)
  {
    if proof == [] then Some(Null)
    else if |proof| == 1 then Some(proof[0])
    else
      var rest := Assembled(H, proof[1..]);
      if rest.None? then None else Grafted(H, proof[0], rest.value)
  }

  lemma {:induction false} GraftIntoBranch(H: Hasher, ch: Children, i: Nibble, child: Node)
    requires Shaped(Branch(ch)) && Shaped(child)
    requires ch[i].Some? && ch[i].value.Digest? && Ref(H, child) == ByDigest(ch[i].value.digest)
    ensures Ref(H, WithChild(ch, i, child)) == Ref(H, Branch(ch))
  {
    var ch' := ch[i := Some(child)];
    forall j | 0 <= j < 16 ensures PlaceItem(H, ch, j) == PlaceItem(H, ch', j) {}
    SameBranch(H, ch, ch');
  }

  lemma {:induction false} GraftBelowExtension(H: Hasher, p: Path, d: Hash, child: Node)
    requires Sound(p) && Shaped(child) && Ref(H, child) == ByDigest(d)
    ensures Ref(H, Extension(p, child)) == Ref(H, Extension(p, Digest(d)))
  {
    assert Ref(H, Digest(d)) == ByDigest(d);
    assert Encode(H, Extension(p, child)) == Encode(H, Extension(p, Digest(d)));
  }

  lemma {:induction false} GraftKeepsRef(H: Hasher, node: Node, replacement: Node)
    requires Shaped(node) && Shaped(replacement)
    ensures var r := Grafted(H, node, replacement);
            && (r.Some? <==> Linked(H, node, replacement))
            && (r.Some? ==> !r.value.Null? && Ref(H, r.value) == Ref(H, node))
  {
    var r := Grafted(H, node, replacement);
    if r.Some? {
      var d := Ref(H, replacement).hash;
      match node
      case Branch(ch) => GraftIntoBranch(H, ch, DigestPlace(ch, d, 0).value, replacement);
      case Extension(p, _) => GraftBelowExtension(H, p, d, replacement);
    }
  }

  /**
   Assembling panics exactly when some node is not followed by a node it refers to by hash;
   otherwise the trie has the reference and the hash of the first node.
   */
  lemma {:induction false} AssembledKeepsRoot(H: Hasher, proof: seq<Node>)
    requires AllShaped(proof) && proof != []
    ensures var r := Assembled(H, proof);
            && (r.Some? <==> forall i :: 0 <= i < |proof| - 1 ==> Linked(H, proof[i], proof[i + 1]))
            && (r.Some? ==> (r.value.Null? <==> proof[0].Null?))
            && (r.Some? ==> Ref(H, r.value) == Ref(H, proof[0]) && HashOf(H, r.value) == HashOf(H, proof[0]))
  {
    if |proof| > 1 {
      var tail := proof[1..];
      AssembledKeepsRoot(H, tail);
      var rest := Assembled(H, tail);
      assert proof[0] in proof && proof[1] == tail[0];
      if rest.Some? {
        GraftKeepsRef(H, proof[0], rest.value);
        forall i | 0 < i < |proof| - 1 ensures Linked(H, proof[i], proof[i + 1]) {
          assert Linked(H, tail[i - 1], tail[i]);
        }
      } else {
        var i :| 0 <= i < |tail| - 1 && !Linked(H, tail[i], tail[i + 1]);
        assert !Linked(H, proof[i + 1], proof[i + 2]);
      }
    }
  }

  lemma {:induction false} AssembledNeedsTail(H: Hasher, proof: seq<Node>, i: nat)
    requires AllShaped(proof) && i < |proof| && Assembled(H, proof[i..]).None?
    ensures Assembled(H, proof).None?
  {
    if i > 0 {
      assert proof[1..][i - 1..] == proof[i..];
      AssembledNeedsTail(H, proof[1..], i - 1);
    } else {
      assert proof[0..] == proof;
    }
  }

  // ----- orphans

  /** A leaf or an extension with another path. */
  function WithPath(n: Node, nibs: Nibbles): Node
    requires n.Leaf? || n.Extension?
  {
    if n.Leaf? then LeafAt(nibs, n.value) else ExtensionAt(nibs, n.child)
  }

  function ShortenedFrom(n: Node, nibs: Nibbles, i: nat): seq<Node>
    requires (n.Leaf? || n.Extension?) && i <= |nibs|
    decreases |nibs| - i
  {
    [WithPath(n, nibs[i..])] + if i == |nibs| then [] else ShortenedFrom(n, nibs, i + 1)
  }

  /** All nodes that can be made by shortening the path of a node. */
  function Shortened(n: Node): seq<Node> {
    if n.Leaf? || n.Extension? then ShortenedFrom(n, n.path.nibs, 0) else []
  }

  ghost function ShortenedRest(n: Node, nibs: Nibbles, i: nat): seq<Node>
    requires n.Leaf? || n.Extension?
  {
    if i <= |nibs| then ShortenedFrom(n, nibs, i) else []
  }

  method ShortenNodePath(node: Node) returns (res: seq<Node>)
    ensures res == Shortened(node)
  {
    res := [];
    if node.Leaf? || node.Extension? {
      var nibs := node.path.nibs;
      var i := 0;
      ghost var all := ShortenedFrom(node, nibs, 0);
      while i <= |nibs|
        invariant 0 <= i <= |nibs| + 1
        invariant res + ShortenedRest(node, nibs, i) == all
      {
        Regroup(res, [WithPath(node, nibs[i..])], ShortenedRest(node, nibs, i + 1));
        res := res + [WithPath(node, nibs[i..])];
        i := i + 1;
      }
    }
  }

  /** Every suffix of the path occurs, and nothing else does. */
  lemma {:induction false} ShortenedHas(n: Node, nibs: Nibbles, i: nat, j: nat)
    requires (n.Leaf? || n.Extension?) && i <= j <= |nibs|
    ensures WithPath(n, nibs[j..]) in ShortenedFrom(n, nibs, i)
    decreases j - i
  {
    if i < j { ShortenedHas(n, nibs, i + 1, j); }
  }

  lemma {:induction false} ShortenedOnly(n: Node, nibs: Nibbles, i: nat, m: Node) returns (j: nat)
    requires (n.Leaf? || n.Extension?) && i <= |nibs| && m in ShortenedFrom(n, nibs, i)
    ensures i <= j <= |nibs| && m == WithPath(n, nibs[j..])
    decreases |nibs| - i
  {
    if m == WithPath(n, nibs[i..]) { j := i; } else { j := ShortenedOnly(n, nibs, i + 1, m); }
  }

  /** The node at which a lookup ends: the last node of the key's proof. */
  function LookupEnd(n: Node, key: Nibbles): (r: Node)
    requires Shaped(n)
    ensures Shaped(r)
  {
    match n
    case Branch(ch) =>
      if key == [] || ch[key[0]].None? then n else LookupEnd(ch[key[0]].value, key[1..])
    case Extension(p, c) => if p.nibs <= key then LookupEnd(c, key[|p.nibs|..]) else n
    case _ => n
  }

  /** A canonical leaf or extension is found again after its path was made longer. */
  lemma {:induction false} SuffixRecovered(nibs: Nibbles, sib: Node)
    requires (sib.Leaf? || sib.Extension?) && sib == WithPath(sib, sib.path.nibs)
    ensures sib in Shortened(WithPath(sib, nibs + sib.path.nibs))
  {
    var n := WithPath(sib, nibs + sib.path.nibs);
    assert (nibs + sib.path.nibs)[|nibs|..] == sib.path.nibs;
    ShortenedHas(n, nibs + sib.path.nibs, 0, |nibs|);
  }

  /** Where a deletion collapses a branch, at the branch itself. */
  lemma {:induction false} OrphanAtBranch(ch: Children, key: Nibbles) returns (i: Nibble, sib: Node)
    requires Live(Branch(ch))
    requires key != [] && ch[key[0]].Some? && ch[key[0]].value.Leaf? && ch[key[0]].value.path.nibs == key[1..]
    requires LoneChild(ch[key[0] := None]).Some?
    requires LoneChild(ch[key[0] := None]).value.Leaf? || LoneChild(ch[key[0] := None]).value.Extension?
    ensures i != key[0] && LoneChild(ch[key[0] := None]) == Some(sib) && Live(sib)
    ensures Delete(Branch(ch), key) == Step(WithPath(sib, [i] + sib.path.nibs), Ok(true))
  {
    var rest := ch[key[0] := None];
    i := NextChild(rest, 0).value;
    assert rest[i] == ch[i];
    sib := ch[i].value;
    DeleteLeafInBranch(ch, key);
  }

  lemma {:induction false} LookupEndsHere(n: Node, nibs: Nibbles, key: Nibbles)
    requires Shaped(n) && (n.Leaf? || n.Extension?) && !(nibs <= key)
    ensures Shaped(WithPath(n, nibs)) && LookupEnd(WithPath(n, nibs), key) == WithPath(n, nibs)
  {
  }

  /**
   Orphan recovery: when a deletion collapses a branch onto a leaf or an extension, including the
   further merge into a parent extension, that sibling is among the shortened versions of the node
   at which a lookup of the deleted key now ends.
   */
  lemma {:induction false} OrphanRecovered(n: Node, key: Nibbles)
    requires Canonical(n) && Delete(n, key).res == Ok(true)
    requires LoneSibling(n, key).Some?
    requires LoneSibling(n, key).value.Leaf? || LoneSibling(n, key).value.Extension?
    ensures LoneSibling(n, key).value in Shortened(LookupEnd(Delete(n, key).node, key))
  {
    match n
    case Branch(ch) =>
      var c := ch[key[0]].value;
      if c.Leaf? && c.path.nibs == key[1..] {
        var i, sib := OrphanAtBranch(ch, key);
        SuffixRecovered([i], sib);
        LookupEndsHere(sib, [i] + sib.path.nibs, key);
      } else {
        DeleteDeeper(ch, key);
        DeleteResult(c, key[1..]);
        if Delete(c, key[1..]).res == Ok(true) {
          OnlyLeavesVanish(c, key[1..]);
          OrphanRecovered(c, key[1..]);
        }
      }
    case Extension(p, c) => OrphanBelowExtension(p, c.children, key);
    case _ =>
  }

  /** The merge of a merged sibling into a parent extension. */
  lemma {:induction false} MergedBelowExtension(p: Path, i: Nibble, sib: Node, key: Nibbles)
    requires Sound(p) && Live(sib) && (sib.Leaf? || sib.Extension?)
    requires p.nibs <= key && |p.nibs| < |key| && key[|p.nibs|] != i
    ensures var m := Rejoin(p, WithPath(sib, [i] + sib.path.nibs));
            LookupEnd(m, key) == m && sib in Shortened(m)
  {
    var nibs := p.nibs + [i] + sib.path.nibs;
    SuffixRecovered(p.nibs + [i], sib);
    assert p.nibs + ([i] + sib.path.nibs) == nibs;
    assert nibs[|p.nibs|] == i;
    LookupEndsHere(sib, nibs, key);
  }

  lemma {:induction false} OrphanBelowExtension(p: Path, ch: Children, key: Nibbles)
    requires Live(Extension(p, Branch(ch))) && p.nibs <= key && Delete(Branch(ch), key[|p.nibs|..]).res == Ok(true)
    requires LoneSibling(Branch(ch), key[|p.nibs|..]).Some?
    requires var sib := LoneSibling(Branch(ch), key[|p.nibs|..]).value; sib.Leaf? || sib.Extension?
    ensures LoneSibling(Branch(ch), key[|p.nibs|..]).value in
              Shortened(LookupEnd(Delete(Extension(p, Branch(ch)), key).node, key))
    decreases Branch(ch)
  {
    var k := key[|p.nibs|..];
    var c := ch[k[0]].value;
    if c.Leaf? && c.path.nibs == k[1..] {
      var i, sib := OrphanAtBranch(ch, k);
      MergedBelowExtension(p, i, sib, key);
    } else {
      DeleteDeeper(ch, k);
      DeleteResult(c, k[1..]);
      OrphanRecovered(Branch(ch), k);
      OrphanInKeptBranch(p, ch, key);
    }
  }

  lemma {:induction false} OrphanInKeptBranch(p: Path, ch: Children, key: Nibbles)
    requires Live(Extension(p, Branch(ch))) && p.nibs <= key && Delete(Branch(ch), key[|p.nibs|..]).res == Ok(true)
    requires var k := key[|p.nibs|..];
             k != [] && ch[k[0]].Some? && !(ch[k[0]].value.Leaf? && ch[k[0]].value.path.nibs == k[1..])
    ensures LookupEnd(Delete(Extension(p, Branch(ch)), key).node, key) ==
            LookupEnd(Delete(Branch(ch), key[|p.nibs|..]).node, key[|p.nibs|..])
  {
    var k := key[|p.nibs|..];
    var c := ch[k[0]].value;
    DeleteDeeper(ch, k);
    DeleteResult(c, k[1..]);
    OnlyLeavesVanish(c, k[1..]);
  }

  // ----- collecting nodes

  function ParsedProof(proof: seq<Bytes>): (r: Result<seq<Node>, RlpError>)
    ensures r.Ok? ==> |r.value| == |proof| && AllShaped(r.value)
  {
    if proof == [] then Ok([])
    else
      var d := Decode(proof[0]);
      if d.Err? then Err(d.error)
      else
        var rest := ParsedProof(proof[1..]);
        if rest.Err? then rest else Ok([d.value] + rest.value)
  }

  /** Every node stored under its own reference, one after the other. */
  function StoredAll(H: Hasher, nodes: map<Reference, Node>, list: seq<Node>): map<Reference, Node>
    requires AllShaped(list)
  {
    if list == [] then nodes
    else
      var most, n := list[..|list| - 1], list[|list| - 1];
      assert AllShaped(most) && n in list;
      StoredAll(H, nodes, most)[Ref(H, n) := n]
  }

  lemma {:induction false} StoredAllIs(H: Hasher, nodes: map<Reference, Node>, list: seq<Node>)
    requires KeyedByReference(H, nodes) && AllShaped(list)
    ensures var r := StoredAll(H, nodes, list);
            && KeyedByReference(H, r) && nodes.Keys <= r.Keys
            && (forall n :: n in list ==> Ref(H, n) in r)
            && (forall k :: k in r ==> (k in nodes && r[k] == nodes[k]) || r[k] in list)
  {
    if list != [] {
      var most, n := list[..|list| - 1], list[|list| - 1];
      assert list == most + [n] && n in list && AllShaped(most);
      StoredAllIs(H, nodes, most);
    }
  }

  /** Of several nodes with one reference the last is kept, and what was there before is kept unless replaced. */
  lemma {:induction false} LastIsKept(H: Hasher, nodes: map<Reference, Node>, list: seq<Node>, i: nat, k: Reference)
    requires AllShaped(list) && i <= |list| && forall j :: i <= j < |list| ==> list[j] in list && Ref(H, list[j]) != k
    ensures var r := StoredAll(H, nodes, list);
            && (i == 0 ==> (k in r <==> k in nodes) && (k in nodes ==> r[k] == nodes[k]))
            && (i > 0 && list[i - 1] in list && Ref(H, list[i - 1]) == k ==> k in r && r[k] == list[i - 1])
    decreases |list|
  {
    if i < |list| {
      var most := list[..|list| - 1];
      assert forall j :: i <= j < |most| ==> most[j] == list[j] && most[j] in most;
      if i > 0 { assert most[i - 1] == list[i - 1] && most[i - 1] in most; }
      LastIsKept(H, nodes, most, i, k);
    }
  }

  method StoreNodes(H: Hasher, nodes: map<Reference, Node>, list: seq<Node>) returns (r: map<Reference, Node>)
    requires AllShaped(list)
    ensures r == StoredAll(H, nodes, list)
  {
    r := nodes;
    for i := 0 to |list|
      invariant AllShaped(list[..i]) && r == StoredAll(H, nodes, list[..i])
    {
      assert list[i] in list && list[..i + 1] == list[..i] + [list[i]] && list[..i + 1][..i] == list[..i];
      r := r[Ref(H, list[i]) := list[i]];
    }
    assert list[..|list|] == list;
  }

  lemma {:induction false} ShortenedShaped(n: Node)
    requires Shaped(n)
    ensures AllShaped(Shortened(n))
  {
    forall m | m in Shortened(n) ensures Shaped(m) { var i := ShortenedOnly(n, n.path.nibs, 0, m); }
  }

  /** What a parsed proof says about a key; `None` where the program fails or panics. */
  ghost function ProofAnswer(H: Hasher, key: Bytes, proof: seq<Bytes>): Option<Option<Bytes>> {
    var nodes := ParsedProof(proof);
    if nodes.Err? then None
    else
      var trie := Assembled(H, nodes.value);
      if trie.None? then None
      else
        var value := Get(trie.value, NibblesOf(H(key)));
        if value.Err? then None else Some(value.value)
  }

  /**
   `add_orphaned_leafs`: nothing for an empty proof or one that shows the key; for a proof that the key is
   absent, all shortened versions of its last node are stored under their own references; and for any
   other proof it fails or panics.
   */
  method AddOrphanedLeafs(H: Hasher, key: Bytes, proof: seq<Bytes>, nodes: map<Reference, Node>)
    returns (r: Option<map<Reference, Node>>)
    ensures r.Some? <==> proof == [] || ProofAnswer(H, key, proof).Some?
    ensures r.Some? && (proof == [] || ProofAnswer(H, key, proof) != Some(None)) ==> r.value == nodes
    ensures proof != [] && ProofAnswer(H, key, proof) == Some(None) ==>
              var last := ParsedProof(proof).value[|proof| - 1];
              Shaped(last) && AllShaped(Shortened(last)) && r == Some(StoredAll(H, nodes, Shortened(last)))
  {
    if proof == [] { return Some(nodes); }
    var parsed := ParsedProof(proof);
    if parsed.Err? { return None; }
    var trie := Assembled(H, parsed.value);
    if trie.None? { return None; }
    var value := Get(trie.value, NibblesOf(H(key)));
    if value.Err? { return None; }
    if value.value.Some? { return Some(nodes); }
    var leaf := parsed.value[|proof| - 1];
    assert leaf in parsed.value;
    ShortenedShaped(leaf);
    var shortened := ShortenNodePath(leaf);
    var res := StoreNodes(H, nodes, shortened);
    r := Some(res);
  }
}
