/**
 The proof that a node gives for a key, as EIP-1186 describes it, and what becomes of it when it is
 parsed and put together: it answers as the trie does, exactly if nothing on its way has a twin.
 */
module HonestProofs {
  import opened Prelude
  import opened HexPrefix
  import opened Rlp
  import opened Trie
  import opened TrieMap
  import opened TrieUnique
  import opened TrieCodec
  import opened TrieFidelity
  import opened TrieProofs

  // ----- small nodes are whole

  lemma {:induction false} ChildLengthsAtLeast(H: Hasher, ch: Children, i: nat, j: nat)
    requires ShapedAll(ch) && i <= j < |ch| && ch[j].Some?
    ensures ChildLengths(H, ch, i) >= RefLength(Ref(H, ch[j].value))
    decreases j - i
  {
    if i < j { ChildLengthsAtLeast(H, ch, i + 1, j); }
  }

  /** A node with a child that is referenced by hash is itself too long to be inlined. */
  lemma {:induction false} BigBranch(H: Hasher, ch: Children, j: Nibble)
    requires Shaped(Branch(ch)) && ch[j].Some? && Ref(H, ch[j].value).ByDigest?
    ensures Ref(H, Branch(ch)).ByDigest?
  {
    ChildLengthsAtLeast(H, ch, 0, j);
    LengthIsExact(H, Branch(ch));
  }

  lemma {:induction false} BigExtension(H: Hasher, p: Path, c: Node)
    requires Shaped(Extension(p, c)) && Ref(H, c).ByDigest?
    ensures Ref(H, Extension(p, c)).ByDigest?
  {
    LengthIsExact(H, Extension(p, c));
  }

  /** What is inlined is written whole, and so read back whole. */
  lemma {:induction false} InlineIsWhole(H: Hasher, n: Node)
    requires Shaped(n) && Ref(H, n).Inline?
    ensures Shallow(H, n) == n
  {
    match n
    case Branch(ch) =>
      forall j | 0 <= j < 16 ensures ShallowChildren(H, ch, 0)[j] == ch[j] {
        ShallowChildrenAt(H, ch, 0, j);
        if ch[j].Some? {
          if Ref(H, ch[j].value).ByDigest? { BigBranch(H, ch, j); }
          InlineIsWhole(H, ch[j].value);
        }
      }
    case Extension(p, c) =>
      if Ref(H, c).ByDigest? { BigExtension(H, p, c); }
      InlineIsWhole(H, c);
    case _ =>
  }

  // ----- the nodes of a proof

  /** The nodes on the way of a lookup that are referenced by hash; below an inlined node there are none. */
  function PathNodes(H: Hasher, n: Node, key: Nibbles): (r: seq<Node>)
    requires Shaped(n)
    ensures r != [] && r[0] == n && AllShaped(r)
  {
    match n
    case Branch(ch) =>
      if key == [] || ch[key[0]].None? || Ref(H, ch[key[0]].value).Inline? then [n]
      else [n] + PathNodes(H, ch[key[0]].value, key[1..])
    case Extension(p, c) =>
      if !(p.nibs <= key) || Ref(H, c).Inline? then [n] else [n] + PathNodes(H, c, key[|p.nibs|..])
    case _ => [n]
  }

  function Encodings(H: Hasher, nodes: seq<Node>): (r: seq<Bytes>)
    requires AllShaped(nodes)
    ensures |r| == |nodes|
  {
    if nodes == [] then []
    else
      assert nodes[0] in nodes;
      [Encode(H, nodes[0])] + Encodings(H, nodes[1..])
  }

  function Shallows(H: Hasher, nodes: seq<Node>): (r: seq<Node>)
    requires AllShaped(nodes)
    ensures |r| == |nodes| && AllShaped(r)
  {
    if nodes == [] then []
    else
      assert nodes[0] in nodes;
      [Shallow(H, nodes[0])] + Shallows(H, nodes[1..])
  }

  /**
   The proof for a key. For the empty trie this is the one node that encodes it; a server may send no node
   instead, and as proofs of absence both add nothing to the store (`EmptyTrieAddsNothing`).
   */
  function HonestProof(H: Hasher, n: Node, key: Nibbles): seq<Bytes>
    requires Shaped(n)
  {
    Encodings(H, PathNodes(H, n, key))
  }

  /** All encodings fit in memory. */
  ghost predicate Small(H: Hasher, nodes: seq<Node>)
    requires AllShaped(nodes)
  {
    forall x :: x in nodes ==> |Encode(H, x)| < WORD
  }

  lemma {:induction false} ParsedEncodings(H: Hasher, nodes: seq<Node>)
    requires AllShaped(nodes) && Small(H, nodes) && forall x :: x in nodes ==> Telling(x)
    ensures ParsedProof(Encodings(H, nodes)) == Ok(Shallows(H, nodes))
    decreases |nodes|
  {
    if nodes != [] {
      assert nodes[0] in nodes;
      DecodeEncode(H, nodes[0]);
      ParsedEncodings(H, nodes[1..]);
      assert Encodings(H, nodes)[1..] == Encodings(H, nodes[1..]);
    }
  }

  lemma {:induction false} PathIsTelling(H: Hasher, n: Node, key: Nibbles)
    requires Telling(n)
    ensures forall x :: x in PathNodes(H, n, key) ==> Telling(x)
  {
    match n
    case Branch(ch) =>
      if key != [] && ch[key[0]].Some? { PathIsTelling(H, ch[key[0]].value, key[1..]); }
    case Extension(p, c) =>
      if p.nibs <= key { PathIsTelling(H, c, key[|p.nibs|..]); }
    case _ =>
  }

  // ----- putting it together again

  /** On the way of the lookup, no branch has an earlier child with the reference of the one that is taken. */
  ghost predicate NoTwin(H: Hasher, n: Node, key: Nibbles)
    requires Shaped(n)
  {
    match n
    case Branch(ch) =>
      key != [] && ch[key[0]].Some? && Ref(H, ch[key[0]].value).ByDigest? ==>
        && (forall j :: 0 <= j < key[0] && ch[j].Some? ==> Ref(H, ch[j].value) != Ref(H, ch[key[0]].value))
        && NoTwin(H, ch[key[0]].value, key[1..])
    case Extension(p, c) => p.nibs <= key && Ref(H, c).ByDigest? ==> NoTwin(H, c, key[|p.nibs|..])
    case _ => true
  }

  lemma {:induction false} ShallowPlaceIs(H: Hasher, ch: Children, j: Nibble, d: Hash)
    requires Shaped(Branch(ch))
    ensures ShallowChildren(H, ch, 0)[j] == Some(Digest(d)) <==> ch[j].Some? && Ref(H, ch[j].value) == ByDigest(d)
  {
    ShallowChildrenAt(H, ch, 0, j);
    if ch[j].Some? && Ref(H, ch[j].value).Inline? { InlineIsWhole(H, ch[j].value); }
  }

  /** The place that is found is the first with the reference. */
  lemma {:induction false} PlaceFound(H: Hasher, ch: Children, i: Nibble, d: Hash) returns (j: Nibble)
    requires Shaped(Branch(ch)) && ch[i].Some? && Ref(H, ch[i].value) == ByDigest(d)
    ensures DigestPlace(ShallowChildren(H, ch, 0), d, 0) == Some(j) && j <= i
    ensures j == i <==> forall k :: 0 <= k < i && ch[k].Some? ==> Ref(H, ch[k].value) != ByDigest(d)
  {
    var place := DigestPlace(ShallowChildren(H, ch, 0), d, 0);
    ShallowPlaceIs(H, ch, i, d);
    j := place.value;
    ShallowPlaceIs(H, ch, j, d);
    forall k: Nibble | k < j ensures !(ch[k].Some? && Ref(H, ch[k].value) == ByDigest(d)) {
      FirstPlace(ShallowChildren(H, ch, 0), d, 0, k);
      ShallowPlaceIs(H, ch, k, d);
    }
  }

  lemma {:induction false} FirstPlace(ch: Children, d: Hash, i: nat, k: Nibble)
    requires |ch| == 16 && i <= k && DigestPlace(ch, d, i).Some? && k < DigestPlace(ch, d, i).value
    ensures ch[k] != Some(Digest(d))
    decreases 16 - i
  {
    if i < k { FirstPlace(ch, d, i + 1, k); }
  }

  ghost function Rebuilt(H: Hasher, n: Node, key: Nibbles): Option<Node>
    requires Shaped(n)
  {
    Assembled(H, Shallows(H, PathNodes(H, n, key)))
  }

  lemma {:induction false} RebuiltStep(H: Hasher, n: Node, c: Node, key: Nibbles, rest: Nibbles)
    requires Shaped(n) && Shaped(c) && PathNodes(H, n, key) == [n] + PathNodes(H, c, rest)
    ensures Rebuilt(H, n, key) ==
            if Rebuilt(H, c, rest).None? then None else Grafted(H, Shallow(H, n), Rebuilt(H, c, rest).value)
  {
    var tail := PathNodes(H, c, rest);
    assert ([n] + tail)[1..] == tail;
    var all := Shallows(H, [n] + tail);
    assert all == [Shallow(H, n)] + Shallows(H, tail) && all[1..] == Shallows(H, tail);
  }

  /** Where the proof ends, its last node answers for the rest of the key. */
  lemma {:induction false} LastAnswers(H: Hasher, n: Node, key: Nibbles)
    requires Shaped(n) && Resolved(n) && PathNodes(H, n, key) == [n]
    ensures Get(Shallow(H, n), key) == Get(n, key) && Get(n, key).Ok? && NoTwin(H, n, key)
  {
    ResolvedLookup(n, key);
    match n
    case Branch(ch) =>
      if key != [] {
        ShallowChildrenAt(H, ch, 0, key[0]);
        if ch[key[0]].Some? { InlineIsWhole(H, ch[key[0]].value); }
      }
    case Extension(p, c) =>
      if p.nibs <= key { InlineIsWhole(H, c); }
    case _ =>
  }

  lemma {:induction false} AnswerInBranch(H: Hasher, ch: Children, key: Nibbles, q: Node)
    requires Shaped(Branch(ch)) && key != [] && ch[key[0]].Some? && Shaped(q)
    requires Ref(H, ch[key[0]].value).ByDigest? && Ref(H, q) == Ref(H, ch[key[0]].value)
    ensures var p := Grafted(H, Shallow(H, Branch(ch)), q);
            && p.Some?
            && (if forall j :: 0 <= j < key[0] && ch[j].Some? ==> Ref(H, ch[j].value) != Ref(H, ch[key[0]].value)
                then Get(p.value, key) == Get(q, key[1..]) else Get(p.value, key).Err?)
  {
    var d := Ref(H, q).hash;
    var j := PlaceFound(H, ch, key[0], d);
    ShallowPlaceIs(H, ch, key[0], d);
  }

  /**
   The proof for a key always goes together again, to a trie with the root of the original; and that trie
   answers for the key, and as the original does, exactly if there is no twin on the way.
   */
  lemma {:induction false} HonestAnswer(H: Hasher, n: Node, key: Nibbles)
    requires Shaped(n) && Resolved(n)
    ensures var p := Rebuilt(H, n, key);
            && p.Some? && Ref(H, p.value) == Ref(H, n)
            && (Get(p.value, key).Ok? <==> NoTwin(H, n, key))
            && (NoTwin(H, n, key) ==> Get(p.value, key) == Get(n, key))
  {
    if |PathNodes(H, n, key)| == 1 {
      assert PathNodes(H, n, key) == [n];
      assert [n][1..] == [];
      LastAnswers(H, n, key);
      ShallowSameBytes(H, n);
    } else if n.Branch? {
      var c, rest := n.children[key[0]].value, key[1..];
      HonestAnswer(H, c, rest);
      RebuiltStep(H, n, c, key, rest);
      AnswerInBranch(H, n.children, key, Rebuilt(H, c, rest).value);
      GraftKeepsRef(H, Shallow(H, n), Rebuilt(H, c, rest).value);
      ShallowSameBytes(H, n);
    } else {
      var c, rest := n.child, key[|n.path.nibs|..];
      HonestAnswer(H, c, rest);
      RebuiltStep(H, n, c, key, rest);
      GraftKeepsRef(H, Shallow(H, n), Rebuilt(H, c, rest).value);
      ShallowSameBytes(H, n);
    }
  }

  /**
   Completeness of proofs: for every canonical trie, the encoded proof for a key is parsed, goes together
   to a trie with the same root, and says of the key what the trie says, exactly if there is no twin.
   */
  lemma {:induction false} ProofsAreComplete(H: Hasher, n: Node, bytes: Bytes)
    requires Canonical(n) && Resolved(n) && Small(H, PathNodes(H, n, NibblesOf(H(bytes))))
    ensures var key := NibblesOf(H(bytes));
            var nodes := ParsedProof(HonestProof(H, n, key));
            && nodes == Ok(Shallows(H, PathNodes(H, n, key)))
            && Assembled(H, nodes.value).Some? && Ref(H, Assembled(H, nodes.value).value) == Ref(H, n)
            && Get(n, key).Ok?
            && ProofAnswer(H, bytes, HonestProof(H, n, key)) ==
               if NoTwin(H, n, key) then Some(Get(n, key).value) else None
  {
    var key := NibblesOf(H(bytes));
    CanonicalIsTelling(n);
    PathIsTelling(H, n, key);
    ParsedEncodings(H, PathNodes(H, n, key));
    HonestAnswer(H, n, key);
    ResolvedLookup(n, key);
  }

  /** The proof of absence from the empty trie is read back, and has nothing to shorten. */
  lemma {:induction false} EmptyTrieAddsNothing(H: Hasher, bytes: Bytes, nodes: map<Reference, Node>)
    ensures var proof := HonestProof(H, Null, NibblesOf(H(bytes)));
            && proof == [EMPTY_STRING] && ProofAnswer(H, bytes, proof) == Some(None)
            && ParsedProof(proof) == Ok([Null]) && StoredAll(H, nodes, Shortened(Null)) == nodes
  {
    var key := NibblesOf(H(bytes));
    assert PathNodes(H, Null, key) == [Null] && [Null][1..] == [];
    ProofsAreComplete(H, Null, bytes);
    assert Shallows(H, [Null]) == [Null];
  }

  lemma {:induction false} LongLeafIsHashed(H: Hasher, nibs: Nibbles, value: Bytes)
    requires |value| >= 32
    ensures Ref(H, LeafAt(nibs, value)).ByDigest?
  {
    LengthIsExact(H, LeafAt(nibs, value));
  }

  /**
   Two equal leaves under one branch: the proof for the second opens the first. This can happen to every
   hashed key whose first nibble is not zero.
   */
  lemma {:induction false} TwinsAreConfused(H: Hasher, hash: Hash) returns (n: Node, key: Nibbles)
    requires hash[0] >= 16
    ensures Canonical(n) && Resolved(n) && key == NibblesOf(hash) && |key| == 64 && Holds(n, key)
    ensures !NoTwin(H, n, key) && Rebuilt(H, n, key).Some? && Get(Rebuilt(H, n, key).value, key).Err?
  {
    key := NibblesOf(hash);
    var i, leaf := key[0], LeafAt(key[1..], hash);
    assert i == hash[0] / 16;
    n := TwoChildren(0, leaf, i, leaf);
    LiveTwoChildren(0, leaf, i, leaf);
    ResolvedFork([], 0, leaf, i, leaf);
    GetTwoChildren(0, leaf, i, leaf, key);
    LongLeafIsHashed(H, key[1..], hash);
    assert n.children[0] == Some(leaf) && n.children[i] == Some(leaf);
    HonestAnswer(H, n, key);
  }
}
