/**
 A root hash binds the contents: two tries with the same hash, however differently truncated, give
 the same answer to every lookup that both can answer. So an answer read from a proof is the true one.
 */
module TrieBinding {
  import opened Prelude
  import opened HexPrefix
  import opened Rlp
  import opened Trie
  import opened TrieCodec
  import opened TrieFidelity
  import opened TrieProofs
  import opened TrieUnique

  /** The encodings of a node and of all nodes below it. */
  function Encodings(H: Hasher, n: Node): (r: set<Bytes>)
    requires Shaped(n)
    ensures n.Leaf? || n.Branch? || n.Extension? ==> Encode(H, n) in r
    decreases n, 1
  {
    match n
    case Branch(ch) => {Encode(H, n)} + EncodingsFrom(H, ch, 0)
    case Leaf(_, _) => {Encode(H, n)}
    case Extension(_, c) => {Encode(H, n)} + Encodings(H, c)
    case _ => {}
  }

  function EncodingsFrom(H: Hasher, ch: Children, i: nat): (r: set<Bytes>)
    requires ShapedAll(ch) && i <= |ch|
    decreases Branch(ch), 0, |ch| - i
  {
    if i == |ch| then {}
    else (if ch[i].None? then {} else Encodings(H, ch[i].value)) + EncodingsFrom(H, ch, i + 1)
  }

  lemma {:induction false} EncodingsAt(H: Hasher, ch: Children, i: nat)
    requires ShapedAll(ch) && i < |ch|
    ensures EncodingsFrom(H, ch, i + 1) <= EncodingsFrom(H, ch, i)
    ensures ch[i].Some? ==> Encodings(H, ch[i].value) <= EncodingsFrom(H, ch, i)
  {
  }

  lemma {:induction false} EncodingsOfChild(H: Hasher, ch: Children, i: nat, j: nat)
    requires ShapedAll(ch) && i <= j < |ch| && ch[j].Some?
    ensures Encodings(H, ch[j].value) <= EncodingsFrom(H, ch, i)
    decreases j - i
  {
    EncodingsAt(H, ch, i);
    if i < j { EncodingsOfChild(H, ch, i + 1, j); }
  }

  /** The hash function has no collision among these byte strings, and all of them fit in memory. */
  ghost predicate Separates(H: Hasher, s: set<Bytes>) {
    && (forall x, y :: x in s && y in s && H(x) == H(y) ==> x == y)
    && (forall x :: x in s ==> |x| < WORD)
  }

  predicate Solid(n: Node) {
    n.Leaf? || n.Branch? || n.Extension?
  }

  lemma {:induction false} SameRefSameBytes(H: Hasher, s: set<Bytes>, a: Node, b: Node)
    requires Shaped(a) && Shaped(b) && Solid(a) && Solid(b)
    requires Encode(H, a) in s && Encode(H, b) in s && Separates(H, s)
    ensures Ref(H, a) == Ref(H, b) ==> Encode(H, a) == Encode(H, b)
    ensures HashOf(H, a) == HashOf(H, b) ==> Encode(H, a) == Encode(H, b)
  {
  }

  /** The same bytes are the same node, up to truncation. */
  lemma {:induction false} SameBytesSameShallow(H: Hasher, a: Node, b: Node)
    requires Telling(a) && Telling(b) && |Encode(H, a)| < WORD && Encode(H, a) == Encode(H, b)
    ensures Shallow(H, a) == Shallow(H, b)
  {
    DecodeEncode(H, a);
    DecodeEncode(H, b);
  }

  lemma {:induction false} SameShallowChildren(H: Hasher, x: Children, y: Children, i: Nibble)
    requires Shaped(Branch(x)) && Shaped(Branch(y)) && Shallow(H, Branch(x)) == Shallow(H, Branch(y))
    ensures x[i].Some? == y[i].Some?
    ensures x[i].Some? ==> Ref(H, x[i].value) == Ref(H, y[i].value)
  {
    ShallowChildrenAt(H, x, 0, i);
    ShallowChildrenAt(H, y, 0, i);
    assert ShallowPlace(H, x, i) == ShallowPlace(H, y, i);
    if x[i].Some? {
      ShallowChildSameRef(H, x[i].value);
      ShallowChildSameRef(H, y[i].value);
    }
  }

  lemma {:induction false} SameBytesSameAnswers(H: Hasher, s: set<Bytes>, a: Node, b: Node, key: Nibbles)
    requires Telling(a) && Telling(b) && Solid(a) && Solid(b)
    requires Encodings(H, a) <= s && Encodings(H, b) <= s && Separates(H, s)
    requires Encode(H, a) == Encode(H, b)
    requires Get(a, key).Ok? && Get(b, key).Ok?
    ensures Get(a, key) == Get(b, key)
    decreases a
  {
    SameBytesSameShallow(H, a, b);
    match a
    case Branch(x) =>
      if key != [] {
        var y := b.children;
        SameShallowChildren(H, x, y, key[0]);
        if x[key[0]].Some? {
          EncodingsOfChild(H, x, 0, key[0]);
          EncodingsOfChild(H, y, 0, key[0]);
          var c, d := x[key[0]].value, y[key[0]].value;
          SameRefSameBytes(H, s, c, d);
          SameBytesSameAnswers(H, s, c, d, key[1..]);
        }
      }
    case Leaf(_, _) =>
    case Extension(p, c) =>
      var d := b.child;
      ShallowChildSameRef(H, c);
      ShallowChildSameRef(H, d);
      if p.nibs <= key {
        SameRefBelow(H, s, c, d);
        if Solid(c) { SameBytesSameAnswers(H, s, c, d, key[|p.nibs|..]); }
      }
  }

  /** A child that answers is solid or empty, and its twin is the same. */
  lemma {:induction false} SameRefBelow(H: Hasher, s: set<Bytes>, a: Node, b: Node)
    requires Telling(a) && Telling(b) && !a.Digest? && !b.Digest? && Ref(H, a) == Ref(H, b)
    requires Encodings(H, a) <= s && Encodings(H, b) <= s && Separates(H, s)
    ensures Solid(a) <==> Solid(b)
    ensures Solid(a) ==> Encode(H, a) == Encode(H, b)
  {
    if Solid(a) && Solid(b) {
      SameRefSameBytes(H, s, a, b);
    } else if Solid(a) {
      ListIsItem(H, a);
    } else if Solid(b) {
      ListIsItem(H, b);
    }
  }

  /** All byte strings whose hashes the comparison of two tries relies on. */
  function Compared(H: Hasher, a: Node, b: Node): set<Bytes>
    requires Shaped(a) && Shaped(b)
  {
    Encodings(H, a) + Encodings(H, b) + {EMPTY_STRING}
  }

  lemma {:induction false} NotEmptyRoot(H: Hasher, n: Node)
    requires Shaped(n) && Solid(n) && H(EMPTY_STRING) == EMPTY_ROOT
    requires Separates(H, Encodings(H, n) + {EMPTY_STRING})
    ensures HashOf(H, n) != EMPTY_ROOT
  {
    ListIsItem(H, n);
  }

  /**
   A root hash binds the contents: tries with the same hash agree wherever both can answer, provided
   the hash function has no collision among the encodings that occur in them.
   */
  lemma {:induction false} RootBindsContents(H: Hasher, a: Node, b: Node, key: Nibbles)
    requires Telling(a) && Telling(b) && HashOf(H, a) == HashOf(H, b)
    requires H(EMPTY_STRING) == EMPTY_ROOT && Separates(H, Compared(H, a, b))
    requires Get(a, key).Ok? && Get(b, key).Ok?
    ensures Get(a, key) == Get(b, key)
  {
    if Solid(a) && Solid(b) {
      SameRefSameBytes(H, Compared(H, a, b), a, b);
      SameBytesSameAnswers(H, Compared(H, a, b), a, b, key);
    } else if Solid(a) {
      NotEmptyRoot(H, a);
    } else if Solid(b) {
      NotEmptyRoot(H, b);
    }
  }

  /** For resolved canonical tries: same hash, same contents and same trie are one and the same. */
  lemma {:induction false} RootIsFaithful(H: Hasher, a: Node, b: Node)
    requires Canonical(a) && Resolved(a) && Canonical(b) && Resolved(b)
    requires H(EMPTY_STRING) == EMPTY_ROOT && Separates(H, Compared(H, a, b))
    ensures HashOf(H, a) == HashOf(H, b) <==> SameContents(a, b)
    ensures SameContents(a, b) <==> a == b
  {
    OneShapePerMap(a, b);
    CanonicalIsTelling(a);
    CanonicalIsTelling(b);
    if HashOf(H, a) == HashOf(H, b) {
      forall q ensures Get(a, q) == Get(b, q) {
        ResolvedLookup(a, q);
        ResolvedLookup(b, q);
        RootBindsContents(H, a, b, q);
      }
    }
  }

  // ----- proofs

  lemma {:induction false} GraftedIsTelling(H: Hasher, node: Node, replacement: Node)
    requires Telling(node) && Telling(replacement) && Grafted(H, node, replacement).Some?
    ensures Telling(Grafted(H, node, replacement).value)
  {
    assert !replacement.Null?;
  }

  lemma {:induction false} AssembledIsTelling(H: Hasher, nodes: seq<Node>)
    requires AllShaped(nodes) && Assembled(H, nodes).Some?
    requires forall n :: n in nodes ==> Telling(n)
    ensures Telling(Assembled(H, nodes).value)
  {
    if |nodes| == 1 {
      assert nodes[0] in nodes;
    } else if |nodes| > 1 {
      assert nodes[0] in nodes;
      AssembledIsTelling(H, nodes[1..]);
      GraftedIsTelling(H, nodes[0], Assembled(H, nodes[1..]).value);
    }
  }

  lemma {:induction false} ParsedIsTelling(proof: seq<Bytes>)
    requires ParsedProof(proof).Ok?
    ensures forall n :: n in ParsedProof(proof).value ==> Telling(n)
  {
    if proof != [] {
      DecodedIsTelling(proof[0]);
      ParsedIsTelling(proof[1..]);
    }
  }

  /**
   An answer read from a proof, inclusion or exclusion, is the answer of every trie with the same root:
   the bytes of the proof may come from anywhere.
   */
  lemma {:induction false} ProofAnswersAreTrue(H: Hasher, proof: seq<Bytes>, trie: Node, key: Nibbles)
    requires ParsedProof(proof).Ok? && Assembled(H, ParsedProof(proof).value).Some?
    requires Telling(trie)
    requires var p := Assembled(H, ParsedProof(proof).value).value;
             && HashOf(H, p) == HashOf(H, trie)
             && H(EMPTY_STRING) == EMPTY_ROOT && Separates(H, Compared(H, p, trie))
             && Get(p, key).Ok? && Get(trie, key).Ok?
    ensures Get(Assembled(H, ParsedProof(proof).value).value, key) == Get(trie, key)
  {
    ParsedIsTelling(proof);
    AssembledIsTelling(H, ParsedProof(proof).value);
    RootBindsContents(H, Assembled(H, ParsedProof(proof).value).value, trie, key);
  }
}
