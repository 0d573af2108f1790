/** The digests in a trie: insertion and deletion move them about and add none. */
module TrieDigests {
  import opened Prelude
  import opened HexPrefix
  import opened Trie

  /** Every digest in the trie is one of the given. */
  ghost predicate AllDigests(n: Node, ds: iset<Hash>) {
    match n
    case Branch(ch) => forall i :: 0 <= i < |ch| && ch[i].Some? ==> AllDigests(ch[i].value, ds)
    case Extension(_, c) => AllDigests(c, ds)
    case Digest(d) => d in ds
    case _ => true
  }

  lemma {:induction false} DigestsWithChild(ch: Children, i: Nibble, c: Option<Node>, ds: iset<Hash>)
    requires |ch| == 16 && AllDigests(Branch(ch), ds) && (c.Some? ==> AllDigests(c.value, ds))
    ensures AllDigests(Branch(ch[i := c]), ds)
  {
  }

  lemma {:induction false} DigestsInFork(nibs: Nibbles, i: Nibble, a: Node, j: Nibble, b: Node, ds: iset<Hash>)
    requires AllDigests(a, ds) && AllDigests(b, ds)
    ensures AllDigests(Under(nibs, TwoChildren(i, a, j, b)), ds)
  {
    DigestsWithChild(NO_CHILDREN, i, Some(a), ds);
    DigestsWithChild(NO_CHILDREN[i := Some(a)], j, Some(b), ds);
  }

  lemma {:induction false} InsertKeepsDigests(n: Node, key: Nibbles, value: Bytes, ds: iset<Hash>)
    requires Shaped(n) && AllDigests(n, ds)
    ensures AllDigests(Insert(n, key, value).node, ds)
  {
    match n
    case Branch(ch) =>
      if key != [] {
        if ch[key[0]].Some? { InsertKeepsDigests(ch[key[0]].value, key[1..], value, ds); }
        var c := if ch[key[0]].Some? then Insert(ch[key[0]].value, key[1..], value).node else LeafAt(key[1..], value);
        DigestsWithChild(ch, key[0], Some(c), ds);
      }
    case Leaf(p, v) =>
      var c := CommonLen(p.nibs, key);
      if c < |p.nibs| && c < |key| {
        DigestsInFork(p.nibs[..c], p.nibs[c], LeafAt(p.nibs[c + 1..], v), key[c], LeafAt(key[c + 1..], value), ds);
      }
    case Extension(p, child) =>
      var c := CommonLen(p.nibs, key);
      if c == |p.nibs| {
        InsertKeepsDigests(child, key[c..], value, ds);
      } else if c < |key| {
        DigestsInFork(p.nibs[..c], p.nibs[c], Under(p.nibs[c + 1..], child), key[c], LeafAt(key[c + 1..], value), ds);
      }
    case _ =>
  }

  lemma {:induction false} CollapseKeepsDigests(ch: Children, ds: iset<Hash>)
    requires |ch| == 16 && Shaped(Branch(ch)) && AllDigests(Branch(ch), ds)
    ensures AllDigests(Collapse(ch).node, ds)
  {
    var first := NextChild(ch, 0);
    if first.Some? { assert AllDigests(ch[first.value].value, ds); }
  }

  /** A lookup fails only at a digest of the trie, and names it. */
  lemma {:induction false} FailureIsDigest(n: Node, key: Nibbles, ds: iset<Hash>)
    requires Shaped(n) && AllDigests(n, ds) && Get(n, key).Err?
    ensures Get(n, key).error.NodeNotResolved? && Get(n, key).error.digest in ds
  {
    match n
    case Branch(ch) => FailureIsDigest(ch[key[0]].value, key[1..], ds);
    case Extension(p, c) => FailureIsDigest(c, key[|p.nibs|..], ds);
    case _ =>
  }

  lemma {:induction false} DeleteKeepsDigests(n: Node, key: Nibbles, ds: iset<Hash>)
    requires Shaped(n) && AllDigests(n, ds)
    ensures AllDigests(Delete(n, key).node, ds)
  {
    match n
    case Branch(ch) =>
      if key != [] && ch[key[0]].Some? {
        var c := ch[key[0]].value;
        DeleteKeepsDigests(c, key[1..], ds);
        var s := Delete(c, key[1..]);
        var c': Option<Node> := if s.res == Ok(true) && s.node.Null? then None else Some(s.node);
        DigestsWithChild(ch, key[0], c', ds);
        if s.res == Ok(true) { CollapseKeepsDigests(ch[key[0] := c'], ds); }
      }
    case Extension(p, child) =>
      if p.nibs <= key { DeleteKeepsDigests(child, key[|p.nibs|..], ds); }
    case _ =>
  }
}
