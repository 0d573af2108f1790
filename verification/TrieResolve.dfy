/** Putting truncated tries back together: digests are replaced by the nodes they stand for. */
module TrieResolve {
  import opened Prelude
  import opened Trie
  import opened TrieCodec

  /**
   A node store. `rank` is the measure by which resolving ends: a stored node only refers to stored
   nodes of smaller rank. The program has no such check; a store with a cycle would make it loop.
   */
  datatype Store = Store(nodes: map<Reference, Node>, rank: Hash -> nat)

  /** Every digest in the node that the store can resolve ranks below `bound`. */
  predicate Below(s: Store, n: Node, bound: nat) {
    match n
    case Branch(ch) => forall i :: 0 <= i < |ch| && ch[i].Some? ==> Below(s, ch[i].value, bound)
    case Extension(_, c) => Below(s, c, bound)
    case Digest(d) => ByDigest(d) in s.nodes ==> s.rank(d) < bound
    case _ => true
  }

  ghost predicate Ranked(s: Store) {
    forall d :: ByDigest(d) in s.nodes ==>
      Shaped(s.nodes[ByDigest(d)]) && Below(s, s.nodes[ByDigest(d)], s.rank(d))
  }

  /** Every node is stored under its own reference. */
  ghost predicate KeyedByReference(H: Hasher, nodes: map<Reference, Node>) {
    forall r :: r in nodes ==> Shaped(nodes[r]) && Ref(H, nodes[r]) == r
  }

  ghost predicate Fit(s: Store, n: Node, bound: nat) {
    Ranked(s) && Shaped(n) && Below(s, n, bound)
  }

  /** `resolve_nodes` */
  function Resolve(s: Store, n: Node, bound: nat): (r: Node)
    requires Fit(s, n, bound)
    ensures Shaped(r)
    decreases bound, n, 1
  {
    match n
    case Branch(ch) => Branch(ResolveChildren(s, ch, bound, 0))
    case Extension(p, c) => Extension(p, Resolve(s, c, bound))
    case Digest(d) =>
      if ByDigest(d) in s.nodes then Resolve(s, s.nodes[ByDigest(d)], s.rank(d)) else n
    case _ => n
  }

  function ResolvePlace(s: Store, ch: Children, bound: nat, i: nat): (r: Option<Node>)
    requires Fit(s, Branch(ch), bound) && i < 16
    ensures r.Some? ==> Shaped(r.value)
    ensures r.Some? == ch[i].Some?
    decreases bound, Branch(ch), 0, 0
  {
    if ch[i].None? then None else Some(Resolve(s, ch[i].value, bound))
  }

  function ResolveChildren(s: Store, ch: Children, bound: nat, i: nat): (r: Children)
    requires Fit(s, Branch(ch), bound) && i <= 16
    ensures |r| == 16 - i && ShapedAll(r)
    decreases bound, Branch(ch), 0, 17 - i
  {
    if i == 16 then [] else [ResolvePlace(s, ch, bound, i)] + ResolveChildren(s, ch, bound, i + 1)
  }

  lemma {:induction false} ResolvedPlace(s: Store, ch: Children, bound: nat, i: nat, j: nat)
    requires Fit(s, Branch(ch), bound) && i <= j < 16
    ensures ResolveChildren(s, ch, bound, i)[j - i] == ResolvePlace(s, ch, bound, j)
    decreases j - i
  {
    if i < j { ResolvedPlace(s, ch, bound, i + 1, j); }
  }

  /** Two sequences of children that agree place by place. */
  lemma {:induction false} ResolvedChildrenAre(s: Store, ch: Children, bound: nat, r: Children)
    requires Fit(s, Branch(ch), bound) && |r| == 16
    requires forall j :: 0 <= j < 16 ==> r[j] == ResolvePlace(s, ch, bound, j)
    ensures ResolveChildren(s, ch, bound, 0) == r
  {
    forall j | 0 <= j < 16 ensures ResolveChildren(s, ch, bound, 0)[j] == r[j] {
      ResolvedPlace(s, ch, bound, 0, j);
    }
  }

  /** Resolving keeps every reference, and so the root hash, when nodes are stored under their own. */
  lemma {:induction false} ResolveKeepsRef(H: Hasher, s: Store, n: Node, bound: nat)
    requires Fit(s, n, bound) && KeyedByReference(H, s.nodes)
    ensures Ref(H, Resolve(s, n, bound)) == Ref(H, n)
    decreases bound, n
  {
    match n
    case Branch(ch) =>
      var ch' := ResolveChildren(s, ch, bound, 0);
      forall j | 0 <= j < 16 ensures PlaceItem(H, ch, j) == PlaceItem(H, ch', j) {
        ResolvedPlace(s, ch, bound, 0, j);
        if ch[j].Some? { ResolveKeepsRef(H, s, ch[j].value, bound); }
      }
      SameBranch(H, ch, ch');
    case Extension(_, c) => ResolveKeepsRef(H, s, c, bound);
    case Digest(d) =>
      if ByDigest(d) in s.nodes { ResolveKeepsRef(H, s, s.nodes[ByDigest(d)], s.rank(d)); }
    case _ =>
  }

  /** The `debug_assert` of `resolve_nodes`: the hash does not change. */
  lemma {:induction false} ResolveKeepsHash(H: Hasher, s: Store, n: Node, bound: nat)
    requires Fit(s, n, bound) && KeyedByReference(H, s.nodes)
    ensures HashOf(H, Resolve(s, n, bound)) == HashOf(H, n)
  {
    ResolveKeepsRef(H, s, n, bound);
    ResolveKeepsNull(H, s, n, bound);
  }

  lemma {:induction false} ResolveKeepsNull(H: Hasher, s: Store, n: Node, bound: nat)
    requires Fit(s, n, bound) && KeyedByReference(H, s.nodes)
    ensures Resolve(s, n, bound).Null? <==> n.Null?
  {
    if n.Digest? { ResolveKeepsRef(H, s, n, bound); }
  }

  /** The measure only serves to show that resolving ends: the result does not depend on it. */
  lemma {:induction false} MeasureIsIrrelevant(s: Store, t: Store, n: Node, a: nat, b: nat)
    requires s.nodes == t.nodes && Fit(s, n, a) && Fit(t, n, b)
    ensures Resolve(s, n, a) == Resolve(t, n, b)
    decreases a, n
  {
    match n
    case Branch(ch) =>
      forall j | 0 <= j < 16
        ensures ResolveChildren(s, ch, a, 0)[j] == ResolvePlace(t, ch, b, j)
      {
        ResolvedPlace(s, ch, a, 0, j);
        if ch[j].Some? { MeasureIsIrrelevant(s, t, ch[j].value, a, b); }
      }
      ResolvedChildrenAre(t, ch, b, ResolveChildren(s, ch, a, 0));
    case Extension(_, c) => MeasureIsIrrelevant(s, t, c, a, b);
    case Digest(d) =>
      if ByDigest(d) in s.nodes {
        MeasureIsIrrelevant(s, t, s.nodes[ByDigest(d)], s.rank(d), t.rank(d));
      }
    case _ =>
  }

  lemma {:induction false} BelowGrows(s: Store, n: Node, a: nat, b: nat)
    requires Below(s, n, a) && a <= b
    ensures Below(s, n, b)
  {
    match n
    case Branch(ch) =>
      forall i | 0 <= i < |ch| && ch[i].Some? ensures Below(s, ch[i].value, b) {
        BelowGrows(s, ch[i].value, a, b);
      }
    case Extension(_, c) => BelowGrows(s, c, a, b);
    case _ =>
  }

  /** Every node has a bound, so a ranked store resolves every node. */
  function Ceiling(s: Store, n: Node): (b: nat)
    ensures Below(s, n, b)
    decreases n, 1
  {
    match n
    case Branch(ch) => CeilingFrom(s, ch, 0)
    case Extension(_, c) => Ceiling(s, c)
    case Digest(d) => s.rank(d) + 1
    case _ => 0
  }

  function CeilingFrom(s: Store, ch: Children, i: nat): (b: nat)
    requires i <= |ch|
    ensures forall j :: i <= j < |ch| && ch[j].Some? ==> Below(s, ch[j].value, b)
    decreases Branch(ch), 0, |ch| - i
  {
    if i == |ch| then 0
    else
      var rest := CeilingFrom(s, ch, i + 1);
      var here := if ch[i].Some? then Ceiling(s, ch[i].value) else 0;
      var b := if here < rest then rest else here;
      assert forall j :: i <= j < |ch| && ch[j].Some? ==> Below(s, ch[j].value, b) by {
        forall j | i <= j < |ch| && ch[j].Some? ensures Below(s, ch[j].value, b) {
          if j == i { BelowGrows(s, ch[j].value, here, b); } else { BelowGrows(s, ch[j].value, rest, b); }
        }
      }
      b
  }

  function ResolveNodes(s: Store, n: Node): (r: Node)
    requires Ranked(s) && Shaped(n)
    ensures Shaped(r)
  {
    Resolve(s, n, Ceiling(s, n))
  }

  /** The node stands for the given one: what is missing is in the store. */
  ghost predicate Sees(s: Store, n: Node, full: Node) {
    Ranked(s) && Shaped(n) && ResolveNodes(s, n) == full
  }

  lemma {:induction false} SeesAt(s: Store, n: Node, b: nat)
    requires Fit(s, n, b)
    ensures Sees(s, n, Resolve(s, n, b))
  {
    MeasureIsIrrelevant(s, s, n, Ceiling(s, n), b);
  }

  lemma {:induction false} SameHash(H: Hasher, s: Store, n: Node, full: Node)
    requires Sees(s, n, full) && KeyedByReference(H, s.nodes)
    ensures Shaped(full) && HashOf(H, full) == HashOf(H, n)
  {
    ResolveKeepsHash(H, s, n, Ceiling(s, n));
  }
}
