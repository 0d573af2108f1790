/**
 When a truncated trie ends up right: obstructed deletions keep the contents, so what a trie stands for at
 the end is the full trie exactly if it is canonical, and its root is right exactly then.
 */
module Healing {
  import opened Prelude
  import opened HexPrefix
  import opened Trie
  import opened TrieMap
  import opened TrieUnique
  import opened TrieDigests
  import opened TrieCodec
  import opened TrieFidelity
  import opened TrieResolve
  import opened TrieTruncation
  import opened TrieBinding
  import opened State
  import opened MemDb
  import opened StateRoot
  import opened SparseRoot

  // ----- deletion keeps the contents of what the trie stands for

  /** Lookups in the resolved trie. */
  ghost function Seen(s: Store, n: Node, b: nat, q: Nibbles): Result<Option<Bytes>, Error>
    requires Fit(s, n, b)
  {
    Get(Resolve(s, n, b), q)
  }

  lemma {:induction false} MergedSeen(s: Store, i: Nibble, c: Node, b: nat, q: Nibbles)
    requires Fit(s, c, b) && !c.Null?
    ensures var m := Merged(i, c).node;
            Fit(s, m, b) && Seen(s, m, b, q) == if q != [] && q[0] == i then Seen(s, c, b, q[1..]) else Ok(None)
  {
    match c
    case Leaf(p, _) => GetSplit([i], p.nibs, q);
    case Extension(p, _) => GetSplit([i], p.nibs, q);
    case _ =>
  }

  lemma {:induction false} CollapseSeen(s: Store, ch: Children, b: nat, q: Nibbles)
    requires Fit(s, Branch(ch), b) && Collapse(ch).res.Ok?
    ensures var x := Collapse(ch).node; Fit(s, x, b) && Seen(s, x, b, q) == Seen(s, Branch(ch), b, q)
  {
    var first := NextChild(ch, 0).value;
    var second := NextChild(ch, first as int + 1);
    if second.None? {
      MergedSeen(s, first, ch[first].value, b, q);
      if q != [] { GetInResolvedBranch(s, ch, b, q); }
    }
  }

  lemma {:induction false} RejoinSeen(s: Store, p: Path, c: Node, b: nat, q: Nibbles)
    requires Sound(p) && Fit(s, c, b)
    ensures var x := Rejoin(p, c);
            Fit(s, x, b) && Seen(s, x, b, q) == if p.nibs <= q then Seen(s, c, b, q[|p.nibs|..]) else Ok(None)
  {
    match c
    case Leaf(r, _) => GetSplit(p.nibs, r.nibs, q);
    case Extension(r, _) => GetSplit(p.nibs, r.nibs, q);
    case _ =>
  }

  lemma {:induction false} FitChild(s: Store, ch: Children, b: nat, i: Nibble, c: Option<Node>)
    requires Fit(s, Branch(ch), b) && (c.Some? ==> Fit(s, c.value, b))
    ensures Fit(s, Branch(ch[i := c]), b)
  {
  }

  lemma {:induction false} ChildSeen(s: Store, ch: Children, b: nat, i: Nibble, c: Node, q: Nibbles)
    requires Fit(s, Branch(ch), b) && Fit(s, c, b)
    ensures var ch' := ch[i := if c.Null? then None else Some(c)];
            && Fit(s, Branch(ch'), b)
            && Seen(s, Branch(ch'), b, q) ==
               if q != [] && q[0] == i then Seen(s, c, b, q[1..]) else Seen(s, Branch(ch), b, q)
  {
    var x: Option<Node> := if c.Null? then None else Some(c);
    FitChild(s, ch, b, i, x);
    if q != [] {
      GetInResolvedBranch(s, ch[i := x], b, q);
      GetInResolvedBranch(s, ch, b, q);
    }
  }

  lemma {:induction false} BranchDeleteSeen(s: Store, ch: Children, b: nat, key: Nibbles, d: Node, q: Nibbles)
    requires Fit(s, Branch(ch), b) && key != [] && ch[key[0]].Some? && Fit(s, d, b)
    requires q != [] && q[0] == key[0] ==>
               Seen(s, d, b, q[1..]) == if q[1..] == key[1..] then Ok(None) else Seen(s, ch[key[0]].value, b, q[1..])
    requires Collapse(ch[key[0] := if d.Null? then None else Some(d)]).res.Ok?
    ensures var x := Collapse(ch[key[0] := if d.Null? then None else Some(d)]).node;
            Fit(s, x, b) && Seen(s, x, b, q) == if q == key then Ok(None) else Seen(s, Branch(ch), b, q)
  {
    ChildSeen(s, ch, b, key[0], d, q);
    CollapseSeen(s, ch[key[0] := if d.Null? then None else Some(d)], b, q);
    if q != [] {
      GetInResolvedBranch(s, ch, b, q);
      assert q == key <==> q[0] == key[0] && q[1..] == key[1..];
    }
  }

  lemma {:induction false} ExtensionDeleteSeen(s: Store, p: Path, c: Node, b: nat, key: Nibbles, d: Node, q: Nibbles)
    requires Fit(s, Extension(p, c), b) && p.nibs <= key && Fit(s, d, b)
    requires p.nibs <= q ==>
               var r := q[|p.nibs|..];
               Seen(s, d, b, r) == if r == key[|p.nibs|..] then Ok(None) else Seen(s, c, b, r)
    ensures var x := Rejoin(p, d);
            Fit(s, x, b) && Seen(s, x, b, q) == if q == key then Ok(None) else Seen(s, Extension(p, c), b, q)
  {
    RejoinSeen(s, p, d, b, q);
    if p.nibs <= q { assert q == p.nibs + q[|p.nibs|..] && key == p.nibs + key[|p.nibs|..]; }
  }

  /** Deletion is removal from what the trie stands for, obstructed or not. */
  lemma {:induction false} DeleteSeen(s: Store, n: Node, b: nat, key: Nibbles, q: Nibbles)
    requires Fit(s, n, b) && Canonical(n) && Delete(n, key).res.Ok?
    ensures var x := Delete(n, key).node;
            Fit(s, x, b) && Seen(s, x, b, q) == if q == key then Ok(None) else Seen(s, n, b, q)
  {
    DeleteResult(n, key);
    if Delete(n, key).res == Ok(false) {
      DeleteIsRemoval(n, key, key);
      if q == key { GetTransparent(s, n, b, key); }
    } else {
      match n
      case Branch(ch) =>
        DeleteSeen(s, ch[key[0]].value, b, key[1..], if q != [] then q[1..] else q);
        BranchDeleteSeen(s, ch, b, key, Delete(ch[key[0]].value, key[1..]).node, q);
      case Extension(p, c) =>
        DeleteSeen(s, c, b, key[|p.nibs|..], if p.nibs <= q then q[|p.nibs|..] else q);
        ExtensionDeleteSeen(s, p, c, b, key, Delete(c, key[|p.nibs|..]).node, q);
      case _ =>
    }
  }

  // ----- what a trie stands for can be written and told apart

  /** The digests that the store resolves wholly. */
  ghost function Whole(s: Store): iset<Hash>
    requires Ranked(s)
  {
    iset d: Hash | ByDigest(d) in s.nodes &&
      var r := Resolve(s, s.nodes[ByDigest(d)], s.rank(d)); Resolved(r) && Telling(r) && !r.Null?
  }

  lemma {:induction false} WholeIsFirm(s: Store, n: Node, b: nat)
    requires Fit(s, n, b) && Telling(n) && AllDigests(n, Whole(s))
    ensures var r := Resolve(s, n, b); Resolved(r) && Telling(r) && (r.Null? <==> n.Null?)
  {
    match n
    case Branch(ch) =>
      var ch' := ResolveChildren(s, ch, b, 0);
      forall i | 0 <= i < 16 && ch'[i].Some?
        ensures Resolved(ch'[i].value) && Telling(ch'[i].value) && !ch'[i].value.Null?
      {
        ResolvedPlace(s, ch, b, 0, i);
        WholeIsFirm(s, ch[i].value, b);
      }
    case Extension(_, c) => WholeIsFirm(s, c, b);
    case _ =>
  }

  lemma {:induction false} SeesWhole(s: Store, n: Node, b: nat)
    requires Fit(s, n, b) && Resolved(Resolve(s, n, b)) && Live(Resolve(s, n, b))
    ensures AllDigests(n, Whole(s))
  {
    match n
    case Branch(ch) =>
      forall i | 0 <= i < 16 && ch[i].Some? ensures AllDigests(ch[i].value, Whole(s)) {
        ResolvedPlace(s, ch, b, 0, i);
        SeesWhole(s, ch[i].value, b);
      }
    case Extension(_, c) => SeesWhole(s, c, b);
    case Digest(d) => CanonicalIsTelling(Resolve(s, n, b));
    case _ =>
  }

  // ----- tries that stand for the right contents

  /** The truncated trie stands for the contents of the full one, though perhaps not for its shape. */
  ghost predicate Alike(s: Store, n: Node, full: Node) {
    && Ranked(s) && Canonical(n) && Full(full) && AllDigests(n, Whole(s))
    && SameContents(ResolveNodes(s, n), full)
  }

  lemma {:induction false} SeesAlike(H: Hasher, s: Store, n: Node, full: Node)
    requires Sees(s, n, full) && KeyedByReference(H, s.nodes) && Canonical(n) && Full(full)
    ensures Alike(s, n, full)
  {
    ResolveKeepsNull(H, s, n, Ceiling(s, n));
    if !full.Null? { SeesWhole(s, n, Ceiling(s, n)); }
  }

  lemma {:induction false} AlikeIsFirm(s: Store, n: Node)
    requires Ranked(s) && Canonical(n) && AllDigests(n, Whole(s))
    ensures var r := ResolveNodes(s, n); Resolved(r) && Telling(r)
  {
    CanonicalIsTelling(n);
    WholeIsFirm(s, n, Ceiling(s, n));
  }

  lemma {:induction false} InsertSeen(s: Store, n: Node, b: nat, key: Nibbles, value: Bytes, q: Nibbles)
    requires Fit(s, n, b) && Insert(n, key, value).res.Ok?
    ensures var x := Insert(n, key, value).node;
            Fit(s, x, b) && Seen(s, x, b, q) == if q == key then Ok(Some(value)) else Seen(s, n, b, q)
  {
    InsertTransparent(s, n, b, key, value);
    InsertIsUpdate(Resolve(s, n, b), key, value, q);
  }

  lemma {:induction false} WriteKeepsDigests(n: Node, key: Nibbles, entry: Option<Bytes>, ds: iset<Hash>)
    requires Shaped(n) && AllDigests(n, ds)
    ensures AllDigests(Write(n, key, entry).node, ds)
  {
    if entry.None? { DeleteKeepsDigests(n, key, ds); } else { InsertKeepsDigests(n, key, entry.value, ds); }
  }

  /** Every write that succeeds writes the contents that the trie stands for. */
  lemma {:induction false} AlikeWrite(s: Store, n: Node, full: Node, key: Nibbles, entry: Option<Bytes>)
    requires Alike(s, n, full) && |key| == KEY_NIBBLES && Write(n, key, entry).res.Ok?
    ensures Write(full, key, entry).res.Ok? && Alike(s, Write(n, key, entry).node, Write(full, key, entry).node)
  {
    var b, x, y := Ceiling(s, n), Write(n, key, entry).node, Write(full, key, entry).node;
    WriteIsUpdate(full, key, entry);
    WriteKeepsCanonical(n, key, entry);
    WriteKeepsDigests(n, key, entry, Whole(s));
    forall q ensures Fit(s, x, b) && Seen(s, x, b, q) == Get(y, q) {
      if entry.None? { DeleteSeen(s, n, b, key, q); } else { InsertSeen(s, n, b, key, entry.value, q); }
    }
    SeesAt(s, x, b);
  }

  /** Contents and canonical form make the shape. */
  lemma {:induction false} AlikeIsSeenIff(s: Store, n: Node, full: Node)
    requires Alike(s, n, full)
    ensures Sees(s, n, full) <==> Canonical(ResolveNodes(s, n))
  {
    AlikeIsFirm(s, n);
    if Canonical(ResolveNodes(s, n)) { OneShapePerMap(ResolveNodes(s, n), full); }
  }

  // ----- the root tells

  lemma {:induction false} SameBytesSameTree(H: Hasher, s: set<Bytes>, a: Node, b: Node)
    requires Telling(a) && Telling(b) && Resolved(a) && Resolved(b) && Solid(a) && Solid(b)
    requires Encodings(H, a) <= s && Encodings(H, b) <= s && Separates(H, s) && Encode(H, a) == Encode(H, b)
    ensures a == b
    decreases a, 0
  {
    SameBytesSameShallow(H, a, b);
    match a
    case Branch(x) =>
      var y := b.children;
      forall i | 0 <= i < 16 ensures x[i] == y[i] {
        SameShallowChildren(H, x, y, i);
        if x[i].Some? {
          EncodingsOfChild(H, x, 0, i);
          EncodingsOfChild(H, y, 0, i);
          SameRefSameTree(H, s, x[i].value, y[i].value);
        }
      }
    case Leaf(_, _) =>
    case Extension(p, c) =>
      ShallowChildSameRef(H, c);
      ShallowChildSameRef(H, b.child);
      SameRefSameTree(H, s, c, b.child);
  }

  lemma {:induction false} SameRefSameTree(H: Hasher, s: set<Bytes>, a: Node, b: Node)
    requires Telling(a) && Telling(b) && Resolved(a) && Resolved(b) && Ref(H, a) == Ref(H, b)
    requires Encodings(H, a) <= s && Encodings(H, b) <= s && Separates(H, s)
    ensures a == b
    decreases a, 1
  {
    SameRefBelow(H, s, a, b);
    if Solid(a) { SameBytesSameTree(H, s, a, b); }
  }

  /** Without collisions, whole tries with the same hash are the same, canonical or not. */
  lemma {:induction false} SameHashSameTree(H: Hasher, a: Node, b: Node)
    requires Telling(a) && Telling(b) && Resolved(a) && Resolved(b) && HashOf(H, a) == HashOf(H, b)
    requires H(EMPTY_STRING) == EMPTY_ROOT && Separates(H, Compared(H, a, b))
    ensures a == b
  {
    if Solid(a) && Solid(b) {
      SameRefSameBytes(H, Compared(H, a, b), a, b);
      SameBytesSameTree(H, Compared(H, a, b), a, b);
    } else if Solid(a) {
      NotEmptyRoot(H, a);
    } else if Solid(b) {
      NotEmptyRoot(H, b);
    }
  }

  /** The root of a trie that stands for the right contents is right exactly if what it stands for is canonical. */
  lemma {:induction false} RootIsRightIff(H: Hasher, s: Store, n: Node, full: Node)
    requires Alike(s, n, full) && KeyedByReference(H, s.nodes)
    requires H(EMPTY_STRING) == EMPTY_ROOT && Separates(H, Compared(H, ResolveNodes(s, n), full))
    ensures HashOf(H, n) == HashOf(H, full) <==> Canonical(ResolveNodes(s, n))
  {
    AlikeIsFirm(s, n);
    AlikeIsSeenIff(s, n, full);
    CanonicalIsTelling(full);
    SameHash(H, s, n, ResolveNodes(s, n));
    if HashOf(H, n) == HashOf(H, full) { SameHashSameTree(H, ResolveNodes(s, n), full); }
  }

  // ----- an obstruction that heals

  lemma {:induction false} TwoLeaves(i: Nibble, a: Node, j: Nibble, b: Node)
    requires i != j && Live(a) && a.Leaf? && |a.path.nibs| == 1 && Live(b) && b.Leaf? && |b.path.nibs| == 1
    ensures var n := TwoChildren(i, a, j, b); Live(n) && Resolved(n) && KeysOfLength(n, 2)
  {
    var n := TwoChildren(i, a, j, b);
    LiveTwoChildren(i, a, j, b);
    ResolvedFork([], i, a, j, b);
    forall q | Holds(n, q) ensures |q| == 2 { GetTwoChildren(i, a, j, b, q); }
  }

  /** On the resolved trie: the deletion and the insertion go through, with the expected contents. */
  lemma {:induction false} ThroughFull(r: Node, gone: Nibbles, added: Nibbles, value: Bytes)
    requires Canonical(r) && Resolved(r) && KeysOfLength(r, 2) && |gone| == |added| == 2 && Holds(r, gone)
    ensures var z := Delete(r, gone);
            && z.res == Ok(true) && Canonical(z.node)
            && var w := Insert(z.node, added, value);
               && w.res.Ok? && Canonical(w.node) && Resolved(w.node)
               && forall q :: Get(w.node, q) == if q == added then Ok(Some(value)) else if q == gone then Ok(None) else Get(r, q)
  {
    var z := Delete(r, gone).node;
    HeldIsDeleted(r, gone);
    DeleteResult(r, gone);
    NeverRefused(r, gone, []);
    DeleteKeepsResolved(r, gone);
    NeverRefused(z, added, value);
    InsertKeepsCanonical(z, added, value);
    InsertKeepsResolved(z, added, value);
    forall q
      ensures Get(Insert(z, added, value).node, q) ==
              if q == added then Ok(Some(value)) else if q == gone then Ok(None) else Get(r, q)
    {
      InsertIsUpdate(z, added, value, q);
      DeleteIsRemoval(r, gone, q);
    }
  }

  lemma {:induction false} InsertionSplitsAgain(d: Hash)
    ensures Insert(ExtensionAt([1], Digest(d)), [2, 0], [1]) == Step(TwoChildren(1, Digest(d), 2, LeafAt([0], [1])), Ok(true))
  {
    CommonLenUnique([1], [2, 0], 0);
    assert [2, 0][1..] == [0];
  }

  /** A deletion that is obstructed, and an insertion after which the trie is right again. */
  ghost predicate Heals(s: Store, n: Node, gone: Nibbles, added: Nibbles, value: Bytes) {
    && Ranked(s) && Canonical(n) && Obstructed(s, n, gone, None)
    && var x, z := Delete(n, gone), Delete(ResolveNodes(s, n), gone);
       && x.res == z.res == Ok(true) && !Sees(s, x.node, z.node)
       && var y, w := Insert(x.node, added, value), Insert(z.node, added, value);
          y.res.Ok? && w.res.Ok? && Sees(s, y.node, w.node)
  }

  lemma {:induction false} HealsHere(s: Store, d: Hash, leaf: Node, n: Node)
    requires s == Store(map[ByDigest(d) := leaf], s.rank) && s.rank(d) == 0 && Live(leaf) && leaf.Leaf? && leaf == LeafAt([2], leaf.value)
    requires n == TwoChildren(0, LeafAt([0], [1]), 1, Digest(d))
    ensures Heals(s, n, [0, 0], [2, 0], [1])
  {
    LeafBelowExtension(s, d, leaf);
    SiblingIsDigest(n.children, d);
    ResolveTwoChildren(s, 0, LeafAt([0], [1]), 1, Digest(d), 1);
    var r := TwoChildren(0, LeafAt([0], [1]), 1, leaf);
    assert Resolve(s, Digest(d), 1) == leaf;
    SeesAt(s, n, 1);
    TwoLeaves(0, LeafAt([0], [1]), 1, leaf);
    GetTwoChildren(0, LeafAt([0], [1]), 1, leaf, [0, 0]);
    ThroughFull(r, [0, 0], [2, 0], [1]);
    var x := ExtensionAt([1], Digest(d));
    SeesAt(s, x, 1);
    InsertionSplitsAgain(d);
    var y := TwoChildren(1, Digest(d), 2, LeafAt([0], [1]));
    ResolveTwoChildren(s, 1, Digest(d), 2, LeafAt([0], [1]), 1);
    SeesAt(s, y, 1);
    TwoLeaves(1, leaf, 2, LeafAt([0], [1]));
    forall q ensures Seen(s, y, 1, q) == Get(Insert(Delete(r, [0, 0]).node, [2, 0], [1]).node, q) {
      DeleteSeen(s, n, 1, [0, 0], q);
      InsertSeen(s, x, 1, [2, 0], [1], q);
    }
    OneShapePerMap(Resolve(s, y, 1), Insert(Delete(r, [0, 0]).node, [2, 0], [1]).node);
  }

  /** Whatever the hash function, an obstruction can heal. */
  lemma {:induction false} ObstructionCanHeal(H: Hasher) returns (s: Store, n: Node)
    ensures KeyedByReference(H, s.nodes) && Heals(s, n, NibblesOf([0x00]), NibblesOf([0x20]), [1])
  {
    var leaf, d := LongLeaf(H);
    s := Store(map[ByDigest(d) := leaf], _ => 0);
    n := TwoChildren(0, LeafAt([0], [1]), 1, Digest(d));
    assert NibblesOf([0x00]) == [0, 0] && NibblesOf([0x20]) == [2, 0];
    HealsHere(s, d, leaf, n);
  }
}
