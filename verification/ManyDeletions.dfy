/**
 Several deletions from one trie that is resolved from proofs. The program stores the shortened last nodes
 of the proofs after the block, so of the trie after all deletions; what one deletion needs has to be found
 among them although the deletions after it go on to change the trie.
 */
module ManyDeletions {
  import opened Prelude
  import opened HexPrefix
  import opened Trie
  import opened TrieMap
  import opened TrieDigests
  import opened TrieUnique
  import opened TrieResolve
  import opened TrieTruncation
  import opened TrieCodec
  import opened TrieFidelity
  import opened TrieProofs
  import opened HonestProofs
  import opened ProofServing

  // ----- keys that stay away from where a lookup ends

  /** The lookup of `q` does not go through the leaf or extension at which the lookup of `key` ends. */
  predicate Aside(n: Node, key: Nibbles, q: Nibbles)
    requires Shaped(n)
  {
    match n
    case Branch(ch) =>
      key == [] || ch[key[0]].None? || q == [] || q[0] != key[0] || Aside(ch[key[0]].value, key[1..], q[1..])
    case Extension(p, c) =>
      p.nibs <= q ==> p.nibs <= key && Aside(c, key[|p.nibs|..], q[|p.nibs|..])
    case Leaf(p, _) => p.nibs != q
    case _ => true
  }

  /** A node with more path before it, as merging and rejoining make it. */
  function Joined(pre: Nibbles, n: Node): (r: Node)
    requires Shaped(n)
    ensures Shaped(r)
  {
    match n
    case Null => Null
    case Leaf(p, v) => LeafAt(pre + p.nibs, v)
    case Extension(p, c) => ExtensionAt(pre + p.nibs, c)
    case _ => ExtensionAt(pre, n)
  }

  lemma {:induction false} SplitKey(pre: Nibbles, nibs: Nibbles, q: Nibbles)
    ensures pre + nibs <= q <==> pre <= q && nibs <= q[|pre|..]
    ensures pre + nibs == q <==> pre <= q && nibs == q[|pre|..]
    ensures pre + nibs <= q ==> q[|pre + nibs|..] == q[|pre|..][|nibs|..]
  {
    if pre <= q { assert q == pre + q[|pre|..]; }
  }

  lemma {:induction false} JoinedAside(pre: Nibbles, n: Node, key: Nibbles, q: Nibbles)
    requires Shaped(n) && pre <= key && (pre <= q ==> Aside(n, key[|pre|..], q[|pre|..]))
    ensures Aside(Joined(pre, n), key, q)
  {
    match n
    case Leaf(p, _) => SplitKey(pre, p.nibs, q);
    case Extension(p, c) =>
      SplitKey(pre, p.nibs, q);
      SplitKey(pre, p.nibs, key);
    case _ =>
  }

  lemma {:induction false} PrefixGrows(pre: Nibbles, nibs: Nibbles, j: nat)
    requires j <= |nibs|
    ensures (pre + nibs[..j]) + nibs[j..] == pre + nibs
  {
  }

  lemma {:induction false} LongerShortens(pre: Nibbles, n: Node, x: Node)
    requires (n.Leaf? || n.Extension?) && x in Shortened(n)
    ensures x in Shortened(WithPath(n, pre + n.path.nibs))
  {
    var j := ShortenedOnly(n, n.path.nibs, 0, x);
    PrefixGrows(pre, n.path.nibs, j);
    SuffixRecovered(pre + n.path.nibs[..j], x);
  }

  lemma {:induction false} JoinedEnd(pre: Nibbles, n: Node, key: Nibbles, x: Node)
    requires Shaped(n) && pre <= key && x in Shortened(LookupEnd(n, key[|pre|..]))
    ensures x in Shortened(LookupEnd(Joined(pre, n), key))
  {
    match n
    case Leaf(p, _) => LongerShortens(pre, n, x);
    case Extension(p, c) =>
      SplitKey(pre, p.nibs, key);
      if !(p.nibs <= key[|pre|..]) { LongerShortens(pre, n, x); }
    case _ =>
  }

  // ----- what the next deletion leaves

  /** `x` can be found where the lookup of `key` ends, and `q` stays away from there. */
  predicate Sheltered(n: Node, key: Nibbles, x: Node, q: Nibbles)
    requires Shaped(n)
  {
    x in Shortened(LookupEnd(n, key)) && Aside(n, key, q)
  }

  lemma {:induction false} JoinedSheltered(pre: Nibbles, n: Node, key: Nibbles, x: Node, q: Nibbles)
    requires Shaped(n) && pre <= key && x in Shortened(LookupEnd(n, key[|pre|..]))
    requires pre <= q ==> Aside(n, key[|pre|..], q[|pre|..])
    ensures Sheltered(Joined(pre, n), key, x, q)
  {
    JoinedAside(pre, n, key, q);
    JoinedEnd(pre, n, key, x);
  }

  lemma {:induction false} CollapseAround(ch: Children, k: Nibble)
    requires Shaped(Branch(ch)) && ch[k].Some? && !ch[k].value.Null?
    ensures Collapse(ch).node == Branch(ch) || Collapse(ch).node == Joined([k], ch[k].value)
  {
  }

  lemma {:induction false} CollapseSheltered(ch: Children, key: Nibbles, x: Node, q: Nibbles)
    requires Shaped(Branch(ch)) && key != [] && Sheltered(Branch(ch), key, x, q)
    ensures Sheltered(Collapse(ch).node, key, x, q)
  {
    var k := key[0];
    assert ch[k].Some?;
    assert !LookupEnd(ch[k].value, key[1..]).Null?;
    CollapseAround(ch, k);
    if [k] <= q { assert q[0] == k; }
    JoinedSheltered([k], ch[k].value, key, x, q);
  }

  /** A deletion that stays away from where the lookup of `key` ends keeps what can be found there. */
  lemma {:induction false} DeletionKeepsShelter(t: Node, key: Nibbles, x: Node, q: Nibbles, r: Nibbles)
    requires Canonical(t) && Delete(t, q).res == Ok(true)
    requires Sheltered(t, key, x, q) && Sheltered(t, key, x, r)
    ensures Sheltered(Delete(t, q).node, key, x, r)
    decreases t
  {
    match t
    case Branch(ch) => ShelterInBranch(ch, key, x, q, r);
    case Extension(p, c) =>
      var n := |p.nibs|;
      var r' := if p.nibs <= r then r[n..] else q[n..];
      DeletionKeepsShelter(c, key[n..], x, q[n..], r');
      JoinedSheltered(p.nibs, Delete(c, q[n..]).node, key, x, r);
    case _ =>
  }

  lemma {:induction false} ShelterInBranch(ch: Children, key: Nibbles, x: Node, q: Nibbles, r: Nibbles)
    requires Live(Branch(ch)) && Delete(Branch(ch), q).res == Ok(true)
    requires Sheltered(Branch(ch), key, x, q) && Sheltered(Branch(ch), key, x, r)
    ensures Sheltered(Delete(Branch(ch), q).node, key, x, r)
    decreases Branch(ch), 0
  {
    var k, j := key[0], q[0];
    DeleteDeeper(ch, q);
    var d := Delete(ch[j].value, q[1..]).node;
    if j == k {
      var r' := if r != [] && r[0] == k then r[1..] else q[1..];
      DeletionKeepsShelter(ch[k].value, key[1..], x, q[1..], r');
      assert !d.Null?;
    } else if d.Null? {
      assert ch[j := None][k] == ch[k];
      CollapseSheltered(ch[j := None], key, x, r);
    }
  }

  // ----- what the deletion itself leaves

  /** The lookup of `q` leaves that of `key` before the branch in which the leaf of `key` hangs. */
  predicate Off(n: Node, key: Nibbles, q: Nibbles)
    requires Shaped(n)
  {
    match n
    case Branch(ch) =>
      || key == [] || ch[key[0]].None?
      || (var c := ch[key[0]].value;
          && !(c.Leaf? && c.path.nibs == key[1..])
          && (q == [] || q[0] != key[0] || Off(c, key[1..], q[1..])))
    case Extension(p, c) => p.nibs <= key && p.nibs <= q ==> Off(c, key[|p.nibs|..], q[|p.nibs|..])
    case _ => true
  }

  lemma {:induction false} LoneChildIs(ch: Children, j: Nibble)
    requires |ch| == 16 && LoneChild(ch).Some? && ch[j].Some?
    ensures LoneChild(ch) == ch[j]
  {
  }

  lemma {:induction false} NotHeldBeside(ch: Children, key: Nibbles, q: Nibbles)
    requires Shaped(Branch(ch)) && key != [] && ch[key[0]].Some?
    requires ch[key[0]].value.Leaf? && ch[key[0]].value.path.nibs == key[1..]
    requires LoneChild(ch[key[0] := None]).Some? && LoneChild(ch[key[0] := None]).value.Digest? && q != key
    ensures !Holds(Branch(ch), q)
  {
    if q != [] && ch[q[0]].Some? {
      assert Get(Branch(ch), q) == Get(ch[q[0]].value, q[1..]);
      if q[0] == key[0] {
        assert q == [q[0]] + q[1..] && key == [key[0]] + key[1..];
      } else {
        LoneChildIs(ch[key[0] := None], q[0]);
      }
    }
  }

  /** Where a deletion leaves a digest alone, another key that can be looked up does not come there. */
  lemma {:induction false} HeldIsOff(n: Node, key: Nibbles, q: Nibbles)
    requires Shaped(n) && LoneSibling(n, key).Some? && LoneSibling(n, key).value.Digest?
    requires Holds(n, q) && q != key
    ensures Off(n, key, q)
  {
    match n
    case Branch(ch) =>
      var c := ch[key[0]].value;
      if c.Leaf? && c.path.nibs == key[1..] {
        NotHeldBeside(ch, key, q);
      } else if q[0] == key[0] {
        HeldIsOff(c, key[1..], q[1..]);
      }
    case Extension(p, c) =>
      if p.nibs <= q {
        assert q == p.nibs + q[|p.nibs|..] && key == p.nibs + key[|p.nibs|..];
        HeldIsOff(c, key[|p.nibs|..], q[|p.nibs|..]);
      }
    case _ =>
  }

  lemma {:induction false} HeldKeepsKind(s: Store, n: Node, b: nat, key: Nibbles)
    requires Fit(s, n, b) && Holds(n, key)
    ensures Resolve(s, n, b).Leaf? <==> n.Leaf?
    ensures n.Leaf? ==> Resolve(s, n, b) == n
  {
  }

  lemma {:induction false} OffSeen(s: Store, n: Node, b: nat, key: Nibbles, q: Nibbles)
    requires Fit(s, n, b) && Holds(n, key) && Off(n, key, q)
    ensures Off(Resolve(s, n, b), key, q)
  {
    match n
    case Branch(ch) =>
      ResolvedPlace(s, ch, b, 0, key[0]);
      HeldKeepsKind(s, ch[key[0]].value, b, key[1..]);
      if q != [] && q[0] == key[0] { OffSeen(s, ch[key[0]].value, b, key[1..], q[1..]); }
    case Extension(p, c) =>
      if p.nibs <= q { OffSeen(s, c, b, key[|p.nibs|..], q[|p.nibs|..]); }
    case _ =>
  }

  /** A branch that loses no child is kept. */
  lemma {:induction false} BranchIsKept(ch: Children, key: Nibbles)
    requires Live(Branch(ch)) && Delete(Branch(ch), key).res == Ok(true)
    requires !(ch[key[0]].value.Leaf? && ch[key[0]].value.path.nibs == key[1..])
    ensures var y := Delete(ch[key[0]].value, key[1..]);
            y.res == Ok(true) && Delete(Branch(ch), key).node == WithChild(ch, key[0], y.node)
  {
    DeleteDeeper(ch, key);
    OnlyLeavesVanish(ch[key[0]].value, key[1..]);
  }

  lemma {:induction false} OffIsAside(t: Node, key: Nibbles, q: Nibbles)
    requires Canonical(t) && Delete(t, key).res == Ok(true) && Off(t, key, q)
    ensures Aside(Delete(t, key).node, key, q)
  {
    match t
    case Branch(ch) =>
      BranchIsKept(ch, key);
      if q != [] && q[0] == key[0] { OffIsAside(ch[key[0]].value, key[1..], q[1..]); }
    case Extension(p, c) =>
      var n := |p.nibs|;
      if p.nibs <= q { OffIsAside(c, key[n..], q[n..]); }
      JoinedAside(p.nibs, Delete(c, key[n..]).node, key, q);
    case _ =>
  }

  // ----- one deletion after the other

  function DeletedAll(n: Node, keys: seq<Nibbles>): (r: Node)
    requires Shaped(n)
    ensures Shaped(r)
    decreases |keys|
  {
    if keys == [] then n else DeletedAll(Delete(n, keys[0]).node, keys[1..])
  }

  /** Every one of the deletions finds its key. */
  predicate AllDeleted(n: Node, keys: seq<Nibbles>)
    requires Shaped(n)
    decreases |keys|
  {
    keys != [] ==> Delete(n, keys[0]).res == Ok(true) && AllDeleted(Delete(n, keys[0]).node, keys[1..])
  }

  ghost predicate AllHeld(n: Node, keys: seq<Nibbles>)
    requires Shaped(n)
  {
    forall q :: q in keys ==> Holds(n, q)
  }

  ghost predicate AllAside(n: Node, key: Nibbles, keys: seq<Nibbles>)
    requires Shaped(n)
  {
    forall q :: q in keys ==> Aside(n, key, q)
  }

  predicate NoRepeats<T(==)>(keys: seq<T>) {
    forall i, j :: 0 <= i < j < |keys| ==> keys[i] != keys[j]
  }

  lemma {:induction false} RestHasNoRepeats<T>(keys: seq<T>)
    requires NoRepeats(keys) && keys != []
    ensures NoRepeats(keys[1..]) && forall q :: q in keys[1..] ==> q in keys && q != keys[0]
  {
  }

  lemma {:induction false} HeldAfter(n: Node, keys: seq<Nibbles>)
    requires Canonical(n) && AllHeld(n, keys) && NoRepeats(keys) && keys != []
    ensures var x := Delete(n, keys[0]);
            x.res == Ok(true) && Canonical(x.node) && AllHeld(x.node, keys[1..]) && NoRepeats(keys[1..])
  {
    RestHasNoRepeats(keys);
    HeldIsDeleted(n, keys[0]);
    DeleteResult(n, keys[0]);
    forall q | q in keys[1..] ensures Holds(Delete(n, keys[0]).node, q) { DeleteIsRemoval(n, keys[0], q); }
  }

  /** All the deletions succeed, and take away their keys and nothing else. */
  lemma {:induction false} DeletionsAreRemovals(n: Node, keys: seq<Nibbles>, q: Nibbles)
    requires Canonical(n) && AllHeld(n, keys) && NoRepeats(keys)
    ensures AllDeleted(n, keys) && Canonical(DeletedAll(n, keys))
    ensures Get(DeletedAll(n, keys), q) == if q in keys then Ok(None) else Get(n, q)
    decreases |keys|
  {
    if keys != [] {
      HeldAfter(n, keys);
      DeleteIsRemoval(n, keys[0], q);
      DeletionsAreRemovals(Delete(n, keys[0]).node, keys[1..], q);
    }
  }

  lemma {:induction false} DeletionsKeepResolved(n: Node, keys: seq<Nibbles>)
    requires Shaped(n) && Resolved(n)
    ensures Resolved(DeletedAll(n, keys))
    decreases |keys|
  {
    if keys != [] {
      DeleteKeepsResolved(n, keys[0]);
      DeletionsKeepResolved(Delete(n, keys[0]).node, keys[1..]);
    }
  }

  lemma {:induction false} FoundInTheEnd(t: Node, key: Nibbles, x: Node, keys: seq<Nibbles>)
    requires Canonical(t) && AllHeld(t, keys) && NoRepeats(keys)
    requires x in Shortened(LookupEnd(t, key)) && AllAside(t, key, keys)
    ensures x in Shortened(LookupEnd(DeletedAll(t, keys), key))
    decreases |keys|
  {
    if keys != [] {
      HeldAfter(t, keys);
      var q, u := keys[0], Delete(t, keys[0]).node;
      assert q in keys && forall r :: r in keys[1..] ==> r in keys;
      forall r | r in keys ensures Sheltered(u, key, x, r) {
        assert Aside(t, key, q) && Aside(t, key, r);
        DeletionKeepsShelter(t, key, x, q, r);
      }
      assert Sheltered(u, key, x, q);
      FoundInTheEnd(u, key, x, keys[1..]);
    }
  }

  /** The sibling that the first deletion leaves alone can still be found after the last one. */
  lemma {:induction false} OrphanInTheEnd(f: Store, n: Node, b: nat, keys: seq<Nibbles>)
    requires Fit(f, n, b) && Canonical(n) && Canonical(Resolve(f, n, b)) && AllHeld(n, keys) && NoRepeats(keys) && keys != []
    requires LoneSibling(n, keys[0]).Some? && LoneSibling(n, keys[0]).value.Digest?
    requires var x := LoneSibling(Resolve(f, n, b), keys[0]); x.Some? && (x.value.Leaf? || x.value.Extension?)
    ensures var t := Resolve(f, n, b);
            LoneSibling(t, keys[0]).value in Shortened(LookupEnd(DeletedAll(t, keys), keys[0]))
  {
    var t, key := Resolve(f, n, b), keys[0];
    forall q | q in keys ensures Holds(t, q) { GetTransparent(f, n, b, q); }
    HeldAfter(t, keys);
    OrphanRecovered(t, key);
    var u := Delete(t, key).node;
    forall q | q in keys[1..] ensures Aside(u, key, q) {
      assert Holds(n, q) && q != key;
      HeldIsOff(n, key, q);
      OffSeen(f, n, b, key, q);
      OffIsAside(t, key, q);
    }
    FoundInTheEnd(u, key, LoneSibling(t, key).value, keys[1..]);
  }

  /** So with the shortened last nodes of the proofs after all deletions, none of them is obstructed. */
  lemma {:induction false} NothingHidden(H: Hasher, s: Store, f: Store, n: Node, b: nat, keys: seq<Nibbles>)
    requires AllDigests(n, Unknown(s)) && Fit(f, n, b) && KeyedByReference(H, f.nodes)
    requires Canonical(n) && Canonical(Resolve(f, n, b)) && AllHeld(n, keys) && NoRepeats(keys) && keys != []
    requires HasOrphans(H, s, LastNode(H, DeletedAll(Resolve(f, n, b), keys), keys[0]))
    ensures !HidesPath(f, n, keys[0])
  {
    var t, key := Resolve(f, n, b), keys[0];
    if HidesPath(f, n, key) {
      var x := LoneSibling(n, key).value;
      LoneSiblingSeen(f, n, b, key);
      SiblingIsUnknown(s, n, key);
      ResolveKeepsRef(H, f, x, b);
      ResolveKeepsNull(H, f, x, b);
      OrphanInTheEnd(f, n, b, keys);
      forall q | q in keys ensures Holds(t, q) { GetTransparent(f, n, b, q); }
      DeletionsAreRemovals(t, keys, key);
      OrphanStored(H, s, DeletedAll(t, keys), key, LoneSibling(t, key).value);
    }
  }

  /** The deletions from the truncated trie are those from the full trie, step by step. */
  lemma {:induction false} DeletionsSeen(H: Hasher, s: Store, f: Store, n: Node, b: nat, keys: seq<Nibbles>)
    requires AllDigests(n, Unknown(s)) && Fit(f, n, b) && KeyedByReference(H, f.nodes)
    requires Canonical(n) && Canonical(Resolve(f, n, b)) && AllHeld(n, keys) && NoRepeats(keys)
    requires forall q :: q in keys ==> HasOrphans(H, s, LastNode(H, DeletedAll(Resolve(f, n, b), keys), q))
    ensures Fit(f, DeletedAll(n, keys), b)
    ensures Resolve(f, DeletedAll(n, keys), b) == DeletedAll(Resolve(f, n, b), keys)
    decreases |keys|
  {
    if keys != [] {
      var key, n' := keys[0], Delete(n, keys[0]).node;
      HeldAfter(n, keys);
      NothingHidden(H, s, f, n, b, keys);
      DeleteTransparentIff(f, n, b, key);
      DeleteKeepsDigests(n, key, Unknown(s));
      DeleteResult(Resolve(f, n, b), key);
      DeletionsSeen(H, s, f, n', b, keys[1..]);
    }
  }

  // ----- the main results

  /** `t'` is `t` without the keys. */
  ghost predicate Without(t: Node, keys: seq<Nibbles>, t': Node)
    requires Shaped(t) && Shaped(t')
  {
    forall q :: Get(t', q) == if q in keys then Ok(None) else Get(t, q)
  }

  lemma {:induction false} DeletionsReach(t: Node, keys: seq<Nibbles>, t': Node)
    requires Canonical(t) && Resolved(t) && Canonical(t') && Resolved(t')
    requires AllHeld(t, keys) && NoRepeats(keys) && Without(t, keys, t')
    ensures DeletedAll(t, keys) == t'
  {
    forall q ensures Get(DeletedAll(t, keys), q) == Get(t', q) && Canonical(DeletedAll(t, keys)) {
      DeletionsAreRemovals(t, keys, q);
    }
    DeletionsAreRemovals(t, keys, []);
    DeletionsKeepResolved(t, keys);
    OneShapePerMap(DeletedAll(t, keys), t');
  }

  /**
   Any number of deletions, in any order, served by the proofs of their keys before the first and after the
   last: the trie resolved from the nodes of these proofs has the root of the full trie and the values of the
   keys, each deletion finds its key, and the root in the end is that of the full trie without the keys.
   */
  lemma {:induction false} DeletionsAreServed(H: Hasher, t: Node, keys: seq<Nibbles>, t': Node, s: Store, f: Store)
    requires Canonical(t) && Resolved(t) && Canonical(t') && Resolved(t')
    requires AllHeld(t, keys) && NoRepeats(keys) && Without(t, keys, t')
    requires Ranked(s) && PartOf(s, f) && KeyedByReference(H, f.nodes) && Sees(f, Shallow(H, t), t)
    requires forall q :: q in keys ==> HasPath(H, s, PathNodes(H, t, q)[1..])
    requires forall q :: q in keys ==> HasOrphans(H, s, LastNode(H, t', q))
    ensures var n := ResolveNodes(s, Shallow(H, t));
            && HashOf(H, n) == HashOf(H, t)
            && (forall q :: q in keys ==> Get(n, q) == Get(t, q))
            && AllDeleted(n, keys)
            && Sees(f, DeletedAll(n, keys), t')
            && HashOf(H, DeletedAll(n, keys)) == HashOf(H, t')
  {
    var n := ResolveNodes(s, Shallow(H, t));
    ServedTrie(H, t, s, f);
    forall q | q in keys ensures Get(n, q) == Get(t, q) { PathIsOpen(H, s, t, Ceiling(s, Shallow(H, t)), q); }
    DeletionsReach(t, keys, t');
    DeletionsAreRemovals(n, keys, []);
    var b := Ceiling(f, n);
    DeletionsSeen(H, s, f, n, b, keys);
    SeesAt(f, DeletedAll(n, keys), b);
    SameHash(H, f, DeletedAll(n, keys), t');
  }
}
