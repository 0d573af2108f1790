/**
 Truncation is transparent: what an operation does to a truncated trie is what it does to the
 resolved one. For deletion this has one exception, and it is described exactly.
 */
module TrieTruncation {
  import opened Prelude
  import opened HexPrefix
  import opened Trie
  import opened TrieMap
  import opened TrieCodec
  import opened TrieResolve

  // ----- lookup

  lemma {:induction false} GetInResolvedBranch(s: Store, ch: Children, b: nat, key: Nibbles)
    requires Fit(s, Branch(ch), b) && key != []
    ensures Get(Resolve(s, Branch(ch), b), key) ==
            match ch[key[0]] case None => Ok(None) case Some(c) => Get(Resolve(s, c, b), key[1..])
  {
    ResolvedPlace(s, ch, b, 0, key[0]);
  }

  lemma {:induction false} GetTransparent(s: Store, n: Node, b: nat, key: Nibbles)
    requires Fit(s, n, b) && Get(n, key).Ok?
    ensures Get(Resolve(s, n, b), key) == Get(n, key)
  {
    match n
    case Branch(ch) =>
      if key != [] {
        GetInResolvedBranch(s, ch, b, key);
        if ch[key[0]].Some? { GetTransparent(s, ch[key[0]].value, b, key[1..]); }
      }
    case Extension(p, c) =>
      if p.nibs <= key { GetTransparent(s, c, b, key[|p.nibs|..]); }
    case _ =>
  }

  lemma {:induction false} SameAnswer(s: Store, n: Node, full: Node, key: Nibbles)
    requires Sees(s, n, full) && Get(n, key).Ok?
    ensures Shaped(full) && Get(full, key) == Get(n, key)
  {
    GetTransparent(s, n, Ceiling(s, n), key);
  }

  // ----- resolving the nodes that insertion builds

  lemma {:induction false} ResolveWithChild(s: Store, ch: Children, i: Nibble, c: Node, b: nat)
    requires Fit(s, Branch(ch), b) && Fit(s, c, b)
    ensures Fit(s, WithChild(ch, i, c), b)
    ensures Resolve(s, WithChild(ch, i, c), b) == WithChild(ResolveChildren(s, ch, b, 0), i, Resolve(s, c, b))
  {
    var ch' := ch[i := Some(c)];
    var r := ResolveChildren(s, ch, b, 0)[i := Some(Resolve(s, c, b))];
    forall j | 0 <= j < 16 ensures r[j] == ResolvePlace(s, ch', b, j) {
      ResolvedPlace(s, ch, b, 0, j);
    }
    ResolvedChildrenAre(s, ch', b, r);
  }

  lemma {:induction false} ResolveNoChildren(s: Store, b: nat)
    requires Ranked(s)
    ensures Fit(s, Branch(NO_CHILDREN), b) && ResolveChildren(s, NO_CHILDREN, b, 0) == NO_CHILDREN
  {
    ResolvedChildrenAre(s, NO_CHILDREN, b, NO_CHILDREN);
  }

  lemma {:induction false} ResolveTwoChildren(s: Store, i: Nibble, x: Node, j: Nibble, y: Node, b: nat)
    requires Fit(s, x, b) && Fit(s, y, b)
    ensures Fit(s, TwoChildren(i, x, j, y), b)
    ensures Resolve(s, TwoChildren(i, x, j, y), b) == TwoChildren(i, Resolve(s, x, b), j, Resolve(s, y, b))
  {
    ResolveNoChildren(s, b);
    ResolveWithChild(s, NO_CHILDREN, i, x, b);
    ResolveWithChild(s, NO_CHILDREN[i := Some(x)], j, y, b);
  }

  lemma {:induction false} ResolveUnder(s: Store, nibs: Nibbles, c: Node, b: nat)
    requires Fit(s, c, b)
    ensures Fit(s, Under(nibs, c), b)
    ensures Resolve(s, Under(nibs, c), b) == Under(nibs, Resolve(s, c, b))
  {
  }

  lemma {:induction false} ResolveFork(s: Store, nibs: Nibbles, i: Nibble, x: Node, j: Nibble, y: Node, b: nat)
    requires Fit(s, x, b) && Fit(s, y, b)
    ensures var n := Under(nibs, TwoChildren(i, x, j, y));
            && Fit(s, n, b)
            && Resolve(s, n, b) == Under(nibs, TwoChildren(i, Resolve(s, x, b), j, Resolve(s, y, b)))
  {
    ResolveTwoChildren(s, i, x, j, y, b);
    ResolveUnder(s, nibs, TwoChildren(i, x, j, y), b);
  }

  // ----- insertion

  predicate Unresolved(r: Result<bool, Error>) {
    r.Err? && r.error.NodeNotResolved?
  }

  lemma {:induction false} InsertLeafTransparent(s: Store, p: Path, v: Bytes, b: nat, key: Nibbles, value: Bytes)
    requires Ranked(s) && Sound(p)
    ensures var x := Insert(Leaf(p, v), key, value);
            Fit(s, x.node, b) && Resolve(s, x.node, b) == x.node
  {
    var c := CommonLen(p.nibs, key);
    if c < |p.nibs| && c < |key| {
      ResolveFork(s, p.nibs[..c], p.nibs[c], LeafAt(p.nibs[c + 1..], v), key[c], LeafAt(key[c + 1..], value), b);
    }
  }

  lemma {:induction false} InsertForkTransparent(s: Store, p: Path, child: Node, b: nat, key: Nibbles, value: Bytes)
    requires Fit(s, Extension(p, child), b) && CommonLen(p.nibs, key) < |p.nibs|
    ensures var x := Insert(Extension(p, child), key, value);
            && Fit(s, x.node, b)
            && Insert(Extension(p, Resolve(s, child, b)), key, value) == Step(Resolve(s, x.node, b), x.res)
  {
    var c := CommonLen(p.nibs, key);
    if c < |key| {
      ResolveUnder(s, p.nibs[c + 1..], child, b);
      ResolveFork(s, p.nibs[..c], p.nibs[c], Under(p.nibs[c + 1..], child), key[c], LeafAt(key[c + 1..], value), b);
    }
  }

  lemma {:induction false} InsertBelowTransparent(s: Store, ch: Children, b: nat, key: Nibbles, value: Bytes)
    requires Fit(s, Branch(ch), b) && key != [] && !Unresolved(Insert(Branch(ch), key, value).res)
    requires ch[key[0]].Some? ==>
               var x := Insert(ch[key[0]].value, key[1..], value);
               && Fit(s, x.node, b)
               && Insert(Resolve(s, ch[key[0]].value, b), key[1..], value) == Step(Resolve(s, x.node, b), x.res)
    ensures var x := Insert(Branch(ch), key, value);
            Fit(s, x.node, b) && Insert(Resolve(s, Branch(ch), b), key, value) == Step(Resolve(s, x.node, b), x.res)
  {
    ResolvedPlace(s, ch, b, 0, key[0]);
    if ch[key[0]].Some? {
      ResolveWithChild(s, ch, key[0], Insert(ch[key[0]].value, key[1..], value).node, b);
    } else {
      ResolveWithChild(s, ch, key[0], LeafAt(key[1..], value), b);
    }
  }

  /** Inserting and then resolving is resolving and then inserting. */
  lemma {:induction false} InsertTransparent(s: Store, n: Node, b: nat, key: Nibbles, value: Bytes)
    requires Fit(s, n, b) && !Unresolved(Insert(n, key, value).res)
    ensures var x := Insert(n, key, value);
            Fit(s, x.node, b) && Insert(Resolve(s, n, b), key, value) == Step(Resolve(s, x.node, b), x.res)
  {
    match n
    case Branch(ch) =>
      if key != [] {
        if ch[key[0]].Some? { InsertTransparent(s, ch[key[0]].value, b, key[1..], value); }
        InsertBelowTransparent(s, ch, b, key, value);
      }
    case Leaf(p, v) => InsertLeafTransparent(s, p, v, b, key, value);
    case Extension(p, child) =>
      var c := CommonLen(p.nibs, key);
      if c == |p.nibs| {
        InsertTransparent(s, child, b, key[c..], value);
      } else {
        InsertForkTransparent(s, p, child, b, key, value);
      }
    case _ =>
  }

  // ----- deletion

  /** The child of a branch that has only one. */
  function LoneChild(ch: Children): Option<Node>
    requires |ch| == 16
  {
    var first := NextChild(ch, 0);
    if first.Some? && NextChild(ch, first.value + 1).None? then ch[first.value] else None
  }

  /**
   The sibling that deleting `key` leaves alone in its branch. This happens where the leaf of `key`
   hangs in a branch with one other child, and can be read off before the deletion.
   */
  function LoneSibling(n: Node, key: Nibbles): Option<Node>
    requires Shaped(n)
  {
    match n
    case Branch(ch) =>
      if key == [] || ch[key[0]].None? then None
      else
        var c := ch[key[0]].value;
        if c.Leaf? && c.path.nibs == key[1..] then LoneChild(ch[key[0] := None])
        else LoneSibling(c, key[1..])
    case Extension(p, c) => if p.nibs <= key then LoneSibling(c, key[|p.nibs|..]) else None
    case _ => None
  }

  /** The lone sibling is a digest that stands for a leaf or an extension (or for nothing at all). */
  ghost predicate HidesPath(s: Store, n: Node, key: Nibbles)
    requires Ranked(s) && Shaped(n)
  {
    Hidden(s, LoneSibling(n, key))
  }

  ghost predicate Hidden(s: Store, sib: Option<Node>)
    requires Ranked(s)
  {
    sib.Some? && sib.value.Digest? && StandsForPath(s, sib.value.digest)
  }

  ghost predicate StandsForPath(s: Store, d: Hash)
    requires Ranked(s)
  {
    && ByDigest(d) in s.nodes
    && var r := Resolve(s, s.nodes[ByDigest(d)], s.rank(d));
       !r.Branch? && !r.Digest?
  }

  lemma {:induction false} NextChildSame(x: Children, y: Children, i: nat)
    requires |x| == |y| == 16 && i <= 16
    requires forall j :: 0 <= j < 16 ==> x[j].Some? == y[j].Some?
    ensures NextChild(x, i) == NextChild(y, i)
    decreases 16 - i
  {
    if i < 16 { NextChildSame(x, y, i + 1); }
  }

  /** How many extensions stand one above the other. */
  function Chain(n: Node): nat {
    if n.Extension? then 1 + Chain(n.child) else 0
  }

  /** A child merged into one extension is not that child below another extension. */
  lemma {:induction false} MergedDiffers(i: Nibble, q: Path, c: Node)
    ensures ExtensionAt([i] + q.nibs, c) != ExtensionAt([i], Extension(q, c))
  {
    assert Chain(Extension(q, c)) != Chain(c);
  }

  /** Merging a lone child commutes with resolving, but for a digest that stands for a path. */
  lemma {:induction false} MergedTransparent(s: Store, i: Nibble, c: Node, b: nat)
    requires Fit(s, c, b) && Live(c)
    ensures var x := Merged(i, c);
            && Fit(s, x.node, b)
            && (Merged(i, Resolve(s, c, b)) == Step(Resolve(s, x.node, b), Ok(true)) <==>
                !(c.Digest? && StandsForPath(s, c.digest)))
  {
    var r := Resolve(s, c, b);
    if c.Digest? && r.Extension? { MergedDiffers(i, r.path, r.child); }
  }

  lemma {:induction false} CollapseTransparent(s: Store, ch: Children, b: nat)
    requires Fit(s, Branch(ch), b)
    requires forall j :: 0 <= j < 16 && ch[j].Some? ==> Live(ch[j].value)
    requires exists j :: 0 <= j < 16 && ch[j].Some?
    ensures Fit(s, Collapse(ch).node, b)
    ensures Collapse(ResolveChildren(s, ch, b, 0)) == Step(Resolve(s, Collapse(ch).node, b), Ok(true)) <==>
            !Hidden(s, LoneChild(ch))
  {
    var r := ResolveChildren(s, ch, b, 0);
    forall j | 0 <= j < 16 ensures r[j] == ResolvePlace(s, ch, b, j) { ResolvedPlace(s, ch, b, 0, j); }
    var i: int := NextChild(ch, 0).value;
    NextChildSame(ch, r, 0);
    NextChildSame(ch, r, i + 1);
    assert Live(ch[i].value);
    MergedTransparent(s, i, ch[i].value, b);
  }

  // ----- where a deletion collapses a branch

  /** A node as deletion leaves it at the top: paths in trie form, and not empty for extensions. */
  predicate Tidy(n: Node) {
    match n
    case Leaf(p, _) => p == Clean(p.nibs, true)
    case Extension(p, _) => p == Clean(p.nibs, false) && p.nibs != []
    case Branch(_) => true
    case _ => false
  }

  lemma {:induction false} DeletedBranchIsTidy(ch: Children, key: Nibbles)
    requires Shaped(Branch(ch)) && Delete(Branch(ch), key).res == Ok(true)
    ensures Tidy(Delete(Branch(ch), key).node)
  {
  }

  /** In canonical form only a leaf can vanish. */
  lemma {:induction false} OnlyLeavesVanish(n: Node, key: Nibbles)
    requires Live(n) && Delete(n, key).res == Ok(true)
    ensures n.Leaf? ==> n.path.nibs == key && Delete(n, key).node.Null?
    ensures !n.Leaf? ==> Tidy(Delete(n, key).node)
  {
    match n
    case Branch(ch) => DeletedBranchIsTidy(ch, key);
    case Extension(p, c) => DeletedBranchIsTidy(c.children, key[|p.nibs|..]);
    case _ =>
  }

  /** A branch that lost no child stays a branch. */
  lemma {:induction false} NoCollapse(ch: Children, i: Nibble, child: Node)
    requires Shaped(Branch(ch)) && AtLeastTwo(ch) && ch[i].Some? && Shaped(child)
    ensures Shaped(WithChild(ch, i, child))
    ensures Collapse(ch[i := Some(child)]) == Step(WithChild(ch, i, child), Ok(true))
  {
    var x, y :| 0 <= x < y < |ch| && ch[x].Some? && ch[y].Some?;
    var ch' := ch[i := Some(child)];
    assert ch'[x].Some? && ch'[y].Some?;
  }

  lemma {:induction false} ResolveWithoutChild(s: Store, ch: Children, i: Nibble, b: nat)
    requires Fit(s, Branch(ch), b)
    ensures Fit(s, Branch(ch[i := None]), b)
    ensures ResolveChildren(s, ch[i := None], b, 0) == ResolveChildren(s, ch, b, 0)[i := None]
  {
    var ch' := ch[i := None];
    var r := ResolveChildren(s, ch, b, 0)[i := None];
    forall j | 0 <= j < 16 ensures r[j] == ResolvePlace(s, ch', b, j) {
      ResolvedPlace(s, ch, b, 0, j);
    }
    ResolvedChildrenAre(s, ch', b, r);
  }

  lemma {:induction false} DeleteLeafInBranch(ch: Children, key: Nibbles)
    requires Shaped(Branch(ch))
    requires key != [] && ch[key[0]].Some? && ch[key[0]].value.Leaf? && ch[key[0]].value.path.nibs == key[1..]
    ensures Shaped(Branch(ch[key[0] := None]))
    ensures Delete(Branch(ch), key) == Collapse(ch[key[0] := None])
  {
  }

  /** The deletion of a leaf that hangs directly in a branch. */
  lemma {:induction false} DropLeaf(s: Store, ch: Children, b: nat, key: Nibbles)
    requires Fit(s, Branch(ch), b) && Live(Branch(ch))
    requires key != [] && ch[key[0]].Some? && ch[key[0]].value.Leaf? && ch[key[0]].value.path.nibs == key[1..]
    ensures var x := Delete(Branch(ch), key);
            && Fit(s, x.node, b) && x.res == Ok(true)
            && (Delete(Resolve(s, Branch(ch), b), key) == Step(Resolve(s, x.node, b), Ok(true)) <==>
                !HidesPath(s, Branch(ch), key))
  {
    SomethingRemains(ch, key[0], Null);
    LiveCollapse(ch[key[0] := None]);
    ResolveWithoutChild(s, ch, key[0], b);
    CollapseTransparent(s, ch[key[0] := None], b);
    DeleteLeafInBranch(ch, key);
    ResolvedPlace(s, ch, b, 0, key[0]);
    DeleteLeafInBranch(ResolveChildren(s, ch, b, 0), key);
  }

  /** What a deletion deeper down does to a branch. */
  lemma {:induction false} DeleteDeeper(ch: Children, key: Nibbles)
    requires Shaped(Branch(ch)) && AtLeastTwo(ch) && key != [] && ch[key[0]].Some?
    ensures var y := Delete(ch[key[0]].value, key[1..]);
            var whole := Delete(Branch(ch), key);
            && (y.res != Ok(true) ==> whole.res == y.res)
            && (y.res == Ok(true) && !y.node.Null? ==> whole == Step(WithChild(ch, key[0], y.node), Ok(true)))
            && (y.res == Ok(true) && y.node.Null? && whole.node.Branch? ==> whole.node.children[key[0]].None?)
  {
    var y := Delete(ch[key[0]].value, key[1..]);
    if y.res == Ok(true) && !y.node.Null? { NoCollapse(ch, key[0], y.node); }
  }

  lemma {:induction false} ResolveKeepsTwo(s: Store, ch: Children, b: nat)
    requires Fit(s, Branch(ch), b) && AtLeastTwo(ch)
    ensures AtLeastTwo(ResolveChildren(s, ch, b, 0))
  {
    var i, j :| 0 <= i < j < |ch| && ch[i].Some? && ch[j].Some?;
    var r := ResolveChildren(s, ch, b, 0);
    ResolvedPlace(s, ch, b, 0, i);
    ResolvedPlace(s, ch, b, 0, j);
    assert r[i].Some? && r[j].Some?;
  }

  /** Two deletions deeper down agree exactly when the branches above agree. */
  lemma {:induction false} SameWhole(ch: Children, i: Nibble, x: Node, y: Step, whole: Step)
    requires |ch| == 16 && Shaped(whole.node) && !x.Null?
    requires y.res != Ok(true) ==> whole.res == y.res
    requires y.res == Ok(true) && !y.node.Null? ==> whole == Step(WithChild(ch, i, y.node), Ok(true))
    requires y.res == Ok(true) && y.node.Null? && whole.node.Branch? ==> whole.node.children[i].None?
    ensures whole == Step(WithChild(ch, i, x), Ok(true)) <==> y == Step(x, Ok(true))
  {
    assert WithChild(ch, i, x).children[i] == Some(x);
    assert WithChild(ch, i, y.node).children[i] == Some(y.node);
  }

  /** A deletion deeper down, as the branch above sees it. */
  lemma {:induction false} DeeperInBranch(s: Store, ch: Children, b: nat, key: Nibbles, x: Node)
    requires Fit(s, Branch(ch), b) && AtLeastTwo(ch)
    requires key != [] && ch[key[0]].Some?
    requires Delete(ch[key[0]].value, key[1..]) == Step(x, Ok(true)) && Fit(s, x, b) && !x.Null? && !x.Digest?
    ensures var y := Delete(Resolve(s, ch[key[0]].value, b), key[1..]);
            var whole := Delete(Branch(ch), key);
            && Fit(s, whole.node, b) && whole.res == Ok(true)
            && (Delete(Resolve(s, Branch(ch), b), key) == Step(Resolve(s, whole.node, b), Ok(true)) <==>
                y == Step(Resolve(s, x, b), Ok(true)))
  {
    var r := ResolveChildren(s, ch, b, 0);
    var y := Delete(Resolve(s, ch[key[0]].value, b), key[1..]);
    DeleteDeeper(ch, key);
    ResolveWithChild(s, ch, key[0], x, b);
    ResolveKeepsTwo(s, ch, b);
    ResolvedPlace(s, ch, b, 0, key[0]);
    DeleteDeeper(r, key);
    SameWhole(r, key[0], Resolve(s, x, b), y, Delete(Branch(r), key));
  }

  // ----- deletion below an extension

  lemma {:induction false} RejoinInjective(p: Path, x: Node, y: Node)
    requires Sound(p) && Shaped(x) && Shaped(y) && Tidy(x) && Tidy(y) && x != y
    ensures Rejoin(p, x) != Rejoin(p, y)
  {
    if (x.Leaf? && y.Leaf?) || (x.Extension? && y.Extension?) {
      var m := |p.nibs|;
      assert (p.nibs + x.path.nibs)[m..] == x.path.nibs;
      assert (p.nibs + y.path.nibs)[m..] == y.path.nibs;
    }
  }

  lemma {:induction false} RejoinTransparent(s: Store, p: Path, c: Node, b: nat)
    requires Fit(s, c, b) && Tidy(c) && Sound(p)
    ensures Fit(s, Rejoin(p, c), b) && Tidy(Resolve(s, c, b))
    ensures Resolve(s, Rejoin(p, c), b) == Rejoin(p, Resolve(s, c, b))
  {
  }

  lemma {:induction false} DeeperInExtension(s: Store, p: Path, ch: Children, b: nat, key: Nibbles)
    requires Sound(p) && Fit(s, Branch(ch), b) && p.nibs <= key
    requires var x := Delete(Branch(ch), key[|p.nibs|..]); Fit(s, x.node, b) && x.res == Ok(true)
    ensures var c := Branch(ch);
            var x := Delete(c, key[|p.nibs|..]);
            var y := Delete(Resolve(s, c, b), key[|p.nibs|..]);
            var whole := Delete(Extension(p, c), key);
            && Fit(s, whole.node, b)
            && (Delete(Resolve(s, Extension(p, c), b), key) == Step(Resolve(s, whole.node, b), Ok(true)) <==>
                y == Step(Resolve(s, x.node, b), Ok(true)))
  {
    var k := key[|p.nibs|..];
    var x := Delete(Branch(ch), k).node;
    DeletedBranchIsTidy(ch, k);
    RejoinTransparent(s, p, x, b);
    var r := ResolveChildren(s, ch, b, 0);
    var y := Delete(Branch(r), k);
    if y.res == Ok(true) {
      DeletedBranchIsTidy(r, k);
      if y.node != Resolve(s, x, b) { RejoinInjective(p, y.node, Resolve(s, x, b)); }
    }
  }

  // ----- the theorem

  lemma {:induction false} DeleteChangedTransparent(s: Store, n: Node, b: nat, key: Nibbles)
    requires Fit(s, n, b) && Live(n) && Delete(n, key).res == Ok(true)
    requires n.Branch? || n.Extension?
    ensures var x := Delete(n, key);
            && Fit(s, x.node, b)
            && (Delete(Resolve(s, n, b), key) == Step(Resolve(s, x.node, b), Ok(true)) <==>
                !HidesPath(s, n, key))
  {
    match n
    case Branch(ch) =>
      var c := ch[key[0]].value;
      DeleteResult(c, key[1..]);
      if Delete(c, key[1..]).res == Ok(true) { OnlyLeavesVanish(c, key[1..]); }
      if c.Leaf? {
        DropLeaf(s, ch, b, key);
      } else {
        DeleteChangedTransparent(s, c, b, key[1..]);
        DeeperInBranch(s, ch, b, key, Delete(c, key[1..]).node);
      }
    case Extension(p, c) =>
      DeleteChangedTransparent(s, c, b, key[|p.nibs|..]);
      DeeperInExtension(s, p, c.children, b, key);
  }

  lemma {:induction false} DeleteUnchangedTransparent(s: Store, n: Node, b: nat, key: Nibbles)
    requires Fit(s, n, b) && Canonical(n)
    requires Delete(n, key).res != Ok(true) && !Unresolved(Delete(n, key).res)
    ensures Delete(Resolve(s, n, b), key) == Step(Resolve(s, n, b), Delete(n, key).res)
  {
    match n
    case Branch(ch) =>
      if key != [] {
        ResolvedPlace(s, ch, b, 0, key[0]);
        if ch[key[0]].Some? {
          var c := ch[key[0]].value;
          DeleteResult(c, key[1..]);
          if Delete(c, key[1..]).res == Ok(true) {
            SomethingRemains(ch, key[0], Delete(c, key[1..]).node);
            LiveCollapse(ch[key[0] := if Delete(c, key[1..]).node.Null? then None else Some(Delete(c, key[1..]).node)]);
          } else {
            DeleteUnchangedTransparent(s, c, b, key[1..]);
            assert ResolveChildren(s, ch, b, 0)[key[0] := Some(Resolve(s, c, b))] == ResolveChildren(s, ch, b, 0);
          }
        }
      }
    case Extension(p, c) =>
      if p.nibs <= key { DeleteUnchangedTransparent(s, c, b, key[|p.nibs|..]); }
    case _ =>
  }

  /**
   Deleting and then resolving is resolving and then deleting, exactly unless the deletion leaves
   alone, in a collapsing branch, a digest that the store resolves to a leaf or an extension.
   */
  lemma {:induction false} DeleteTransparentIff(s: Store, n: Node, b: nat, key: Nibbles)
    requires Fit(s, n, b) && Canonical(n) && !Unresolved(Delete(n, key).res)
    ensures var x := Delete(n, key);
            && Fit(s, x.node, b)
            && (Delete(Resolve(s, n, b), key) == Step(Resolve(s, x.node, b), x.res) <==>
                !(x.res == Ok(true) && HidesPath(s, n, key)))
  {
    DeleteResult(n, key);
    if Delete(n, key).res != Ok(true) {
      DeleteUnchangedTransparent(s, n, b, key);
    } else if n.Branch? || n.Extension? {
      DeleteChangedTransparent(s, n, b, key);
    }
  }

  // ----- the exception occurs

  lemma {:induction false} LongLeaf(H: Hasher) returns (leaf: Node, d: Hash)
    ensures Live(leaf) && leaf.Leaf? && leaf == LeafAt([2], leaf.value) && Ref(H, leaf) == ByDigest(d)
  {
    var value: Hash := seq(32, _ => 1);
    leaf := LeafAt([2], value);
    d := H(Encode(H, leaf));
  }

  lemma {:induction false} NoChildrenAreNone(i: nat)
    requires i < 16
    ensures NO_CHILDREN[i].None?
  {
  }

  lemma {:induction false} OneDigestLeft(ch: Children, d: Hash)
    requires ch == TwoChildren(0, LeafAt([0], [1]), 1, Digest(d)).children
    ensures LoneChild(ch[0 := None]) == Some(Digest(d))
    ensures Shaped(Branch(ch[0 := None])) && Collapse(ch[0 := None]).node == ExtensionAt([1], Digest(d))
  {
    var rest := ch[0 := None];
    assert rest[0].None? && rest[1] == Some(Digest(d));
    assert NextChild(rest, 0) == Some(1);
    forall j | 2 <= j < 16 ensures rest[j].None? { NoChildrenAreNone(j); }
  }

  lemma {:induction false} LeafBelowExtension(s: Store, d: Hash, leaf: Node)
    requires s == Store(map[ByDigest(d) := leaf], s.rank) && s.rank(d) == 0 && Live(leaf) && leaf.Leaf?
    ensures Ranked(s) && StandsForPath(s, d)
    ensures Fit(s, Digest(d), 1) && Fit(s, ExtensionAt([1], Digest(d)), 1)
    ensures !Canonical(Resolve(s, ExtensionAt([1], Digest(d)), 1))
  {
    assert Below(s, leaf, 0);
    assert Resolve(s, Digest(d), 1) == leaf;
  }

  lemma {:induction false} SiblingIsDigest(ch: Children, d: Hash)
    requires ch == TwoChildren(0, LeafAt([0], [1]), 1, Digest(d)).children
    ensures Shaped(Branch(ch)) && Live(Branch(ch))
    ensures LoneSibling(Branch(ch), [0, 0]) == Some(Digest(d))
    ensures Delete(Branch(ch), [0, 0]) == Step(ExtensionAt([1], Digest(d)), Ok(true))
  {
    LiveTwoChildren(0, LeafAt([0], [1]), 1, Digest(d));
    assert ch[0] == Some(LeafAt([0], [1]));
    OneDigestLeft(ch, d);
    DeleteLeafInBranch(ch, [0, 0]);
  }

  /** Whatever the hash function: a concrete trie, store and key for which deletion misplaces a path. */
  lemma {:induction false} DeletionCanMisplaceAPath(H: Hasher) returns (s: Store, n: Node, bytes: Bytes, key: Nibbles)
    ensures key == NibblesOf(bytes)
    ensures Fit(s, n, 1) && Canonical(n) && KeyedByReference(H, s.nodes)
    ensures Delete(n, key).res == Ok(true) && Fit(s, Delete(n, key).node, 1)
    ensures Delete(Resolve(s, n, 1), key) != Step(Resolve(s, Delete(n, key).node, 1), Ok(true))
    ensures !Canonical(Resolve(s, Delete(n, key).node, 1))
  {
    var leaf, d := LongLeaf(H);
    s := Store(map[ByDigest(d) := leaf], _ => 0);
    LeafBelowExtension(s, d, leaf);
    n := TwoChildren(0, LeafAt([0], [1]), 1, Digest(d));
    bytes, key := [0], [0, 0];
    assert NibblesOf([0]) == [0, 0];
    ResolveTwoChildren(s, 0, LeafAt([0], [1]), 1, Digest(d), 1);
    SiblingIsDigest(n.children, d);
    DeleteTransparentIff(s, n, 1, key);
  }
}
