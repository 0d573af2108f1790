/**
 The trie behaves as a map from nibble paths to values: what insertion and deletion do to every
 lookup, that canonical form is kept, and when exactly an operation is refused.
 */
module TrieMap {
  import opened Prelude
  import opened HexPrefix
  import opened Trie

  // ----- insertion

  /** Lookups in the two-way branch that a diverging insertion creates. */
  lemma {:induction false} GetTwoChildren(i: Nibble, a: Node, j: Nibble, b: Node, q: Nibbles)
    requires Shaped(a) && Shaped(b) && i != j
    ensures Get(TwoChildren(i, a, j, b), q) ==
            if q == [] then Ok(None)
            else if q[0] == i then Get(a, q[1..])
            else if q[0] == j then Get(b, q[1..])
            else Ok(None)
  {
  }

  /** A path `nibs` that diverges from `key` at `c`, cut into its common part, one nibble and the rest. */
  lemma {:induction false} CutPath(nibs: Nibbles, c: nat, q: Nibbles)
    requires c < |nibs|
    ensures nibs == nibs[..c] + ([nibs[c]] + nibs[c + 1..])
    ensures nibs <= q <==> nibs[..c] <= q && c < |q| && q[c] == nibs[c] && nibs[c + 1..] <= q[c + 1..]
    ensures nibs == q <==> nibs[..c] <= q && c < |q| && q[c] == nibs[c] && nibs[c + 1..] == q[c + 1..]
    ensures nibs <= q ==> q[c + 1..][|nibs[c + 1..]|..] == q[|nibs|..]
  {
    assert nibs == nibs[..c] + ([nibs[c]] + nibs[c + 1..]);
    GetSplit(nibs[..c], [nibs[c]] + nibs[c + 1..], q);
    if nibs[..c] <= q {
      GetSplit([nibs[c]], nibs[c + 1..], q[c..]);
      if c < |q| {
        assert q[c..][1..] == q[c + 1..];
      }
    }
  }

  lemma {:induction false} GetFork(common: Nibbles, i: Nibble, a: Node, j: Nibble, b: Node, q: Nibbles)
    requires Shaped(a) && Shaped(b) && i != j
    ensures Get(Under(common, TwoChildren(i, a, j, b)), q) ==
            if !(common <= q) || |q| == |common| then Ok(None)
            else if q[|common|] == i then Get(a, q[|common| + 1..])
            else if q[|common|] == j then Get(b, q[|common| + 1..])
            else Ok(None)
  {
    GetUnder(common, TwoChildren(i, a, j, b), q);
    if common <= q {
      GetTwoChildren(i, a, j, b, q[|common|..]);
      if |common| < |q| {
        assert q[|common|..][1..] == q[|common| + 1..];
      }
    }
  }

  lemma {:induction false} GetCutLeaf(nibs: Nibbles, c: nat, value: Bytes, q: Nibbles)
    requires c < |nibs| && nibs[..c] <= q && c < |q| && q[c] == nibs[c]
    ensures Get(LeafAt(nibs[c + 1..], value), q[c + 1..]) == Get(LeafAt(nibs, value), q)
  {
    CutPath(nibs, c, q);
  }

  lemma {:induction false} GetCutExtension(nibs: Nibbles, c: nat, child: Node, q: Nibbles)
    requires Shaped(child)
    requires c < |nibs| && nibs[..c] <= q && c < |q| && q[c] == nibs[c]
    ensures Get(Under(nibs[c + 1..], child), q[c + 1..]) == Get(ExtensionAt(nibs, child), q)
  {
    CutPath(nibs, c, q);
    GetUnder(nibs[c + 1..], child, q[c + 1..]);
  }

  /**
   A fork built at the point where `nibs` and `key` part: keys that leave `nibs` before or at the
   fork are those of the new leaf or nobody's, the others are those of what was stored under `nibs`.
   */
  lemma {:induction false} GetAtFork(nibs: Nibbles, key: Nibbles, a: Node, value: Bytes, q: Nibbles)
    requires Shaped(a)
    requires var c := CommonLen(nibs, key); c < |nibs| && c < |key|
    ensures var c := CommonLen(nibs, key);
            Get(Under(nibs[..c], TwoChildren(nibs[c], a, key[c], LeafAt(key[c + 1..], value))), q) ==
            if nibs[..c] <= q && c < |q| && q[c] == nibs[c] then Get(a, q[c + 1..])
            else if q == key then Ok(Some(value)) else Ok(None)
  {
    var c := CommonLen(nibs, key);
    var common := nibs[..c];
    assert common == key[..c];
    GetFork(common, nibs[c], a, key[c], LeafAt(key[c + 1..], value), q);
    if common <= q && c < |q| && q[c] == key[c] {
      GetCutLeaf(key, c, value, q);
    }
  }

  lemma {:induction false} InsertIntoLeaf(p: Path, stored: Bytes, key: Nibbles, value: Bytes, q: Nibbles)
    requires Sound(p)
    requires var c := CommonLen(p.nibs, key); c < |p.nibs| && c < |key|
    ensures Get(Insert(Leaf(p, stored), key, value).node, q) ==
            if q == key then Ok(Some(value)) else Get(Leaf(p, stored), q)
  {
    var nibs := p.nibs;
    var c := CommonLen(nibs, key);
    GetAtFork(nibs, key, LeafAt(nibs[c + 1..], stored), value, q);
    if nibs[..c] <= q && c < |q| && q[c] == nibs[c] { GetCutLeaf(nibs, c, stored, q); }
  }

  lemma {:induction false} InsertIntoExtension(p: Path, child: Node, key: Nibbles, value: Bytes, q: Nibbles)
    requires Sound(p) && Shaped(child)
    requires var c := CommonLen(p.nibs, key); c < |p.nibs| && c < |key|
    ensures Get(Insert(Extension(p, child), key, value).node, q) ==
            if q == key then Ok(Some(value)) else Get(Extension(p, child), q)
  {
    var nibs := p.nibs;
    var c := CommonLen(nibs, key);
    GetAtFork(nibs, key, Under(nibs[c + 1..], child), value, q);
    if nibs[..c] <= q && c < |q| && q[c] == nibs[c] { GetCutExtension(nibs, c, child, q); }
  }

  /** An update below an extension is an update of the whole. */
  lemma {:induction false} UpdateBelow(p: Path, child: Node, child': Node, key: Nibbles, value: Bytes, q: Nibbles)
    requires Sound(p) && Shaped(child) && Shaped(child') && p.nibs <= key
    requires var m := |p.nibs|;
             p.nibs <= q ==>
               Get(child', q[m..]) == if q[m..] == key[m..] then Ok(Some(value)) else Get(child, q[m..])
    ensures Get(Extension(p, child'), q) == if q == key then Ok(Some(value)) else Get(Extension(p, child), q)
  {
    var nibs := p.nibs;
    GetSplit(nibs, key[|nibs|..], q);
    assert key == nibs + key[|nibs|..];
  }

  /** Insertion is map update for every lookup, even one that stops at a truncated node. */
  lemma {:induction false} InsertIsUpdate(n: Node, key: Nibbles, value: Bytes, q: Nibbles)
    requires Shaped(n)
    requires Insert(n, key, value).res.Ok?
    ensures Get(Insert(n, key, value).node, q) == if q == key then Ok(Some(value)) else Get(n, q)
  {
    match n
    case Null =>
    case Branch(ch) =>
      if ch[key[0]].None? {
      } else if q != [] && q[0] == key[0] {
        InsertIsUpdate(ch[key[0]].value, key[1..], value, q[1..]);
      }
    case Leaf(p, v) =>
      var c := CommonLen(p.nibs, key);
      if c < |p.nibs| && c < |key| {
        InsertIntoLeaf(p, v, key, value, q);
      } else {
        assert p.nibs == key;
      }
    case Extension(p, child) =>
      var nibs := p.nibs;
      var c := CommonLen(nibs, key);
      if c < |nibs| {
        InsertIntoExtension(p, child, key, value, q);
      } else {
        if nibs <= q { InsertIsUpdate(child, key[c..], value, q[c..]); }
        UpdateBelow(p, child, Insert(child, key[c..], value).node, key, value, q);
      }
    case Digest(_) =>
  }

  /**
   The result of an insertion: `Ok(true)` exactly when the stored value changes, an unresolved
   node exactly when the lookup meets it, and the trie is left alone in every other case.
   */
  lemma {:induction false} InsertResult(n: Node, key: Nibbles, value: Bytes)
    requires Shaped(n)
    ensures var s := Insert(n, key, value);
            && (s.res != Ok(true) ==> s.node == n)
            && (s.res.Ok? ==> s.res.value == (Get(n, key) != Ok(Some(value))))
            && (Get(n, key).Err? <==> s.res.Err? && s.res.error.NodeNotResolved?)
            && (Get(n, key).Err? ==> s.res.error == Get(n, key).error)
            && s.res != Err(Panic)
  {
    match n
    case Null =>
    case Branch(ch) =>
      if key != [] && ch[key[0]].Some? {
        InsertResult(ch[key[0]].value, key[1..], value);
      }
    case Leaf(p, v) =>
      assert p.nibs[..|p.nibs|] == p.nibs && key[..|key|] == key;
    case Extension(p, child) =>
      var nibs := p.nibs;
      var c := CommonLen(nibs, key);
      assert c == |nibs| <==> nibs <= key;
      if c == |nibs| { InsertResult(child, key[c..], value); }
    case Digest(_) =>
  }

  lemma {:induction false} LiveTwoChildren(i: Nibble, a: Node, j: Nibble, b: Node)
    requires Live(a) && Live(b) && i != j
    ensures Live(TwoChildren(i, a, j, b))
  {
    var ch := TwoChildren(i, a, j, b).children;
    assert ch[i].Some? && ch[j].Some?;
    assert AtLeastTwo(ch);
  }

  lemma {:induction false} LiveUnder(nibs: Nibbles, below: Node)
    requires Live(below) && (below.Branch? || below.Digest?)
    ensures Live(Under(nibs, below))
  {
  }

  lemma {:induction false} LiveWithChild(ch: Children, i: Nibble, child: Node)
    requires Live(Branch(ch)) && Live(child)
    ensures Live(WithChild(ch, i, child))
  {
    var a, b :| 0 <= a < b < |ch| && ch[a].Some? && ch[b].Some?;
    var ch' := ch[i := Some(child)];
    assert ch'[a].Some? && ch'[b].Some?;
  }

  /** Insertion keeps a live sub-trie live, and what may stand below an extension may still stand there. */
  lemma {:induction false} InsertKeepsLive(n: Node, key: Nibbles, value: Bytes)
    requires Live(n)
    ensures var n' := Insert(n, key, value).node;
            Live(n') && (n.Branch? ==> n'.Branch?) && (n.Digest? ==> n'.Digest?)
  {
    match n
    case Branch(ch) =>
      if key == [] {
      } else if ch[key[0]].None? {
        LiveWithChild(ch, key[0], LeafAt(key[1..], value));
      } else {
        InsertKeepsLive(ch[key[0]].value, key[1..], value);
        LiveWithChild(ch, key[0], Insert(ch[key[0]].value, key[1..], value).node);
      }
    case Leaf(p, v) =>
      var c := CommonLen(p.nibs, key);
      if c < |p.nibs| && c < |key| {
        var a, b := LeafAt(p.nibs[c + 1..], v), LeafAt(key[c + 1..], value);
        LiveTwoChildren(p.nibs[c], a, key[c], b);
        LiveUnder(p.nibs[..c], TwoChildren(p.nibs[c], a, key[c], b));
      }
    case Extension(p, child) =>
      var c := CommonLen(p.nibs, key);
      if c == |p.nibs| {
        InsertKeepsLive(child, key[c..], value);
      } else if c < |key| {
        var a, b := Under(p.nibs[c + 1..], child), LeafAt(key[c + 1..], value);
        LiveUnder(p.nibs[c + 1..], child);
        LiveTwoChildren(p.nibs[c], a, key[c], b);
        LiveUnder(p.nibs[..c], TwoChildren(p.nibs[c], a, key[c], b));
      }
    case Digest(_) =>
  }

  /** Insertion keeps canonical form. */
  lemma {:induction false} InsertKeepsCanonical(n: Node, key: Nibbles, value: Bytes)
    requires Canonical(n)
    ensures Canonical(Insert(n, key, value).node)
  {
    if Live(n) { InsertKeepsLive(n, key, value); }
  }

  // ----- deletion

  /** Merging a lone child upwards changes no lookup. */
  lemma {:induction false} CollapseIsSilent(ch: Children, q: Nibbles)
    requires |ch| == 16 && Shaped(Branch(ch)) && Collapse(ch).res.Ok?
    ensures Get(Collapse(ch).node, q) == Get(Branch(ch), q)
  {
    var first := NextChild(ch, 0);
    if NextChild(ch, first.value + 1).None? {
      var i := first.value;
      assert Shaped(ch[i].value);
      var path := match ch[i].value
        case Leaf(p, _) => p.nibs
        case Extension(p, _) => p.nibs
        case _ => [];
      GetSplit([i], path, q);
      assert [i] + [] == [i];
    }
  }

  /** So does joining an extension with what its child became. */
  lemma {:induction false} RejoinIsSilent(p: Path, child: Node, q: Nibbles)
    requires Sound(p) && Shaped(child)
    ensures Get(Rejoin(p, child), q) == Get(Extension(p, child), q)
  {
    if child.Leaf? || child.Extension? {
      GetSplit(p.nibs, child.path.nibs, q);
    }
  }

  lemma {:induction false} LiveCollapse(ch: Children)
    requires |ch| == 16 && Shaped(Branch(ch))
    requires forall i :: 0 <= i < 16 && ch[i].Some? ==> Live(ch[i].value)
    requires exists i :: 0 <= i < 16 && ch[i].Some?
    ensures Collapse(ch).res == Ok(true) && Live(Collapse(ch).node)
  {
    var i: int := NextChild(ch, 0).value;
    assert Live(ch[i].value);
    var second := NextChild(ch, i + 1);
    if second.Some? {
      assert ch[i].Some? && ch[second.value].Some?;
      assert AtLeastTwo(ch);
    }
  }

  lemma {:induction false} LiveRejoin(p: Path, child: Node)
    requires Canonical(child) && p == Clean(p.nibs, false) && p.nibs != []
    ensures Canonical(Rejoin(p, child))
  {
  }

  /** After its `i`-th child shrank, a canonical branch still holds one. */
  lemma {:induction false} SomethingRemains(ch: Children, i: Nibble, child: Node)
    requires Live(Branch(ch)) && Canonical(child)
    ensures var ch' := ch[i := if child.Null? then None else Some(child)];
            && Shaped(Branch(ch'))
            && (forall j :: 0 <= j < 16 && ch'[j].Some? ==> Live(ch'[j].value))
            && exists j :: 0 <= j < 16 && ch'[j].Some?
  {
    var a, b :| 0 <= a < b < |ch| && ch[a].Some? && ch[b].Some?;
    var ch' := ch[i := if child.Null? then None else Some(child)];
    assert ch'[a] == ch[a] || ch'[b] == ch[b];
    forall j | 0 <= j < 16 && ch'[j].Some?
      ensures Live(ch'[j].value)
    {
      assert j != i ==> ch'[j] == ch[j];
    }
  }

  /**
   Deletion keeps canonical form and never reaches the `unwrap` or the `unreachable!` of the branch
   collapse. `Ok(true)` is returned exactly when the key was there; in every other case the trie is
   left alone; an unresolved node is reported exactly when the lookup meets it.
   */
  lemma {:induction false} DeleteResult(n: Node, key: Nibbles)
    requires Canonical(n)
    ensures var s := Delete(n, key);
            && Canonical(s.node)
            && s.res != Err(Panic)
            && (s.res != Ok(true) ==> s.node == n)
            && (s.res.Ok? ==> s.res.value == Holds(n, key))
            && (Get(n, key).Err? <==> s.res.Err? && s.res.error.NodeNotResolved?)
            && (Get(n, key).Err? ==> s.res.error == Get(n, key).error)
  {
    match n
    case Null =>
    case Branch(ch) =>
      if key != [] && ch[key[0]].Some? {
        var c := ch[key[0]].value;
        DeleteResult(c, key[1..]);
        var s := Delete(c, key[1..]);
        if s.res != Ok(true) {
          assert ch[key[0] := Some(c)] == ch;
        } else {
          SomethingRemains(ch, key[0], s.node);
          LiveCollapse(ch[key[0] := if s.node.Null? then None else Some(s.node)]);
        }
      }
    case Leaf(_, _) =>
    case Extension(p, child) =>
      if p.nibs <= key {
        DeleteResult(child, key[|p.nibs|..]);
        var s := Delete(child, key[|p.nibs|..]);
        if s.res == Ok(true) { LiveRejoin(p, s.node); }
      }
    case Digest(_) =>
  }

  /** Deletion is map removal for every lookup, even one that stops at a truncated node. */
  lemma {:induction false} DeleteIsRemoval(n: Node, key: Nibbles, q: Nibbles)
    requires Canonical(n)
    requires Delete(n, key).res.Ok?
    ensures Get(Delete(n, key).node, q) == if q == key then Ok(None) else Get(n, q)
  {
    match n
    case Null =>
    case Branch(ch) => DeleteInBranch(ch, key, q);
    case Leaf(_, _) =>
    case Extension(p, child) =>
      var nibs := p.nibs;
      if nibs <= key {
        var s := Delete(child, key[|nibs|..]);
        DeleteResult(child, key[|nibs|..]);
        GetSplit(nibs, key[|nibs|..], q);
        assert key == nibs + key[|nibs|..];
        RejoinIsSilent(p, s.node, q);
        if nibs <= q { DeleteIsRemoval(child, key[|nibs|..], q[|nibs|..]); }
      }
    case Digest(_) =>
  }

  lemma {:induction false} DeleteInBranch(ch: Children, key: Nibbles, q: Nibbles)
    requires Live(Branch(ch))
    requires Delete(Branch(ch), key).res.Ok?
    ensures Get(Delete(Branch(ch), key).node, q) == if q == key then Ok(None) else Get(Branch(ch), q)
    decreases ch, 0
  {
    if ch[key[0]].Some? {
      var c := ch[key[0]].value;
      DeleteResult(c, key[1..]);
      var s := Delete(c, key[1..]);
      if s.res == Ok(true) {
        if q != [] && q[0] == key[0] { DeleteIsRemoval(c, key[1..], q[1..]); }
        SomethingRemains(ch, key[0], s.node);
        RemovalInBranch(ch, key, s.node, q);
      } else {
        assert ch[key[0] := Some(c)] == ch;
      }
    }
  }

  lemma {:induction false} RemovalInBranch(ch: Children, key: Nibbles, child: Node, q: Nibbles)
    requires Live(Branch(ch)) && key != [] && Shaped(child)
    requires var ch' := ch[key[0] := if child.Null? then None else Some(child)];
             && Shaped(Branch(ch'))
             && (forall j :: 0 <= j < 16 && ch'[j].Some? ==> Live(ch'[j].value))
             && exists j :: 0 <= j < 16 && ch'[j].Some?
    requires q != [] && q[0] == key[0] ==>
               Get(child, q[1..]) == if q == key then Ok(None) else Get(Branch(ch), q)
    ensures Get(Collapse(ch[key[0] := if child.Null? then None else Some(child)]).node, q) ==
            if q == key then Ok(None) else Get(Branch(ch), q)
  {
    var ch' := ch[key[0] := if child.Null? then None else Some(child)];
    LiveCollapse(ch');
    CollapseIsSilent(ch', q);
  }

  lemma {:induction false} HeldIsDeleted(n: Node, key: Nibbles)
    requires Canonical(n) && Holds(n, key)
    ensures Delete(n, key).res == Ok(true)
  {
    DeleteResult(n, key);
    match n
    case Branch(ch) => HeldIsDeleted(ch[key[0]].value, key[1..]);
    case Extension(p, c) => HeldIsDeleted(c, key[|p.nibs|..]);
    case _ =>
  }
}
