/**
 A fully resolved canonical trie is determined by its contents, so the trie reached by any
 successful history of insertions and deletions depends on the final map only.
 */
module TrieUnique {
  import opened Prelude
  import opened HexPrefix
  import opened Trie
  import opened TrieMap
  import opened TrieDigests

  // ----- keys of a resolved trie

  /** A key that a live resolved trie holds. */
  function SomeKey(n: Node): (q: Nibbles)
    requires Live(n) && Resolved(n)
    ensures Holds(n, q)
  {
    match n
    case Branch(ch) =>
      var i := NextChild(ch, 0).value;
      assert Live(ch[i].value) && Resolved(ch[i].value);
      KeyThroughBranch(ch, i, SomeKey(ch[i].value));
      [i] + SomeKey(ch[i].value)
    case Leaf(p, _) => p.nibs
    case Extension(p, c) =>
      KeyThroughExtension(p, c, SomeKey(c));
      p.nibs + SomeKey(c)
  }

  lemma {:induction false} KeyThroughBranch(ch: Children, i: Nibble, q: Nibbles)
    requires Shaped(Branch(ch)) && ch[i].Some?
    ensures Get(Branch(ch), [i] + q) == Get(ch[i].value, q)
  {
    assert ([i] + q)[1..] == q;
  }

  lemma {:induction false} KeyThroughExtension(p: Path, c: Node, q: Nibbles)
    requires Sound(p) && Shaped(c)
    ensures Get(Extension(p, c), p.nibs + q) == Get(c, q)
  {
    assert (p.nibs + q)[|p.nibs|..] == q;
  }

  /** A branch holds a key that does not begin with a given nibble. */
  lemma {:induction false} KeyAvoiding(ch: Children, x: Nibble) returns (q: Nibbles)
    requires Live(Branch(ch)) && Resolved(Branch(ch))
    ensures Holds(Branch(ch), q) && q != [] && q[0] != x
  {
    var a, b :| 0 <= a < b < |ch| && ch[a].Some? && ch[b].Some?;
    var i: Nibble := if a == x then b else a;
    assert Live(ch[i].value) && Resolved(ch[i].value);
    KeyThroughBranch(ch, i, SomeKey(ch[i].value));
    q := [i] + SomeKey(ch[i].value);
  }

  /** A branch or an extension holds a key other than a given one. */
  lemma {:induction false} AnotherKey(n: Node, k: Nibbles) returns (q: Nibbles)
    requires Live(n) && Resolved(n) && (n.Branch? || n.Extension?)
    ensures Holds(n, q) && q != k
  {
    if n.Branch? {
      q := KeyAvoiding(n.children, if k == [] then 0 else k[0]);
    } else {
      var m := |n.path.nibs|;
      var r := KeyAvoiding(n.child.children, if m < |k| then k[m] else 0);
      q := n.path.nibs + r;
      KeyThroughExtension(n.path, n.child, r);
    }
  }

  // ----- two different tries differ on some key

  lemma {:induction false} DistinguishExtensions(a: Node, b: Node) returns (q: Nibbles)
    requires a.Extension? && b.Extension? && Live(a) && Live(b) && Resolved(a) && Resolved(b)
    requires a.path.nibs != b.path.nibs && |a.path.nibs| <= |b.path.nibs|
    ensures Get(a, q) != Get(b, q)
  {
    var x, y := a.path.nibs, b.path.nibs;
    var r;
    if x <= y {
      r := KeyAvoiding(a.child.children, y[|x|]);
    } else {
      r := SomeKey(a.child);
    }
    KeyThroughExtension(a.path, a.child, r);
    q := x + r;
  }

  /** Two different canonical resolved tries can be told apart by a lookup. */
  lemma {:induction false} Distinguish(a: Node, b: Node) returns (q: Nibbles)
    requires Canonical(a) && Resolved(a) && Canonical(b) && Resolved(b) && a != b
    ensures Get(a, q) != Get(b, q)
    decreases a
  {
    if a.Null? {
      q := SomeKey(b);
    } else if b.Null? {
      q := SomeKey(a);
    } else if a.Leaf? && b.Leaf? {
      q := a.path.nibs;
    } else if a.Leaf? {
      q := AnotherKey(b, a.path.nibs);
    } else if b.Leaf? {
      q := AnotherKey(a, b.path.nibs);
    } else if a.Branch? && b.Branch? {
      q := DistinguishBranches(a.children, b.children);
    } else if a.Branch? {
      q := KeyAvoiding(a.children, b.path.nibs[0]);
    } else if b.Branch? {
      q := KeyAvoiding(b.children, a.path.nibs[0]);
    } else if a.path.nibs == b.path.nibs {
      var r := Distinguish(a.child, b.child);
      KeyThroughExtension(a.path, a.child, r);
      KeyThroughExtension(b.path, b.child, r);
      q := a.path.nibs + r;
    } else if |a.path.nibs| <= |b.path.nibs| {
      q := DistinguishExtensions(a, b);
    } else {
      q := DistinguishExtensions(b, a);
    }
  }

  lemma {:induction false} DistinguishBranches(x: Children, y: Children) returns (q: Nibbles)
    requires Live(Branch(x)) && Resolved(Branch(x)) && Live(Branch(y)) && Resolved(Branch(y)) && x != y
    ensures Get(Branch(x), q) != Get(Branch(y), q)
    decreases x, 0
  {
    var i :| 0 <= i < 16 && x[i] != y[i];
    assert x[i].Some? ==> Live(x[i].value) && Resolved(x[i].value);
    assert y[i].Some? ==> Live(y[i].value) && Resolved(y[i].value);
    var r;
    if x[i].None? {
      r := SomeKey(y[i].value);
    } else if y[i].None? {
      r := SomeKey(x[i].value);
    } else {
      r := Distinguish(x[i].value, y[i].value);
    }
    q := [i] + r;
    assert q[1..] == r;
  }

  ghost predicate SameContents(a: Node, b: Node)
    requires Shaped(a) && Shaped(b)
  {
    forall q :: Get(a, q) == Get(b, q)
  }

  /** One shape per map. */
  lemma {:induction false} OneShapePerMap(a: Node, b: Node)
    requires Canonical(a) && Resolved(a) && Canonical(b) && Resolved(b)
    ensures SameContents(a, b) <==> a == b
  {
    if a != b {
      var q := Distinguish(a, b);
    }
  }

  // ----- resolved tries stay resolved

  lemma {:induction false} ResolvedLookup(n: Node, q: Nibbles)
    requires Shaped(n) && Resolved(n)
    ensures Get(n, q).Ok?
  {
    match n
    case Branch(ch) => if q != [] && ch[q[0]].Some? { ResolvedLookup(ch[q[0]].value, q[1..]); }
    case Extension(p, c) => if p.nibs <= q { ResolvedLookup(c, q[|p.nibs|..]); }
    case _ =>
  }

  lemma {:induction false} ResolvedWithChild(ch: Children, i: Nibble, child: Node)
    requires |ch| == 16 && Resolved(Branch(ch)) && Resolved(child)
    ensures Resolved(WithChild(ch, i, child))
  {
  }

  lemma {:induction false} ResolvedFork(nibs: Nibbles, i: Nibble, a: Node, j: Nibble, b: Node)
    requires Resolved(a) && Resolved(b)
    ensures Resolved(Under(nibs, TwoChildren(i, a, j, b)))
  {
    ResolvedWithChild(NO_CHILDREN, i, a);
    ResolvedWithChild(NO_CHILDREN[i := Some(a)], j, b);
  }

  lemma {:induction false} ResolvedHasNoDigest(n: Node)
    ensures Resolved(n) <==> AllDigests(n, iset{})
  {
    match n
    case Branch(ch) =>
      forall i | 0 <= i < |ch| && ch[i].Some? ensures Resolved(ch[i].value) <==> AllDigests(ch[i].value, iset{}) {
        ResolvedHasNoDigest(ch[i].value);
      }
    case Extension(_, c) => ResolvedHasNoDigest(c);
    case _ =>
  }

  lemma {:induction false} InsertKeepsResolved(n: Node, key: Nibbles, value: Bytes)
    requires Shaped(n) && Resolved(n)
    ensures Resolved(Insert(n, key, value).node)
  {
    ResolvedHasNoDigest(n);
    InsertKeepsDigests(n, key, value, iset{});
    ResolvedHasNoDigest(Insert(n, key, value).node);
  }

  lemma {:induction false} DeleteKeepsResolved(n: Node, key: Nibbles)
    requires Shaped(n) && Resolved(n)
    ensures Resolved(Delete(n, key).node)
  {
    ResolvedHasNoDigest(n);
    DeleteKeepsDigests(n, key, iset{});
    ResolvedHasNoDigest(Delete(n, key).node);
  }

  // ----- when an operation is refused

  /** One key is a proper prefix of the other: no trie without values in branches can hold both. */
  predicate Clash(q: Nibbles, key: Nibbles) {
    q != key && (q <= key || key <= q)
  }

  lemma {:induction false} ClashBelow(nibs: Nibbles, q: Nibbles, key: Nibbles)
    requires nibs <= q && nibs <= key
    ensures Clash(q, key) <==> Clash(q[|nibs|..], key[|nibs|..])
  {
    assert q == nibs + q[|nibs|..] && key == nibs + key[|nibs|..];
  }

  lemma {:induction false} FindClash(n: Node, key: Nibbles, value: Bytes) returns (q: Nibbles)
    requires Canonical(n) && Resolved(n)
    requires Insert(n, key, value).res.Err?
    ensures Holds(n, q) && Clash(q, key)
  {
    match n
    case Branch(ch) =>
      if key == [] {
        q := SomeKey(n);
      } else {
        assert Live(ch[key[0]].value) && Resolved(ch[key[0]].value);
        q := FindClash(ch[key[0]].value, key[1..], value);
        KeyThroughBranch(ch, key[0], q);
        q := [key[0]] + q;
        ClashBelow([key[0]], q, key);
      }
    case Leaf(p, _) => q := p.nibs;
    case Extension(p, child) =>
      var c := CommonLen(p.nibs, key);
      if c == |p.nibs| {
        q := FindClash(child, key[c..], value);
        KeyThroughExtension(p, child, q);
        q := p.nibs + q;
        ClashBelow(p.nibs, q, key);
      } else {
        q := SomeKey(n);
        assert p.nibs <= q;
      }
  }

  lemma {:induction false} ClashRefuses(n: Node, key: Nibbles, value: Bytes, q: Nibbles)
    requires Shaped(n) && Holds(n, q) && Clash(q, key)
    ensures Insert(n, key, value).res == Err(ValueInBranch)
  {
    match n
    case Branch(ch) =>
      if key != [] {
        ClashBelow([q[0]], q, key);
        ClashRefuses(ch[key[0]].value, key[1..], value, q[1..]);
      }
    case Leaf(p, _) => CommonLenUnique(p.nibs, key, if |p.nibs| <= |key| then |p.nibs| else |key|);
    case Extension(p, child) =>
      if p.nibs <= key {
        CommonLenUnique(p.nibs, key, |p.nibs|);
        ClashBelow(p.nibs, q, key);
        ClashRefuses(child, key[|p.nibs|..], value, q[|p.nibs|..]);
      } else {
        assert key <= p.nibs;
        CommonLenUnique(p.nibs, key, |key|);
      }
  }

  /** An insertion into a resolved trie is refused exactly when a stored key clashes with the new one. */
  lemma {:induction false} InsertRefusedIff(n: Node, key: Nibbles, value: Bytes)
    requires Canonical(n) && Resolved(n)
    ensures Insert(n, key, value).res.Err? <==> exists q :: Holds(n, q) && Clash(q, key)
    ensures Insert(n, key, value).res.Err? ==> Insert(n, key, value).res.error == ValueInBranch
  {
    ResolvedLookup(n, key);
    InsertResult(n, key, value);
    if Insert(n, key, value).res.Err? {
      var q := FindClash(n, key, value);
    } else {
      forall q | Holds(n, q)
        ensures !Clash(q, key)
      {
        if Clash(q, key) { ClashRefuses(n, key, value, q); }
      }
    }
  }

  /** Byte keys one of which is a prefix of the other cannot both be stored. */
  lemma {:induction false} InsertionCanBeRefused(value: Bytes)
    ensures var n := LeafAt(NibblesOf([0]), value);
            && Canonical(n) && Resolved(n) && Run(Null, [Put(NibblesOf([0]), value)]) == Some(n)
            && Insert(n, NibblesOf([0, 0]), value) == Step(n, Err(ValueInBranch))
  {
    var n := LeafAt(NibblesOf([0]), value);
    ShortKeys();
    assert Holds(n, NibblesOf([0]));
    ClashRefuses(n, NibblesOf([0, 0]), value, NibblesOf([0]));
    InsertResult(n, NibblesOf([0, 0]), value);
  }

  lemma {:induction false} ShortKeys()
    ensures NibblesOf([0]) == [0, 0] && NibblesOf([0, 0]) == [0, 0, 0, 0] && NibblesOf([0, 16]) == [0, 0, 1, 0]
  {
    assert [0, 0][1..] == [0] && [0, 16][1..] == [16];
  }

  /** Two stored keys part right after `key`. */
  predicate Parts(key: Nibbles, q: Nibbles, r: Nibbles) {
    key <= q && key <= r && |key| < |q| && |key| < |r| && q[|key|] != r[|key|]
  }

  lemma {:induction false} PartsBelow(nibs: Nibbles, key: Nibbles, q: Nibbles, r: Nibbles)
    requires nibs <= key && nibs <= q && nibs <= r
    ensures Parts(key, q, r) <==> Parts(key[|nibs|..], q[|nibs|..], r[|nibs|..])
  {
    assert q == nibs + q[|nibs|..] && key == nibs + key[|nibs|..] && r == nibs + r[|nibs|..];
  }

  lemma {:induction false} FindParting(n: Node, key: Nibbles) returns (q: Nibbles, r: Nibbles)
    requires Canonical(n) && Resolved(n)
    requires Delete(n, key).res.Err?
    ensures Holds(n, q) && Holds(n, r) && Parts(key, q, r)
  {
    match n
    case Branch(ch) =>
      if key == [] {
        q := SomeKey(n);
        r := KeyAvoiding(ch, q[0]);
      } else {
        assert Live(ch[key[0]].value) && Resolved(ch[key[0]].value);
        DeleteOutcomeInBranch(ch, key);
        q, r := FindParting(ch[key[0]].value, key[1..]);
        KeyThroughBranch(ch, key[0], q);
        KeyThroughBranch(ch, key[0], r);
        q, r := [key[0]] + q, [key[0]] + r;
        PartsBelow([key[0]], key, q, r);
      }
    case Extension(p, child) =>
      q, r := FindParting(child, key[|p.nibs|..]);
      KeyThroughExtension(p, child, q);
      KeyThroughExtension(p, child, r);
      q, r := p.nibs + q, p.nibs + r;
      PartsBelow(p.nibs, key, q, r);
  }

  lemma {:induction false} DeleteOutcomeInBranch(ch: Children, key: Nibbles)
    requires Live(Branch(ch)) && key != [] && ch[key[0]].Some?
    ensures Delete(Branch(ch), key).res == Delete(ch[key[0]].value, key[1..]).res
  {
    var c := ch[key[0]].value;
    DeleteResult(c, key[1..]);
    var s := Delete(c, key[1..]);
    if s.res == Ok(true) {
      SomethingRemains(ch, key[0], s.node);
      LiveCollapse(ch[key[0] := if s.node.Null? then None else Some(s.node)]);
    }
  }

  lemma {:induction false} PartingRefuses(n: Node, key: Nibbles, q: Nibbles, r: Nibbles)
    requires Canonical(n) && Holds(n, q) && Holds(n, r) && Parts(key, q, r)
    ensures Delete(n, key).res == Err(ValueInBranch)
  {
    match n
    case Branch(ch) =>
      if key != [] {
        PartsBelow([q[0]], key, q, r);
        DeleteOutcomeInBranch(ch, key);
        PartingRefuses(ch[key[0]].value, key[1..], q[1..], r[1..]);
      }
    case Leaf(_, _) =>
    case Extension(p, child) =>
      assert p.nibs <= key;
      PartsBelow(p.nibs, key, q, r);
      PartingRefuses(child, key[|p.nibs|..], q[|p.nibs|..], r[|p.nibs|..]);
  }

  /** A deletion from a resolved trie is refused exactly when two stored keys part right after the key. */
  lemma {:induction false} DeleteRefusedIff(n: Node, key: Nibbles)
    requires Canonical(n) && Resolved(n)
    ensures Delete(n, key).res.Err? <==> exists q, r :: Holds(n, q) && Holds(n, r) && Parts(key, q, r)
    ensures Delete(n, key).res.Err? ==> Delete(n, key).res.error == ValueInBranch
  {
    ResolvedLookup(n, key);
    DeleteResult(n, key);
    if Delete(n, key).res.Err? {
      var q, r := FindParting(n, key);
    } else {
      forall q, r | Holds(n, q) && Holds(n, r)
        ensures !Parts(key, q, r)
      {
        if Parts(key, q, r) { PartingRefuses(n, key, q, r); }
      }
    }
  }

  /** A byte key that ends where two stored byte keys part cannot be looked for by deletion. */
  lemma {:induction false} DeletionCanBeRefused(value: Bytes) returns (n: Node)
    ensures Canonical(n) && Resolved(n) && Holds(n, NibblesOf([0, 0])) && Holds(n, NibblesOf([0, 16]))
    ensures Delete(n, NibblesOf([0])) == Step(n, Err(ValueInBranch))
  {
    ShortKeys();
    var below := TwoChildren(0, LeafAt([0], value), 1, LeafAt([0], value));
    n := ExtensionAt([0, 0], below);
    LiveTwoChildren(0, LeafAt([0], value), 1, LeafAt([0], value));
    ResolvedFork([0, 0], 0, LeafAt([0], value), 1, LeafAt([0], value));
    assert [0, 0, 0, 0][2..] == [0, 0] && [0, 0, 1, 0][2..] == [1, 0] && [0, 0][2..] == [];
    GetTwoChildren(0, LeafAt([0], value), 1, LeafAt([0], value), [0, 0]);
    GetTwoChildren(0, LeafAt([0], value), 1, LeafAt([0], value), [1, 0]);
  }

  // ----- histories

  datatype Op = Put(key: Nibbles, value: Bytes) | Remove(key: Nibbles)

  function Perform(n: Node, op: Op): (s: Step)
    requires Shaped(n)
    ensures Shaped(s.node)
  {
    match op
    case Put(k, v) => Insert(n, k, v)
    case Remove(k) => Delete(n, k)
  }

  /** The trie after a history, if no step of it was refused. */
  function Run(n: Node, ops: seq<Op>): (r: Option<Node>)
    requires Shaped(n)
    ensures r.Some? ==> Shaped(r.value)
    decreases |ops|
  {
    if ops == [] then Some(n)
    else
      var s := Perform(n, ops[0]);
      if s.res.Err? then None else Run(s.node, ops[1..])
  }

  /** The plain map after the same history. */
  function MapAfter(m: map<Nibbles, Bytes>, ops: seq<Op>): map<Nibbles, Bytes>
    decreases |ops|
  {
    if ops == [] then m
    else MapAfter(match ops[0] case Put(k, v) => m[k := v] case Remove(k) => m - {k}, ops[1..])
  }

  ghost predicate Represents(n: Node, m: map<Nibbles, Bytes>)
    requires Shaped(n)
  {
    forall q :: Get(n, q) == Ok(if q in m then Some(m[q]) else None)
  }

  ghost predicate Good(n: Node, m: map<Nibbles, Bytes>) {
    Canonical(n) && Resolved(n) && Represents(n, m)
  }

  lemma {:induction false} PerformIsMapStep(n: Node, m: map<Nibbles, Bytes>, op: Op)
    requires Good(n, m) && Perform(n, op).res.Ok?
    ensures Good(Perform(n, op).node, match op case Put(k, v) => m[k := v] case Remove(k) => m - {k})
  {
    var n' := Perform(n, op).node;
    match op
    case Put(k, v) =>
      InsertKeepsCanonical(n, k, v);
      InsertKeepsResolved(n, k, v);
      forall q ensures Get(n', q) == Ok(if q in m[k := v] then Some(m[k := v][q]) else None) {
        InsertIsUpdate(n, k, v, q);
      }
    case Remove(k) =>
      DeleteResult(n, k);
      DeleteKeepsResolved(n, k);
      forall q ensures Get(n', q) == Ok(if q in m - {k} then Some((m - {k})[q]) else None) {
        DeleteIsRemoval(n, k, q);
      }
  }

  lemma {:induction false} RunIsMap(n: Node, m: map<Nibbles, Bytes>, ops: seq<Op>)
    requires Good(n, m) && Run(n, ops).Some?
    ensures Good(Run(n, ops).value, MapAfter(m, ops))
    decreases |ops|
  {
    if ops != [] {
      PerformIsMapStep(n, m, ops[0]);
      RunIsMap(Perform(n, ops[0]).node,
               match ops[0] case Put(k, v) => m[k := v] case Remove(k) => m - {k}, ops[1..]);
    }
  }

  /**
   The trie after a history depends on the final map only: two histories from the empty trie end
   in the same trie exactly when they end in the same map.
   */
  lemma {:induction false} HistoryDoesNotMatter(a: seq<Op>, b: seq<Op>)
    requires Run(Null, a).Some? && Run(Null, b).Some?
    ensures Run(Null, a) == Run(Null, b) <==> MapAfter(map[], a) == MapAfter(map[], b)
  {
    RunIsMap(Null, map[], a);
    RunIsMap(Null, map[], b);
    var s, t := Run(Null, a).value, Run(Null, b).value;
    var x, y := MapAfter(map[], a), MapAfter(map[], b);
    OneShapePerMap(s, t);
    if s == t {
      forall q: Nibbles
        ensures q in x <==> q in y
        ensures q in x && q in y ==> x[q] == y[q]
      {
        assert Get(s, q) == Get(t, q);
      }
      assert x == y;
    }
  }

  // ----- keys of one length

  ghost predicate KeysOfLength(n: Node, len: nat)
    requires Shaped(n)
  {
    forall q :: Holds(n, q) ==> |q| == len
  }

  /** Over keys of one length no operation on a resolved trie is ever refused. */
  lemma {:induction false} NeverRefused(n: Node, key: Nibbles, value: Bytes)
    requires Canonical(n) && Resolved(n) && KeysOfLength(n, |key|)
    ensures Insert(n, key, value).res.Ok? && KeysOfLength(Insert(n, key, value).node, |key|)
    ensures Delete(n, key).res.Ok? && KeysOfLength(Delete(n, key).node, |key|)
  {
    InsertRefusedIff(n, key, value);
    DeleteRefusedIff(n, key);
    forall q | Holds(Insert(n, key, value).node, q) ensures |q| == |key| { InsertIsUpdate(n, key, value, q); }
    DeleteResult(n, key);
    forall q | Holds(Delete(n, key).node, q) ensures |q| == |key| { DeleteIsRemoval(n, key, q); }
  }
}
