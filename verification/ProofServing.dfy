/**
 What proofs before and after deletions are good for: the nodes of the first open the way to their keys, and
 what the last nodes of the second shorten to holds what a deletion merges.
 */
module ProofServing {
  import opened Prelude
  import opened HexPrefix
  import opened Rlp
  import opened Trie
  import opened TrieDigests
  import opened TrieUnique
  import opened TrieCodec
  import opened TrieFidelity
  import opened TrieResolve
  import opened TrieTruncation
  import opened TrieProofs
  import opened HonestProofs

  // ----- the proof before: the way is open

  /** The nodes of the proof are in the store, under their own references. */
  ghost predicate HasPath(H: Hasher, s: Store, nodes: seq<Node>)
    requires AllShaped(nodes)
  {
    forall x :: x in nodes ==> Ref(H, x) in s.nodes && s.nodes[Ref(H, x)] == Shallow(H, x)
  }

  lemma {:induction false} OpenInBranch(H: Hasher, s: Store, ch: Children, b: nat, key: Nibbles)
    requires Shaped(Branch(ch)) && Fit(s, Shallow(H, Branch(ch)), b) && key != [] && ch[key[0]].Some?
    ensures var c := ShallowChild(H, ch[key[0]].value);
            && Fit(s, c, b)
            && Get(Resolve(s, Shallow(H, Branch(ch)), b), key) == Get(Resolve(s, c, b), key[1..])
  {
    ShallowChildrenAt(H, ch, 0, key[0]);
    GetInResolvedBranch(s, ShallowChildren(H, ch, 0), b, key);
  }

  /** Below an inlined child everything is there anyway. */
  lemma {:induction false} OpenInline(H: Hasher, s: Store, c: Node, b: nat, key: Nibbles)
    requires Shaped(c) && Resolved(c) && Ref(H, c).Inline? && Fit(s, ShallowChild(H, c), b)
    ensures Get(Resolve(s, ShallowChild(H, c), b), key) == Get(c, key)
  {
    InlineIsWhole(H, c);
    ResolvedLookup(c, key);
    GetTransparent(s, c, b, key);
  }

  /** With the nodes of the proof in the store, the lookup meets no digest and answers as the full trie. */
  lemma {:induction false} PathIsOpen(H: Hasher, s: Store, n: Node, b: nat, key: Nibbles)
    requires Shaped(n) && Resolved(n) && Fit(s, Shallow(H, n), b) && HasPath(H, s, PathNodes(H, n, key)[1..])
    ensures Get(Resolve(s, Shallow(H, n), b), key) == Get(n, key)
    decreases n, 1
  {
    match n
    case Branch(ch) =>
      if key != [] {
        if ch[key[0]].None? {
          ShallowChildrenAt(H, ch, 0, key[0]);
          GetInResolvedBranch(s, ShallowChildren(H, ch, 0), b, key);
        } else {
          OpenInBranch(H, s, ch, b, key);
          OpenChild(H, s, n, ch[key[0]].value, b, key, key[1..]);
        }
      }
    case Extension(p, c) =>
      if p.nibs <= key { OpenChild(H, s, n, c, b, key, key[|p.nibs|..]); }
    case _ =>
  }

  lemma {:induction false} OpenChild(H: Hasher, s: Store, n: Node, c: Node, b: nat, key: Nibbles, rest: Nibbles)
    requires Shaped(n) && Shaped(c) && Resolved(c) && Fit(s, ShallowChild(H, c), b)
    requires HasPath(H, s, PathNodes(H, n, key)[1..]) && (n.Branch? || n.Extension?)
    requires n.Branch? ==> key != [] && n.children[key[0]] == Some(c) && rest == key[1..]
    requires n.Extension? ==> n.path.nibs <= key && n.child == c && rest == key[|n.path.nibs|..]
    ensures Get(Resolve(s, ShallowChild(H, c), b), rest) == Get(c, rest)
    decreases n, 0
  {
    if Ref(H, c).Inline? {
      OpenInline(H, s, c, b, rest);
    } else {
      var nodes := PathNodes(H, c, rest);
      assert PathNodes(H, n, key)[1..] == nodes;
      assert c in nodes && forall x :: x in nodes[1..] ==> x in nodes;
      var d := Ref(H, c).hash;
      PathIsOpen(H, s, c, s.rank(d), rest);
    }
  }

  // ----- the proof after: the sibling is there

  /** A node that is referenced by hash has only such nodes above it. */
  lemma {:induction false} HashedAbove(H: Hasher, n: Node, key: Nibbles)
    requires Shaped(n) && Ref(H, LookupEnd(n, key)).ByDigest?
    ensures Ref(H, n).ByDigest?
  {
    match n
    case Branch(ch) =>
      if key != [] && ch[key[0]].Some? {
        HashedAbove(H, ch[key[0]].value, key[1..]);
        BigBranch(H, ch, key[0]);
      }
    case Extension(p, c) =>
      if p.nibs <= key {
        HashedAbove(H, c, key[|p.nibs|..]);
        BigExtension(H, p, c);
      }
    case _ =>
  }

  predicate EndsHere(n: Node, key: Nibbles)
    requires Shaped(n)
  {
    match n
    case Branch(ch) => key == [] || ch[key[0]].None?
    case Extension(p, _) => !(p.nibs <= key)
    case _ => true
  }

  /** The last node of a proof. */
  function LastNode(H: Hasher, n: Node, key: Nibbles): (r: Node)
    requires Shaped(n)
    ensures Shaped(r)
  {
    match n
    case Branch(ch) =>
      if key == [] || ch[key[0]].None? || Ref(H, ch[key[0]].value).Inline? then n
      else LastNode(H, ch[key[0]].value, key[1..])
    case Extension(p, c) =>
      if !(p.nibs <= key) || Ref(H, c).Inline? then n else LastNode(H, c, key[|p.nibs|..])
    case _ => n
  }

  lemma {:induction false} LastNodeIsLast(H: Hasher, n: Node, key: Nibbles)
    requires Shaped(n)
    ensures var nodes := PathNodes(H, n, key); nodes[|nodes| - 1] == LastNode(H, n, key)
  {
    match n
    case Branch(ch) =>
      if key != [] && ch[key[0]].Some? { LastNodeIsLast(H, ch[key[0]].value, key[1..]); }
    case Extension(p, c) =>
      if p.nibs <= key { LastNodeIsLast(H, c, key[|p.nibs|..]); }
    case _ =>
  }

  /** The node where a lookup ends is the last of its proof, if it is referenced by hash or is the root. */
  lemma {:induction false} ProofEnds(H: Hasher, n: Node, key: Nibbles)
    requires Shaped(n) && (Ref(H, LookupEnd(n, key)).ByDigest? || EndsHere(n, key))
    ensures LastNode(H, n, key) == LookupEnd(n, key)
  {
    if !EndsHere(n, key) {
      match n
      case Branch(ch) =>
        HashedAbove(H, ch[key[0]].value, key[1..]);
        ProofEnds(H, ch[key[0]].value, key[1..]);
      case Extension(p, c) =>
        HashedAbove(H, c, key[|p.nibs|..]);
        ProofEnds(H, c, key[|p.nibs|..]);
    }
  }

  /** Shortened versions have the same references whether the node was decoded or not. */
  lemma {:induction false} ShortenedSeen(H: Hasher, n: Node, m: Node) returns (m': Node)
    requires Shaped(n) && m in Shortened(n)
    ensures Shaped(m) && Shaped(m') && m' in Shortened(Shallow(H, n)) && Ref(H, m') == Ref(H, m)
  {
    var j := ShortenedOnly(n, n.path.nibs, 0, m);
    var x := Shallow(H, n);
    m' := WithPath(x, n.path.nibs[j..]);
    ShortenedHas(x, n.path.nibs, 0, j);
    if n.Extension? { ShallowChildSameRef(H, n.child); }
  }

  lemma {:induction false} PathBytes(nibs: Nibbles, isLeaf: bool)
    ensures var raw := Raw(Clean(nibs, isLeaf));
            |raw| == 1 + |nibs| / 2 && StringLength(raw) >= |raw| && (1 < |raw| < 56 ==> StringLength(raw) == 1 + |raw|)
            && (|raw| == 1 ==> StringLength(raw) == 1)
  {
    PathRoundTrip(nibs, isLeaf);
  }

  /** Of two nodes that differ in their paths, the one with the longer path is the longer. */
  lemma {:induction false} LongerPath(H: Hasher, n: Node, a: Nibbles, b: Nibbles)
    requires Shaped(n) && (n.Leaf? || n.Extension?) && |a| <= |b|
    requires Ref(H, WithPath(n, a)).ByDigest?
    ensures Ref(H, WithPath(n, b)).ByDigest?
  {
    PathBytes(a, n.Leaf?);
    PathBytes(b, n.Leaf?);
    LengthIsExact(H, WithPath(n, a));
    LengthIsExact(H, WithPath(n, b));
  }

  lemma {:induction false} ShortenedIsShorter(H: Hasher, n: Node, m: Node)
    requires Live(n) && m in Shortened(n) && Shaped(m) && Ref(H, m).ByDigest?
    ensures Ref(H, n).ByDigest?
  {
    var j := ShortenedOnly(n, n.path.nibs, 0, m);
    LongerPath(H, n, n.path.nibs[j..], n.path.nibs);
  }

  lemma {:induction false} EndIsLive(n: Node, key: Nibbles)
    requires Canonical(n) && !LookupEnd(n, key).Null?
    ensures Live(LookupEnd(n, key))
  {
    match n
    case Branch(ch) =>
      if key != [] && ch[key[0]].Some? { EndIsLive(ch[key[0]].value, key[1..]); }
    case Extension(p, c) =>
      if p.nibs <= key { EndIsLive(c, key[|p.nibs|..]); }
    case _ =>
  }

  // ----- what resolution leaves

  /** The digests that the store cannot resolve. */
  ghost function Unknown(s: Store): iset<Hash> {
    iset d: Hash | ByDigest(d) !in s.nodes
  }

  /** No digest that the store could resolve is left. */
  lemma {:induction false} ResolvedIsUnknown(s: Store, n: Node, b: nat)
    requires Fit(s, n, b)
    ensures AllDigests(Resolve(s, n, b), Unknown(s))
    decreases b, n
  {
    match n
    case Branch(ch) =>
      forall i | 0 <= i < 16 && ch[i].Some?
        ensures ResolveChildren(s, ch, b, 0)[i].Some? && AllDigests(ResolveChildren(s, ch, b, 0)[i].value, Unknown(s))
      {
        ResolvedPlace(s, ch, b, 0, i);
        ResolvedIsUnknown(s, ch[i].value, b);
      }
      forall i | 0 <= i < 16 && ch[i].None? ensures ResolveChildren(s, ch, b, 0)[i].None? { ResolvedPlace(s, ch, b, 0, i); }
    case Extension(_, c) => ResolvedIsUnknown(s, c, b);
    case Digest(d) =>
      if ByDigest(d) in s.nodes { ResolvedIsUnknown(s, s.nodes[ByDigest(d)], s.rank(d)); }
    case _ =>
  }

  lemma {:induction false} SiblingIsUnknown(s: Store, n: Node, key: Nibbles)
    requires Shaped(n) && AllDigests(n, Unknown(s)) && LoneSibling(n, key).Some?
    ensures AllDigests(LoneSibling(n, key).value, Unknown(s))
  {
    match n
    case Branch(ch) =>
      var c := ch[key[0]].value;
      if !(c.Leaf? && c.path.nibs == key[1..]) { SiblingIsUnknown(s, c, key[1..]); }
    case Extension(p, c) => SiblingIsUnknown(s, c, key[|p.nibs|..]);
  }

  /** A canonical trie has only canonical truncations. */
  lemma {:induction false} LiveBelow(s: Store, n: Node, b: nat)
    requires Fit(s, n, b) && Live(Resolve(s, n, b))
    ensures Live(n)
  {
    match n
    case Branch(ch) =>
      var ch' := ResolveChildren(s, ch, b, 0);
      forall i | 0 <= i < 16 ensures ch'[i].Some? == ch[i].Some? && (ch[i].Some? ==> Live(ch[i].value)) {
        ResolvedPlace(s, ch, b, 0, i);
        if ch[i].Some? { LiveBelow(s, ch[i].value, b); }
      }
      var i, j :| 0 <= i < j < 16 && ch'[i].Some? && ch'[j].Some?;
      assert ch[i].Some? && ch[j].Some?;
    case Extension(_, c) => LiveBelow(s, c, b);
    case _ =>
  }

  // ----- the lone sibling, truncated and resolved

  lemma {:induction false} LoneChildSame(x: Children, y: Children) returns (j: Nibble)
    requires |x| == |y| == 16 && forall i :: 0 <= i < 16 ==> x[i].Some? == y[i].Some?
    ensures LoneChild(x).Some? == LoneChild(y).Some?
    ensures LoneChild(x).Some? ==> LoneChild(x) == x[j] && LoneChild(y) == y[j]
  {
    NextChildSame(x, y, 0);
    var first := NextChild(x, 0);
    j := if first.Some? then first.value else 0;
    if first.Some? { NextChildSame(x, y, j as int + 1); }
  }

  lemma {:induction false} LoneChildSeen(s: Store, ch: Children, b: nat, i: Nibble)
    requires Fit(s, Branch(ch), b)
    ensures var x := LoneChild(ch[i := None]);
            && (x.Some? ==> Fit(s, x.value, b))
            && LoneChild(ResolveChildren(s, ch, b, 0)[i := None]) == if x.None? then None else Some(Resolve(s, x.value, b))
  {
    var x, y := ch[i := None], ResolveChildren(s, ch, b, 0)[i := None];
    forall j | 0 <= j < 16 ensures x[j].Some? == y[j].Some? { ResolvedPlace(s, ch, b, 0, j); }
    var j := LoneChildSame(x, y);
    ResolvedPlace(s, ch, b, 0, j);
  }

  /** The sibling that is left alone in the truncated trie stands for the one in the resolved trie. */
  lemma {:induction false} LoneSiblingSeen(s: Store, n: Node, b: nat, key: Nibbles)
    requires Fit(s, n, b) && Holds(n, key)
    ensures var x := LoneSibling(n, key);
            && (x.Some? ==> Fit(s, x.value, b))
            && LoneSibling(Resolve(s, n, b), key) == if x.None? then None else Some(Resolve(s, x.value, b))
  {
    match n
    case Branch(ch) =>
      var c := ch[key[0]].value;
      ResolvedPlace(s, ch, b, 0, key[0]);
      if c.Leaf? && c.path.nibs == key[1..] {
        LoneChildSeen(s, ch, b, key[0]);
      } else {
        LoneSiblingSeen(s, c, b, key[1..]);
      }
    case Extension(p, c) => LoneSiblingSeen(s, c, b, key[|p.nibs|..]);
    case _ =>
  }

  // ----- resolving in two steps

  ghost predicate PartOf(s: Store, f: Store) {
    forall r :: r in s.nodes ==> r in f.nodes && f.nodes[r] == s.nodes[r]
  }

  lemma {:induction false} ResolveInBranch(f: Store, ch: Children, ch': Children, b: nat)
    requires Fit(f, Branch(ch), b) && Shaped(Branch(ch'))
    requires forall i :: 0 <= i < 16 ==> ch'[i].Some? == ch[i].Some?
    requires forall i :: 0 <= i < 16 && ch[i].Some? ==> Fit(f, ch'[i].value, b) && Resolve(f, ch'[i].value, b) == Resolve(f, ch[i].value, b)
    ensures Fit(f, Branch(ch'), b) && Resolve(f, Branch(ch'), b) == Resolve(f, Branch(ch), b)
  {
    var r := ResolveChildren(f, ch, b, 0);
    assert Below(f, Branch(ch'), b);
    forall j | 0 <= j < 16 ensures r[j] == ResolvePlace(f, ch', b, j) { ResolvedPlace(f, ch, b, 0, j); }
    ResolvedChildrenAre(f, ch', b, r);
  }

  /** Resolving with part of a store first makes no difference. */
  lemma {:induction false} ResolveTwice(s: Store, f: Store, n: Node, a: nat, b: nat)
    requires PartOf(s, f) && Fit(s, n, a) && Fit(f, n, b)
    ensures Fit(f, Resolve(s, n, a), b) && Resolve(f, Resolve(s, n, a), b) == Resolve(f, n, b)
    decreases a, n
  {
    match n
    case Branch(ch) =>
      var ch' := ResolveChildren(s, ch, a, 0);
      forall i | 0 <= i < 16
        ensures ch'[i].Some? == ch[i].Some?
        ensures ch[i].Some? ==> Fit(f, ch'[i].value, b) && Resolve(f, ch'[i].value, b) == Resolve(f, ch[i].value, b)
      {
        ResolvedPlace(s, ch, a, 0, i);
        if ch[i].Some? { ResolveTwice(s, f, ch[i].value, a, b); }
      }
      ResolveInBranch(f, ch, ch', b);
    case Extension(_, c) => ResolveTwice(s, f, c, a, b);
    case Digest(d) =>
      if ByDigest(d) in s.nodes {
        var m := s.nodes[ByDigest(d)];
        ResolveTwice(s, f, m, s.rank(d), f.rank(d));
        BelowGrows(f, Resolve(s, m, s.rank(d)), f.rank(d), b);
        MeasureIsIrrelevant(f, f, Resolve(s, m, s.rank(d)), f.rank(d), b);
      }
    case _ =>
  }

  // ----- serving a deletion

  /** What the proof after the deletion puts into the store. */
  ghost predicate HasOrphans(H: Hasher, s: Store, last: Node)
    requires Shaped(last)
  {
    forall m :: m in Shortened(Shallow(H, last)) && Shaped(m) ==> Ref(H, m) in s.nodes
  }

  /** What can be made by shortening the node where a lookup ends is then in the store, if it is referenced by hash. */
  lemma {:induction false} OrphanStored(H: Hasher, s: Store, t: Node, key: Nibbles, x: Node)
    requires Canonical(t) && HasOrphans(H, s, LastNode(H, t, key))
    requires x in Shortened(LookupEnd(t, key)) && Shaped(x) && Ref(H, x).ByDigest?
    ensures Ref(H, x) in s.nodes
  {
    var last := LookupEnd(t, key);
    EndIsLive(t, key);
    ShortenedIsShorter(H, last, x);
    ProofEnds(H, t, key);
    var m := ShortenedSeen(H, last, x);
  }

  /** The trie that is resolved from the store, from the decoded root on. */
  lemma {:induction false} ServedTrie(H: Hasher, t: Node, s: Store, f: Store)
    requires Canonical(t) && Resolved(t) && Ranked(s) && PartOf(s, f)
    requires KeyedByReference(H, f.nodes) && Sees(f, Shallow(H, t), t)
    ensures var n := ResolveNodes(s, Shallow(H, t));
            && Sees(f, n, t) && Canonical(n) && AllDigests(n, Unknown(s)) && HashOf(H, n) == HashOf(H, t)
  {
    var x := Shallow(H, t);
    var a, b := Ceiling(s, x), Ceiling(f, x);
    var n := Resolve(s, x, a);
    ResolveTwice(s, f, x, a, b);
    SeesAt(f, n, b);
    SameHash(H, f, n, t);
    ResolvedIsUnknown(s, x, a);
    if t.Null? { assert n == Null; } else { LiveBelow(f, n, b); }
  }

  // ----- the store that is collected from the proofs

  /** No two different nodes of the list share a reference. */
  ghost predicate ToldApart(H: Hasher, list: seq<Node>)
    requires AllShaped(list)
  {
    forall x, y :: x in list && y in list && Ref(H, x) == Ref(H, y) ==> x == y
  }

  lemma {:induction false} StoredIsFound(H: Hasher, list: seq<Node>, x: Node)
    requires AllShaped(list) && ToldApart(H, list) && x in list
    ensures Ref(H, x) in StoredAll(H, map[], list) && StoredAll(H, map[], list)[Ref(H, x)] == x
  {
    StoredAllIs(H, map[], list);
    var r := StoredAll(H, map[], list);
    assert r[Ref(H, x)] in list && Ref(H, r[Ref(H, x)]) == Ref(H, x);
  }

  lemma {:induction false} ShallowIn(H: Hasher, nodes: seq<Node>, x: Node)
    requires AllShaped(nodes) && x in nodes
    ensures Shallow(H, x) in Shallows(H, nodes)
    decreases |nodes|
  {
    assert nodes[0] in nodes;
    if x != nodes[0] { ShallowIn(H, nodes[1..], x); }
  }

  lemma {:induction false} StoredInTwo(H: Hasher, nodes: map<Reference, Node>, a: seq<Node>, b: seq<Node>)
    requires AllShaped(a) && AllShaped(b)
    ensures AllShaped(a + b) && StoredAll(H, StoredAll(H, nodes, a), b) == StoredAll(H, nodes, a + b)
    decreases |b|
  {
    if b == [] {
      assert a + b == a;
    } else {
      var most, n := b[..|b| - 1], b[|b| - 1];
      assert a + b == (a + most) + [n] && (a + b)[..|a + most|] == a + most && AllShaped(most);
      StoredInTwo(H, nodes, a, most);
    }
  }

  lemma {:induction false} ShallowsAt(H: Hasher, nodes: seq<Node>, i: nat)
    requires AllShaped(nodes) && i < |nodes|
    ensures nodes[i] in nodes && Shallows(H, nodes)[i] == Shallow(H, nodes[i])
  {
    assert nodes[0] in nodes;
    if i > 0 { ShallowsAt(H, nodes[1..], i - 1); }
  }
}
