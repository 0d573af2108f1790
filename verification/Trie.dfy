/**
 The sparse Merkle Patricia trie as a value: lookup, insertion and deletion, exactly as the
 in-place code performs them. An operation returns the node it leaves behind together with its
 result, so that "unchanged on failure" is something to prove and not a convention.
 */
module Trie {
  import opened Prelude
  import opened HexPrefix

  /** `Panic` stands for the `unwrap` and `unreachable!` of the branch collapse. */
  datatype Error = NodeNotResolved(digest: Hash) | ValueInBranch | Panic

  datatype Node =
    | Null
    | Branch(children: Children)
    | Leaf(path: Path, value: Bytes)
    | Extension(path: Path, child: Node)
    | Digest(digest: Hash)

  type Children = seq<Option<Node>>

  /** What an operation leaves in place, and what it returns. */
  datatype Step = Step(node: Node, res: Result<bool, Error>)

  const NO_CHILDREN: Children := [
    None, None, None, None, None, None, None, None, None, None, None, None, None, None, None, None]

  function LeafAt(nibs: Nibbles, value: Bytes): Node {
    Leaf(Clean(nibs, true), value)
  }

  function ExtensionAt(nibs: Nibbles, child: Node): Node {
    Extension(Clean(nibs, false), child)
  }

  // ----- shapes

  /** What every node in memory has: 16 places in a branch, paths that came from bytes. */
  predicate Shaped(n: Node) {
    match n
    case Null => true
    case Branch(ch) => |ch| == 16 && forall i :: 0 <= i < |ch| && ch[i].Some? ==> Shaped(ch[i].value)
    case Leaf(p, _) => Sound(p)
    case Extension(p, c) => Sound(p) && Shaped(c)
    case Digest(_) => true
  }

  predicate AtLeastTwo(ch: Children) {
    exists i, j :: 0 <= i < j < |ch| && ch[i].Some? && ch[j].Some?
  }

  /** A canonical sub-trie that holds something. */
  predicate Live(n: Node)
    ensures Live(n) ==> Shaped(n)
  {
    match n
    case Null => false
    case Branch(ch) =>
      && |ch| == 16
      && AtLeastTwo(ch)
      && forall i :: 0 <= i < |ch| && ch[i].Some? ==> Live(ch[i].value)
    case Leaf(p, _) => p == Clean(p.nibs, true)
    case Extension(p, c) => p == Clean(p.nibs, false) && p.nibs != [] && (c.Branch? || c.Digest?) && Live(c)
    case Digest(_) => true
  }

  /** Canonical form: only the root may be empty. */
  predicate Canonical(n: Node) {
    n.Null? || Live(n)
  }

  /** No part of the trie is truncated. */
  predicate Resolved(n: Node) {
    match n
    case Null => true
    case Branch(ch) => forall i :: 0 <= i < |ch| && ch[i].Some? ==> Resolved(ch[i].value)
    case Leaf(_, _) => true
    case Extension(_, c) => Resolved(c)
    case Digest(_) => false
  }

  // ----- lookup

  function Get(n: Node, key: Nibbles): Result<Option<Bytes>, Error>
    requires Shaped(n)
  {
    match n
    case Null => Ok(None)
    case Branch(ch) =>
      if key == [] then Ok(None)
      else if ch[key[0]].Some? then Get(ch[key[0]].value, key[1..])
      else Ok(None)
    case Leaf(p, v) => if p.nibs == key then Ok(Some(v)) else Ok(None)
    case Extension(p, c) =>
      if p.nibs <= key then Get(c, key[|p.nibs|..]) else Ok(None)
    case Digest(d) => Err(NodeNotResolved(d))
  }

  predicate Holds(n: Node, key: Nibbles)
    requires Shaped(n)
  {
    Get(n, key).Ok? && Get(n, key).value.Some?
  }

  // ----- insertion

  /** A branch with one child replaced. */
  function WithChild(ch: Children, i: Nibble, child: Node): (n: Node)
    requires |ch| == 16
    ensures Shaped(Branch(ch)) && Shaped(child) ==> Shaped(n)
  {
    Branch(ch[i := Some(child)])
  }

  function TwoChildren(i: Nibble, a: Node, j: Nibble, b: Node): (n: Node)
    ensures Shaped(a) && Shaped(b) ==> Shaped(n)
  {
    WithChild(NO_CHILDREN[i := Some(a)], j, b)
  }

  /** An extension is put above a node only when there are nibbles for it to hold. */
  function Under(nibs: Nibbles, below: Node): (n: Node)
    ensures Shaped(below) ==> Shaped(n)
  {
    if nibs == [] then below else ExtensionAt(nibs, below)
  }

  function Insert(n: Node, key: Nibbles, value: Bytes): (s: Step)
    requires Shaped(n)
    ensures Shaped(s.node)
  {
    match n
    case Null => Step(LeafAt(key, value), Ok(true))
    case Branch(ch) =>
      if key == [] then Step(n, Err(ValueInBranch))
      else if ch[key[0]].Some? then
        var s := Insert(ch[key[0]].value, key[1..], value);
        Step(WithChild(ch, key[0], s.node), s.res)
      else
        Step(WithChild(ch, key[0], LeafAt(key[1..], value)), Ok(true))
    case Leaf(p, oldValue) =>
      var nibs := p.nibs;
      var c := CommonLen(nibs, key);
      if c == |nibs| && c == |key| then
        if oldValue == value then Step(n, Ok(false)) else Step(Leaf(p, value), Ok(true))
      else if c == |nibs| || c == |key| then Step(n, Err(ValueInBranch))
      else
        var branch := TwoChildren(nibs[c], LeafAt(nibs[c + 1..], oldValue), key[c], LeafAt(key[c + 1..], value));
        Step(Under(nibs[..c], branch), Ok(true))
    case Extension(p, child) =>
      var nibs := p.nibs;
      var c := CommonLen(nibs, key);
      if c == |nibs| then
        var s := Insert(child, key[c..], value);
        Step(Extension(p, s.node), s.res)
      else if c == |key| then Step(n, Err(ValueInBranch))
      else
        var branch := TwoChildren(nibs[c], Under(nibs[c + 1..], child), key[c], LeafAt(key[c + 1..], value));
        Step(Under(nibs[..c], branch), Ok(true))
    case Digest(d) => Step(n, Err(NodeNotResolved(d)))
  }

  // ----- deletion

  /** The first child at or after index `i`. */
  function NextChild(ch: Children, i: nat): (r: Option<Nibble>)
    requires |ch| == 16 && i <= 16
    ensures r.Some? ==> i <= r.value && ch[r.value].Some?
    ensures r.None? ==> forall j :: i <= j < 16 ==> ch[j].None?
    ensures r.Some? ==> forall j :: i <= j < r.value ==> ch[j].None?
    decreases 16 - i
  {
    if i == 16 then None else if ch[i].Some? then Some(i) else NextChild(ch, i + 1)
  }

  /** A lone child is merged with its nibble; an empty one is the `unreachable!` case. */
  function Merged(i: Nibble, child: Node): (s: Step)
    requires Shaped(child)
    ensures Shaped(s.node)
  {
    match child
    case Leaf(p, v) => Step(LeafAt([i] + p.nibs, v), Ok(true))
    case Extension(p, c) => Step(ExtensionAt([i] + p.nibs, c), Ok(true))
    case Branch(_) => Step(ExtensionAt([i], child), Ok(true))
    case Digest(_) => Step(ExtensionAt([i], child), Ok(true))
    case Null => Step(Null, Err(Panic))
  }

  /** What a branch becomes after one of its children shrank: a lone child is merged upwards. */
  function Collapse(ch: Children): (s: Step)
    requires |ch| == 16
    requires Shaped(Branch(ch))
    ensures Shaped(s.node)
  {
    var first := NextChild(ch, 0);
    if first.None? then Step(Branch(ch), Err(Panic))
    else if NextChild(ch, first.value + 1).Some? then Step(Branch(ch), Ok(true))
    else Merged(first.value, ch[first.value].value)
  }

  /** What an extension becomes after its child shrank. */
  function Rejoin(p: Path, child: Node): (n: Node)
    requires Sound(p) && Shaped(child)
    ensures Shaped(n)
  {
    match child
    case Null => Null
    case Leaf(q, v) => LeafAt(p.nibs + q.nibs, v)
    case Extension(q, c) => ExtensionAt(p.nibs + q.nibs, c)
    case Branch(_) => Extension(p, child)
    case Digest(_) => Extension(p, child)
  }

  function Delete(n: Node, key: Nibbles): (s: Step)
    requires Shaped(n)
    ensures Shaped(s.node)
  {
    match n
    case Null => Step(n, Ok(false))
    case Branch(ch) =>
      if key == [] then Step(n, Err(ValueInBranch))
      else if ch[key[0]].None? then Step(n, Ok(false))
      else
        var s := Delete(ch[key[0]].value, key[1..]);
        if s.res != Ok(true) then Step(WithChild(ch, key[0], s.node), s.res)
        else Collapse(ch[key[0] := if s.node.Null? then None else Some(s.node)])
    case Leaf(p, _) => if p.nibs != key then Step(n, Ok(false)) else Step(Null, Ok(true))
    case Extension(p, child) =>
      if p.nibs <= key then
        var s := Delete(child, key[|p.nibs|..]);
        if s.res != Ok(true) then Step(Extension(p, s.node), s.res)
        else Step(Rejoin(p, s.node), Ok(true))
      else Step(n, Ok(false))
    case Digest(d) => Step(n, Err(NodeNotResolved(d)))
  }

  // ----- lookups in the nodes that insertion and deletion build

  lemma {:induction false} GetUnder(common: Nibbles, branch: Node, q: Nibbles)
    requires Shaped(branch)
    ensures Get(Under(common, branch), q) == if common <= q then Get(branch, q[|common|..]) else Ok(None)
  {
    if common == [] {
      assert q[0..] == q;
    }
  }

  /** Prefixing a path with `nibs` and then looking up is looking up below `nibs`. */
  lemma {:induction false} GetSplit(nibs: Nibbles, rest: Nibbles, q: Nibbles)
    ensures nibs + rest <= q <==> nibs <= q && rest <= q[|nibs|..]
    ensures nibs + rest == q <==> nibs <= q && rest == q[|nibs|..]
    ensures nibs + rest <= q ==> q[|nibs + rest|..] == q[|nibs|..][|rest|..]
  {
    if nibs <= q {
      assert q == nibs + q[|nibs|..];
      if rest <= q[|nibs|..] {
        assert q[|nibs|..] == rest + q[|nibs|..][|rest|..];
        assert q == (nibs + rest) + q[|nibs|..][|rest|..];
      }
    }
    if nibs + rest <= q {
      assert q == nibs + (rest + q[|nibs + rest|..]);
    }
  }
}
