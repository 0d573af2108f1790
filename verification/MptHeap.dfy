/**
 The trie as the program keeps it: nodes in memory that are changed in place, each with a cached
 reference. The ghost field `node` is the value a node stands for; `Valid` ties both together and
 says that a cached reference, where there is one, is the one that would be computed afresh.
 */
module MptHeap {
  import opened Prelude
  import opened HexPrefix
  import opened Rlp
  import opened Trie
  import opened TrieCodec
  import opened TrieResolve

  datatype Data =
    | NullData
    | BranchData(children: seq<MptNode?>)
    | LeafData(prefix: Bytes, value: Bytes)
    | ExtensionData(prefix: Bytes, child: MptNode)
    | DigestData(digest: Hash)

  lemma {:induction false} FlattenFirst(H: Hasher, ch: Children, i: nat)
    requires ShapedAll(ch) && i < |ch|
    ensures Flatten(ChildItems(H, ch, i)) == PlaceItem(H, ch, i) + Flatten(ChildItems(H, ch, i + 1))
  {
    assert ChildItems(H, ch, i)[1..] == ChildItems(H, ch, i + 1);
  }

  lemma {:induction false} BranchBytes(H: Hasher, ch: Children)
    requires Shaped(Branch(ch))
    ensures Encode(H, Branch(ch)) ==
            Header(0xC0, PayloadLength(H, Branch(ch))) + Flatten(ChildItems(H, ch, 0)) + EMPTY_STRING
  {
    BranchPayloadLength(H, ch);
    FlattenAppend(ChildItems(H, ch, 0), [EMPTY_STRING]);
    assert Flatten([EMPTY_STRING]) == EMPTY_STRING;
  }

  lemma {:induction false} TwoChildrenAre(i: Nibble, a: Node, j: Nibble, b: Node)
    requires i != j
    ensures var ch := TwoChildren(i, a, j, b).children;
            && |ch| == 16
            && forall k :: 0 <= k < 16 ==> ch[k] == if k == j then Some(b) else if k == i then Some(a) else None
  {
    forall k | 0 <= k < 16 ensures NO_CHILDREN[k].None? {}
  }

  class MptNode {
    var data: Data
    var cached: Option<Reference>
    ghost var node: Node
    ghost var Repr: set<MptNode>

    ghost predicate Valid(H: Hasher)
      reads this, Repr
      decreases Repr
    {
      && this in Repr
      && Shaped(node)
      && (cached.Some? ==> cached.value == Ref(H, node))
      && match data
         case NullData => node == Null
         case BranchData(ch) =>
           && node.Branch?
           && |ch| == 16
           && (forall i :: 0 <= i < 16 && ch[i] != null ==> Owns(ch[i]) && ch[i].Valid(H))
           && (forall i :: 0 <= i < 16 ==>
                 node.children[i] == if ch[i] == null then None else Some(ch[i].node))
           && (forall i, j :: 0 <= i < j < 16 && ch[i] != null && ch[j] != null ==> ch[i].Repr !! ch[j].Repr)
         case LeafData(p, v) => p != [] && node == Leaf(Parsed(p), v)
         case ExtensionData(p, c) =>
           p != [] && Owns(c) && c.Valid(H) && node == Extension(Parsed(p), c.node)
         case DigestData(d) => node == Digest(d)
    }

    /** A node below this one: its memory is part of ours and does not hold us. */
    ghost predicate Owns(c: MptNode)
      reads this, Repr
    {
      c in Repr && c.Repr <= Repr && this !in c.Repr
    }

    // ----- references

    /** `reference`: computed once, then kept. Nothing but caches is written. */
    method Reference(H: Hasher) returns (r: Reference)
      requires Valid(H)
      modifies Repr`cached
      ensures Valid(H) && r == Ref(H, node)
      decreases node, 5
    {
      if cached.None? {
        var computed := CalcReference(H);
        cached := Some(computed);
      }
      r := cached.value;
    }

    method CalcReference(H: Hasher) returns (r: Reference)
      requires Valid(H)
      modifies Repr`cached
      ensures Valid(H) && r == Ref(H, node)
      ensures r == if |Encode(H, node)| < 32 then Inline(Encode(H, node))
                   else ByDigest(if node.Digest? then node.digest else H(Encode(H, node)))
      decreases node, 4
    {
      RefExactly(H, node);
      match data
      case NullData => r := Inline(EMPTY_STRING);
      case DigestData(d) => r := ByDigest(d);
      case _ =>
        var encoded := EncodeNode(H);
        r := if |encoded| < 32 then Inline(encoded) else ByDigest(H(encoded));
    }

    /** What one place of a branch contributes: `reference_encode` of the child, or an empty string. */
    method PlaceReference(H: Hasher, i: nat) returns (r: Option<Reference>)
      requires Valid(H) && data.BranchData? && i < 16
      modifies Repr`cached
      ensures Valid(H)
      ensures PlaceItem(H, node.children, i) == if r.None? then EMPTY_STRING else RefBytes(r.value)
      decreases node, 0
    {
      var child := data.children[i];
      if child == null {
        r := None;
      } else {
        var ref := child.Reference(H);
        r := Some(ref);
      }
    }

    /** `payload_length` of a branch. */
    method BranchPayloadSize(H: Hasher) returns (n: nat)
      requires Valid(H) && data.BranchData?
      modifies Repr`cached
      ensures Valid(H) && n == PayloadLength(H, node)
      decreases node, 1
    {
      n := 1;
      for i := 0 to 16
        invariant Valid(H)
        invariant n + ChildLengths(H, node.children, i) == PayloadLength(H, node)
      {
        var ref := PlaceReference(H, i);
        n := n + if ref.None? then 1 else RefLength(ref.value);
      }
    }

    method EncodeBranch(H: Hasher) returns (r: Bytes)
      requires Valid(H) && data.BranchData?
      modifies Repr`cached
      ensures Valid(H) && r == Encode(H, node)
      decreases node, 2
    {
      var size := BranchPayloadSize(H);
      r := Header(0xC0, size);
      for i := 0 to 16
        invariant Valid(H)
        invariant r + Flatten(ChildItems(H, node.children, i)) ==
                  Header(0xC0, size) + Flatten(ChildItems(H, node.children, 0))
      {
        var ref := PlaceReference(H, i);
        FlattenFirst(H, node.children, i);
        r := r + if ref.None? then EMPTY_STRING else RefBytes(ref.value);
      }
      r := r + EMPTY_STRING;
      BranchBytes(H, node.children);
    }

    method EncodeNode(H: Hasher) returns (r: Bytes)
      requires Valid(H)
      modifies Repr`cached
      ensures Valid(H) && r == Encode(H, node)
      decreases node, 3
    {
      match data
      case NullData => r := EMPTY_STRING;
      case BranchData(_) => r := EncodeBranch(H);
      case LeafData(p, v) =>
        RawOfParsed(p);
        r := EncodeList(EncodeString(p) + EncodeString(v));
      case ExtensionData(p, c) =>
        RawOfParsed(p);
        var ref := c.Reference(H);
        r := EncodeList(EncodeString(p) + RefBytes(ref));
      case DigestData(d) => r := [0xA0] + d;
    }

    method Hash(H: Hasher) returns (h: Hash)
      requires Valid(H)
      modifies Repr`cached
      ensures Valid(H) && h == HashOf(H, node)
    {
      if data.NullData? {
        h := EMPTY_ROOT;
      } else {
        var r := Reference(H);
        match r
        case ByDigest(d) => h := d;
        case Inline(bytes) => h := H(bytes);
      }
    }

    // ----- building nodes

    constructor Empty(ghost H: Hasher)
      ensures Valid(H) && node == Null && Repr == {this}
    {
      data := NullData;
      cached := None;
      node := Null;
      Repr := {this};
    }

    constructor NewLeaf(ghost H: Hasher, nibs: Nibbles, value: Bytes)
      ensures Valid(H) && node == LeafAt(nibs, value) && Repr == {this}
    {
      data := LeafData(EncodedPath(nibs, true), value);
      cached := None;
      node := LeafAt(nibs, value);
      Repr := {this};
      new;
      PathRoundTrip(nibs, true);
    }

    constructor NewExtension(ghost H: Hasher, nibs: Nibbles, child: MptNode)
      requires child.Valid(H)
      ensures Valid(H) && node == ExtensionAt(nibs, child.node) && Repr == {this} + child.Repr
    {
      data := ExtensionData(EncodedPath(nibs, false), child);
      cached := None;
      node := ExtensionAt(nibs, child.node);
      Repr := {this} + child.Repr;
      new;
      PathRoundTrip(nibs, false);
    }

    /** Makes this node a branch with two children. */
    method BecomeFork(ghost H: Hasher, i: Nibble, a: MptNode, j: Nibble, b: MptNode)
      requires a.Valid(H) && b.Valid(H) && a.Repr !! b.Repr && this !in a.Repr && this !in b.Repr && i != j
      modifies this
      ensures Valid(H) && node == TwoChildren(i, a.node, j, b.node)
      ensures Repr == {this} + a.Repr + b.Repr && cached.None?
    {
      var none: seq<MptNode?> := seq(16, _ => null);
      var ch := none[i := a][j := b];
      data := BranchData(ch);
      cached := None;
      node := TwoChildren(i, a.node, j, b.node);
      Repr := {this} + a.Repr + b.Repr;
      TwoChildrenAre(i, a.node, j, b.node);
      assert forall k :: 0 <= k < 16 ==> ch[k] == if k == j then b else if k == i then a else null;
    }

    // ----- insertion

    /** All of `Valid` for a branch, but for what concerns the child at `i`. */
    ghost predicate ValidBut(H: Hasher, i: Nibble)
      reads this, Repr
    {
      && this in Repr
      && data.BranchData?
      && node.Branch? && Shaped(node)
      && var ch := data.children;
         && |ch| == 16
         && (forall k :: 0 <= k < 16 && k != i && ch[k] != null ==> Owns(ch[k]) && ch[k].Valid(H))
         && (forall k :: 0 <= k < 16 && k != i ==>
               node.children[k] == if ch[k] == null then None else Some(ch[k].node))
         && (forall k, l :: 0 <= k < l < 16 && k != i && l != i && ch[k] != null && ch[l] != null ==>
               ch[k].Repr !! ch[l].Repr)
    }

    /** The child at `i` is new or has changed: the branch takes it in and forgets its cached reference. */
    method TakeIn(ghost H: Hasher, i: Nibble, c: MptNode)
      requires ValidBut(H, i) && c.Valid(H) && this !in c.Repr
      requires forall k :: 0 <= k < 16 && k != i && data.children[k] != null ==> data.children[k].Repr !! c.Repr
      modifies this
      ensures Valid(H) && node == WithChild(old(node.children), i, c.node)
      ensures Repr == old(Repr) + c.Repr && data.BranchData? && cached.None?
    {
      data := BranchData(data.children[i := c]);
      cached := None;
      node := WithChild(node.children, i, c.node);
      Repr := Repr + c.Repr;
    }

    method InsertBelowBranch(ghost H: Hasher, key: Nibbles, value: Bytes) returns (res: Result<bool, Error>)
      requires Valid(H) && data.BranchData? && key != []
      modifies Repr
      ensures Valid(H) && fresh(Repr - old(Repr))
      ensures Step(node, res) == Insert(old(node), key, value)
      ensures res != Ok(true) ==> unchanged(old(Repr))
      decreases node, 0
    {
      var child := data.children[key[0]];
      if child != null {
        res := child.InsertInternal(H, key[1..], value);
        if res != Ok(true) {
          assert node.children[key[0] := Some(child.node)] == node.children;
          return;
        }
        assert ValidBut(H, key[0]);
        TakeIn(H, key[0], child);
      } else {
        var leaf := new MptNode.NewLeaf(H, key[1..], value);
        TakeIn(H, key[0], leaf);
        res := Ok(true);
      }
    }

    /** Makes this node an extension above the given child. */
    method BecomeExtension(ghost H: Hasher, path: Bytes, child: MptNode)
      requires path != [] && child.Valid(H) && this !in child.Repr
      modifies this
      ensures Valid(H) && node == Extension(Parsed(path), child.node) && Repr == {this} + child.Repr
      ensures data == ExtensionData(path, child) && cached.None?
    {
      RawOfParsed(path);
      data := ExtensionData(path, child);
      cached := None;
      node := Extension(Parsed(path), child.node);
      Repr := {this} + child.Repr;
    }

    /** Makes this node a fork below the given nibbles, with a new branch node if there are any. */
    method BecomeForkUnder(ghost H: Hasher, nibs: Nibbles, i: Nibble, a: MptNode, j: Nibble, b: MptNode)
      requires a.Valid(H) && b.Valid(H) && a.Repr !! b.Repr && this !in a.Repr && this !in b.Repr && i != j
      modifies this
      ensures Valid(H) && node == Under(nibs, TwoChildren(i, a.node, j, b.node))
      ensures fresh(Repr - {this} - a.Repr - b.Repr)
    {
      if nibs == [] {
        BecomeFork(H, i, a, j, b);
      } else {
        var branch := new MptNode.Empty(H);
        branch.BecomeFork(H, i, a, j, b);
        PathRoundTrip(nibs, false);
        BecomeExtension(H, EncodedPath(nibs, false), branch);
      }
    }

    /** Splits a leaf whose path parts from the key. */
    method SplitLeaf(ghost H: Hasher, nibs: Nibbles, common: nat, key: Nibbles, value: Bytes)
      requires Valid(H) && data.LeafData? && nibs == node.path.nibs
      requires common == CommonLen(nibs, key) && common < |nibs| && common < |key|
      modifies Repr
      ensures Valid(H) && fresh(Repr - old(Repr))
      ensures node == Under(nibs[..common], TwoChildren(nibs[common], LeafAt(nibs[common + 1..], old(node.value)),
                                                        key[common], LeafAt(key[common + 1..], value)))
    {
      var a := new MptNode.NewLeaf(H, nibs[common + 1..], data.value);
      var b := new MptNode.NewLeaf(H, key[common + 1..], value);
      BecomeForkUnder(H, nibs[..common], nibs[common], a, key[common], b);
    }

    method InsertIntoLeaf(ghost H: Hasher, key: Nibbles, value: Bytes) returns (res: Result<bool, Error>)
      requires Valid(H) && data.LeafData?
      modifies Repr
      ensures Valid(H) && fresh(Repr - old(Repr))
      ensures Step(node, res) == Insert(old(node), key, value)
      ensures res != Ok(true) ==> unchanged(old(Repr))
    {
      var nibs := PrefixNibs(data.prefix);
      var common := Lcp(nibs, key);
      if common == |nibs| && common == |key| {
        if data.value == value { return Ok(false); }
        data := LeafData(data.prefix, value);
        node := Leaf(node.path, value);
        cached := None;
      } else if common == |nibs| || common == |key| {
        return Err(ValueInBranch);
      } else {
        SplitLeaf(H, nibs, common, key, value);
      }
      res := Ok(true);
    }

    /** What hangs below a split: the child itself, or an extension with the rest of the path. */
    method BelowSplit(ghost H: Hasher, nibs: Nibbles, child: MptNode) returns (below: MptNode)
      requires child.Valid(H)
      ensures below.Valid(H) && below.node == Under(nibs, child.node)
      ensures fresh(below.Repr - child.Repr)
    {
      if nibs == [] {
        below := child;
      } else {
        below := new MptNode.NewExtension(H, nibs, child);
      }
    }

    /** Splits an extension whose path parts from the key. */
    method SplitExtension(ghost H: Hasher, nibs: Nibbles, common: nat, key: Nibbles, value: Bytes)
      requires Valid(H) && data.ExtensionData? && nibs == node.path.nibs
      requires common == CommonLen(nibs, key) && common < |nibs| && common < |key|
      modifies Repr
      ensures Valid(H) && fresh(Repr - old(Repr))
      ensures node == Under(nibs[..common], TwoChildren(nibs[common], Under(nibs[common + 1..], old(node.child)),
                                                        key[common], LeafAt(key[common + 1..], value)))
    {
      var below := BelowSplit(H, nibs[common + 1..], data.child);
      var leaf := new MptNode.NewLeaf(H, key[common + 1..], value);
      BecomeForkUnder(H, nibs[..common], nibs[common], below, key[common], leaf);
    }

    method InsertBelowExtension(ghost H: Hasher, rest: Nibbles, value: Bytes) returns (res: Result<bool, Error>)
      requires Valid(H) && data.ExtensionData?
      modifies Repr
      ensures Valid(H) && fresh(Repr - old(Repr))
      ensures var below := Insert(old(node.child), rest, value);
              Step(node, res) == Step(Extension(old(node.path), below.node), below.res)
      ensures res != Ok(true) ==> unchanged(old(Repr))
      decreases node, 0
    {
      res := data.child.InsertInternal(H, rest, value);
      if res == Ok(true) { BecomeExtension(H, data.prefix, data.child); }
    }

    method InsertIntoExtension(ghost H: Hasher, key: Nibbles, value: Bytes) returns (res: Result<bool, Error>)
      requires Valid(H) && data.ExtensionData?
      modifies Repr
      ensures Valid(H) && fresh(Repr - old(Repr))
      ensures Step(node, res) == Insert(old(node), key, value)
      ensures res != Ok(true) ==> unchanged(old(Repr))
      decreases node, 1
    {
      var nibs := PrefixNibs(data.prefix);
      var common := Lcp(nibs, key);
      if common == |nibs| {
        res := InsertBelowExtension(H, key[common..], value);
      } else if common == |key| {
        res := Err(ValueInBranch);
      } else {
        SplitExtension(H, nibs, common, key, value);
        res := Ok(true);
      }
    }

    /** `insert_internal`: the value it leaves is the one specified, and a failure leaves all memory as it was. */
    method InsertInternal(ghost H: Hasher, key: Nibbles, value: Bytes) returns (res: Result<bool, Error>)
      requires Valid(H)
      modifies Repr
      ensures Valid(H) && fresh(Repr - old(Repr))
      ensures Step(node, res) == Insert(old(node), key, value)
      ensures res != Ok(true) ==> unchanged(old(Repr))
      decreases node, 2
    {
      match data
      case NullData =>
        BecomeLeaf(H, key, value);
        res := Ok(true);
      case BranchData(_) =>
        if key == [] {
          res := Err(ValueInBranch);
        } else {
          res := InsertBelowBranch(H, key, value);
        }
      case LeafData(_, _) => res := InsertIntoLeaf(H, key, value);
      case ExtensionData(_, _) => res := InsertIntoExtension(H, key, value);
      case DigestData(d) => res := Err(NodeNotResolved(d));
    }

    // ----- deletion

    /** Empties the place at `i`. */
    method Drop(ghost H: Hasher, i: Nibble)
      requires ValidBut(H, i)
      modifies this
      ensures Valid(H) && data.BranchData? && Repr == old(Repr) && cached.None?
      ensures node == Branch(old(node.children)[i := None])
    {
      data := BranchData(data.children[i := null]);
      cached := None;
      node := Branch(node.children[i := None]);
    }

    /** The next place at or after `i` that holds a child. */
    method NextPlace(ghost H: Hasher, from: nat) returns (i: nat)
      requires Valid(H) && data.BranchData? && from <= 16
      ensures from <= i <= 16
      ensures NextChild(node.children, from) == if i == 16 then None else Some(i)
    {
      i := from;
      while i < 16 && data.children[i] == null
        invariant from <= i <= 16
        invariant NextChild(node.children, from) == NextChild(node.children, i)
      {
        i := i + 1;
      }
    }

    /** Makes this node a leaf. */
    method BecomeLeaf(ghost H: Hasher, nibs: Nibbles, value: Bytes)
      modifies this
      ensures Valid(H) && node == LeafAt(nibs, value) && Repr == {this} && cached.None?
    {
      PathRoundTrip(nibs, true);
      data := LeafData(EncodedPath(nibs, true), value);
      cached := None;
      node := LeafAt(nibs, value);
      Repr := {this};
    }

    /** Merges the only child left with its nibble. */
    method MergeUp(ghost H: Hasher, i: Nibble, orphan: MptNode) returns (res: Result<bool, Error>)
      requires orphan.Valid(H) && this !in orphan.Repr
      modifies this
      ensures res == Merged(i, orphan.node).res && (res == Ok(true) || res == Err(Panic))
      ensures res == Ok(true) ==> Valid(H) && node == Merged(i, orphan.node).node && Repr <= {this} + orphan.Repr
    {
      res := Ok(true);
      match orphan.data
      case LeafData(p, v) =>
        var path := PrefixNibs(p);
        BecomeLeaf(H, [i] + path, v);
      case ExtensionData(p, c) =>
        var path := PrefixNibs(p);
        PathRoundTrip([i] + path, false);
        BecomeExtension(H, EncodedPath([i] + path, false), c);
      case NullData => res := Err(Panic);
      case _ =>
        PathRoundTrip([i], false);
        BecomeExtension(H, EncodedPath([i], false), orphan);
    }

    method CollapseBranch(ghost H: Hasher) returns (res: Result<bool, Error>)
      requires Valid(H) && data.BranchData?
      modifies this
      ensures res == Collapse(old(node.children)).res && (res == Ok(true) || res == Err(Panic))
      ensures res == Ok(true) ==> Valid(H) && node == Collapse(old(node.children)).node && Repr <= old(Repr)
    {
      var first := NextPlace(H, 0);
      if first == 16 { return Err(Panic); }
      var second := NextPlace(H, first + 1);
      if second < 16 { return Ok(true); }
      var orphan := data.children[first];
      assert Collapse(node.children) == Merged(first, orphan.node);
      assert orphan.Valid(H) && Owns(orphan);
      res := MergeUp(H, first, orphan);
    }

    /** After the child at `i` shrank: an empty child is removed, and the branch merged if one is left. */
    method Settle(ghost H: Hasher, i: Nibble, child: MptNode) returns (res: Result<bool, Error>)
      requires ValidBut(H, i) && child.Valid(H) && this !in child.Repr && child.Repr <= Repr
      requires forall k :: 0 <= k < 16 && k != i && data.children[k] != null ==> data.children[k].Repr !! child.Repr
      modifies this
      ensures var s := Collapse(old(node.children)[i := if child.node.Null? then None else Some(child.node)]);
              && res == s.res && (res == Ok(true) || res == Err(Panic))
              && (res == Ok(true) ==> Valid(H) && node == s.node && Repr <= old(Repr))
    {
      if child.data.NullData? {
        Drop(H, i);
      } else {
        TakeIn(H, i, child);
      }
      res := CollapseBranch(H);
    }

    method DeleteInBranch(ghost H: Hasher, key: Nibbles) returns (res: Result<bool, Error>)
      requires Valid(H) && data.BranchData? && key != []
      modifies Repr
      ensures res == Delete(old(node), key).res
      ensures res != Err(Panic) ==> Valid(H) && node == Delete(old(node), key).node && Repr <= old(Repr)
      ensures res != Ok(true) && res != Err(Panic) ==> unchanged(old(Repr))
      decreases node, 0
    {
      var child := data.children[key[0]];
      if child == null { return Ok(false); }
      res := child.DeleteInternal(H, key[1..]);
      if res == Err(Panic) { return; }
      if res != Ok(true) {
        assert unchanged(old(Repr));
        assert node.children[key[0] := Some(child.node)] == node.children;
        return;
      }
      assert ValidBut(H, key[0]);
      res := Settle(H, key[0], child);
    }

    /** Restores, after its child shrank, that an extension stands above a branch or a digest. */
    method RejoinChild(ghost H: Hasher, prefix: Bytes, nibs: Nibbles, child: MptNode)
      requires prefix != [] && nibs == PathNibs(prefix) && child.Valid(H) && this !in child.Repr
      modifies this
      ensures Sound(Parsed(prefix))
      ensures Valid(H) && node == Rejoin(Parsed(prefix), child.node) && Repr <= {this} + child.Repr
    {
      RawOfParsed(prefix);
      match child.data
      case NullData => Clear(H);
      case LeafData(p, v) =>
        var path := PrefixNibs(p);
        BecomeLeaf(H, nibs + path, v);
      case ExtensionData(p, c) =>
        var path := PrefixNibs(p);
        PathRoundTrip(nibs + path, false);
        BecomeExtension(H, EncodedPath(nibs + path, false), c);
      case _ => BecomeExtension(H, prefix, child);
    }

    method DeleteBelowExtension(ghost H: Hasher, key: Nibbles) returns (res: Result<bool, Error>)
      requires Valid(H) && data.ExtensionData?
      modifies Repr
      ensures res == Delete(old(node), key).res
      ensures res != Err(Panic) ==> Valid(H) && node == Delete(old(node), key).node && Repr <= old(Repr)
      ensures res != Ok(true) && res != Err(Panic) ==> unchanged(old(Repr))
      decreases node, 0
    {
      var nibs := PrefixNibs(data.prefix);
      if !(nibs <= key) { return Ok(false); }
      var child := data.child;
      res := child.DeleteInternal(H, key[|nibs|..]);
      if res == Ok(true) { RejoinChild(H, data.prefix, nibs, child); }
    }

    /**
     `delete_internal`: the value it leaves is the one specified, and a failure leaves all memory as it
     was. Nothing is said of memory after a panic; canonical tries never get there.
     */
    method DeleteInternal(ghost H: Hasher, key: Nibbles) returns (res: Result<bool, Error>)
      requires Valid(H)
      modifies Repr
      ensures res == Delete(old(node), key).res
      ensures res != Err(Panic) ==> Valid(H) && node == Delete(old(node), key).node && Repr <= old(Repr)
      ensures res != Ok(true) && res != Err(Panic) ==> unchanged(old(Repr))
      decreases node, 1
    {
      match data
      case NullData => res := Ok(false);
      case BranchData(_) =>
        if key == [] {
          res := Err(ValueInBranch);
        } else {
          res := DeleteInBranch(H, key);
        }
      case LeafData(p, _) =>
        var nibs := PrefixNibs(p);
        if nibs != key { return Ok(false); }
        Clear(H);
        res := Ok(true);
      case ExtensionData(_, _) => res := DeleteBelowExtension(H, key);
      case DigestData(d) => res := Err(NodeNotResolved(d));
    }

    method Clear(ghost H: Hasher)
      modifies this
      ensures Valid(H) && node == Null && Repr == {this} && cached.None?
    {
      data := NullData;
      cached := None;
      node := Null;
      Repr := {this};
    }

    // ----- lookup

    method GetInternal(ghost H: Hasher, key: Nibbles) returns (r: Result<Option<Bytes>, Error>)
      requires Valid(H)
      ensures r == Get(node, key)
      decreases node
    {
      match data
      case NullData => r := Ok(None);
      case BranchData(ch) =>
        if key == [] || ch[key[0]] == null {
          r := Ok(None);
        } else {
          r := ch[key[0]].GetInternal(H, key[1..]);
        }
      case LeafData(p, v) =>
        var nibs := PrefixNibs(p);
        r := if nibs == key then Ok(Some(v)) else Ok(None);
      case ExtensionData(p, c) =>
        var nibs := PrefixNibs(p);
        if nibs <= key {
          r := c.GetInternal(H, key[|nibs|..]);
        } else {
          r := Ok(None);
        }
      case DigestData(d) => r := Err(NodeNotResolved(d));
    }

    // ----- copies

    /** The children of a branch, as far as they have been made. */
    ghost static predicate Made(H: Hasher, ch: seq<MptNode?>, kids: Children, below: set<MptNode>)
      reads below, set c | c in ch
    {
      && |ch| <= |kids|
      && (forall k :: 0 <= k < |ch| && ch[k] != null ==> ch[k] in below && ch[k].Repr <= below && ch[k].Valid(H))
      && (forall k :: 0 <= k < |ch| ==> kids[k] == if ch[k] == null then None else Some(ch[k].node))
      && (forall k, l :: 0 <= k < l < |ch| && ch[k] != null && ch[l] != null ==> ch[k].Repr !! ch[l].Repr)
    }

    /** The memory a child brings along. */
    ghost static function Memory(c: MptNode?): set<MptNode>
      reads c
    {
      if c == null then {} else c.Repr
    }

    static lemma {:induction false} OneMore(H: Hasher, ch: seq<MptNode?>, kids: Children, below: set<MptNode>, c: MptNode?)
      requires Made(H, ch, kids, below) && |ch| < |kids|
      requires c != null ==> c.Valid(H) && c.Repr !! below
      requires kids[|ch|] == if c == null then None else Some(c.node)
      ensures Made(H, ch + [c], kids, below + Memory(c))
    {
    }

    constructor NewBranch(ghost H: Hasher, ch: seq<MptNode?>, ref: Option<Reference>, ghost kids: Children, ghost below: set<MptNode>)
      requires |ch| == 16 && Shaped(Branch(kids)) && Made(H, ch, kids, below)
      requires ref.Some? ==> ref.value == Ref(H, Branch(kids))
      ensures Valid(H) && node == Branch(kids) && Repr == {this} + below
    {
      data := BranchData(ch);
      cached := ref;
      node := Branch(kids);
      Repr := {this} + below;
    }

    constructor Of(ghost H: Hasher, d: Data, ref: Option<Reference>, ghost n: Node, ghost below: set<MptNode>)
      requires Shaped(n) && (ref.Some? ==> ref.value == Ref(H, n))
      requires match d
               case NullData => n == Null
               case LeafData(p, v) => p != [] && n == Leaf(Parsed(p), v)
               case ExtensionData(p, c) =>
                 p != [] && c in below && c.Repr <= below && c.Valid(H) && n == Extension(Parsed(p), c.node)
               case DigestData(h) => n == Digest(h)
               case BranchData(_) => false
      ensures Valid(H) && node == n && Repr == {this} + below
    {
      data := d;
      cached := ref;
      node := n;
      Repr := {this} + below;
    }

    /** `clone`: a copy in memory of its own, with the cached references copied along. */
    method Clone(ghost H: Hasher) returns (m: MptNode)
      requires Valid(H)
      ensures m.Valid(H) && m.node == node && fresh(m.Repr)
      decreases node, 1
    {
      if data.BranchData? {
        m := CloneBranch(H);
      } else if data.ExtensionData? {
        var c := data.child.Clone(H);
        m := new MptNode.Of(H, ExtensionData(data.prefix, c), cached, node, c.Repr);
      } else {
        m := new MptNode.Of(H, data, cached, node, {});
      }
    }

    method CloneBranch(ghost H: Hasher) returns (m: MptNode)
      requires Valid(H) && data.BranchData?
      ensures m.Valid(H) && m.node == node && fresh(m.Repr)
      decreases node, 0
    {
      var ch: seq<MptNode?> := [];
      ghost var below: set<MptNode> := {};
      for i := 0 to 16
        invariant |ch| == i && Made(H, ch, node.children, below) && fresh(below)
        invariant Valid(H)
      {
        var c: MptNode? := null;
        if data.children[i] != null {
          c := data.children[i].Clone(H);
        }
        OneMore(H, ch, node.children, below, c);
        ch, below := ch + [c], below + Memory(c);
      }
      m := new MptNode.NewBranch(H, ch, cached, node.children, below);
    }

    // ----- resolving

    /** The nodes in memory are the nodes of the store. */
    ghost static predicate Stored(H: Hasher, heap: map<Reference, MptNode>, s: Store)
      reads set r, o | r in heap && o in heap[r].Repr :: o
      reads set r | r in heap :: heap[r]
    {
      && Ranked(s)
      && s.nodes.Keys == heap.Keys
      && forall r :: r in heap ==> heap[r].Valid(H) && heap[r].node == s.nodes[r]
    }

    /** `resolve_nodes`: a new trie; what is rebuilt has no cached reference yet, the rest is copied. */
    method ResolveNodes(ghost H: Hasher, heap: map<Reference, MptNode>, ghost s: Store, ghost bound: nat)
      returns (m: MptNode)
      requires Valid(H) && Stored(H, heap, s) && Fit(s, node, bound)
      ensures m.Valid(H) && m.node == Resolve(s, node, bound) && fresh(m.Repr)
      decreases bound, node, 2
    {
      if data.BranchData? {
        m := ResolveBranch(H, heap, s, bound);
      } else if data.ExtensionData? {
        var c := data.child.ResolveNodes(H, heap, s, bound);
        m := new MptNode.Of(H, ExtensionData(data.prefix, c), None, Extension(node.path, c.node), c.Repr);
      } else if data.DigestData? && ByDigest(data.digest) in heap {
        m := heap[ByDigest(data.digest)].ResolveNodes(H, heap, s, s.rank(data.digest));
      } else {
        m := Clone(H);
      }
    }

    method ResolveChild(ghost H: Hasher, heap: map<Reference, MptNode>, ghost s: Store, ghost bound: nat, i: nat)
      returns (c: MptNode?)
      requires Valid(H) && data.BranchData? && Stored(H, heap, s) && Fit(s, node, bound) && i < 16
      ensures ResolvePlace(s, node.children, bound, i) == if c == null then None else Some(c.node)
      ensures c != null ==> c.Valid(H) && fresh(c.Repr)
      decreases bound, node, 0
    {
      c := null;
      if data.children[i] != null {
        c := data.children[i].ResolveNodes(H, heap, s, bound);
      }
    }

    method ResolveBranch(ghost H: Hasher, heap: map<Reference, MptNode>, ghost s: Store, ghost bound: nat)
      returns (m: MptNode)
      requires Valid(H) && data.BranchData? && Stored(H, heap, s) && Fit(s, node, bound)
      ensures m.Valid(H) && m.node == Resolve(s, node, bound) && fresh(m.Repr)
      decreases bound, node, 1
    {
      var ch: seq<MptNode?> := [];
      ghost var below: set<MptNode> := {};
      ghost var kids := ResolveChildren(s, node.children, bound, 0);
      for i := 0 to 16
        invariant |ch| == i && Made(H, ch, kids, below) && fresh(below)
        invariant Valid(H) && Stored(H, heap, s)
      {
        ResolvedPlace(s, node.children, bound, 0, i);
        var c := ResolveChild(H, heap, s, bound, i);
        OneMore(H, ch, kids, below, c);
        ch, below := ch + [c], below + Memory(c);
      }
      m := new MptNode.NewBranch(H, ch, None, kids, below);
    }
  }

  /** Nodes made from decoded data: none of them has a cached reference. */
  method Build(ghost H: Hasher, n: Node) returns (m: MptNode)
    requires Shaped(n)
    ensures m.Valid(H) && m.node == n && fresh(m.Repr)
    decreases n, 1
  {
    if n.Null? {
      m := new MptNode.Empty(H);
    } else if n.Leaf? {
      ParsedOfRaw(n.path);
      m := new MptNode.Of(H, LeafData(Raw(n.path), n.value), None, n, {});
    } else if n.Extension? {
      var c := Build(H, n.child);
      ParsedOfRaw(n.path);
      m := new MptNode.Of(H, ExtensionData(Raw(n.path), c), None, n, c.Repr);
    } else if n.Digest? {
      m := new MptNode.Of(H, DigestData(n.digest), None, n, {});
    } else {
      m := BuildBranch(H, n.children);
    }
  }

  method BuildBranch(ghost H: Hasher, kids: Children) returns (m: MptNode)
    requires Shaped(Branch(kids))
    ensures m.Valid(H) && m.node == Branch(kids) && fresh(m.Repr)
    decreases Branch(kids), 0
  {
    var ch: seq<MptNode?> := [];
    ghost var below: set<MptNode> := {};
    for i := 0 to 16
      invariant |ch| == i && MptNode.Made(H, ch, kids, below) && fresh(below)
    {
      var c: MptNode? := null;
      if kids[i].Some? {
        c := Build(H, kids[i].value);
      }
      MptNode.OneMore(H, ch, kids, below, c);
      ch, below := ch + [c], below + MptNode.Memory(c);
    }
    m := new MptNode.NewBranch(H, ch, None, kids, below);
  }
}
