/** Decoding an encoded node: long children come back as digests, bytes and hash stay the same. */
module TrieFidelity {
  import opened Prelude
  import opened HexPrefix
  import opened Rlp
  import opened Trie
  import opened TrieCodec

  // ----- what can be told apart after writing

  /** Paths marked with the kind of their node, and no empty node in a branch: all that decoding needs. */
  predicate Telling(n: Node)
    ensures Telling(n) ==> Shaped(n)
  {
    match n
    case Branch(ch) =>
      && |ch| == 16
      && forall i :: 0 <= i < |ch| && ch[i].Some? ==> !ch[i].value.Null? && Telling(ch[i].value)
    case Leaf(p, _) => Sound(p) && p.mark / 32 % 2 == 1
    case Extension(p, c) => Sound(p) && p.mark / 32 % 2 == 0 && Telling(c)
    case _ => true
  }

  lemma {:induction false} CanonicalIsTelling(n: Node)
    requires Canonical(n)
    ensures Telling(n)
  {
    match n
    case Branch(ch) =>
      forall i | 0 <= i < |ch| && ch[i].Some? ensures !ch[i].value.Null? && Telling(ch[i].value) {
        CanonicalIsTelling(ch[i].value);
      }
    case Extension(_, c) => CanonicalIsTelling(c);
    case _ =>
  }

  /** Whatever decodes can be written and told apart again. */
  lemma {:induction false} DecodedIsTelling(b: Bytes)
    requires Decode(b).Ok?
    ensures Telling(Decode(b).value)
    ensures Decode(b).value.Null? ==> EmptyPlace(b)
    decreases |b|, 1
  {
    if b != [] && b[0] >= 0xC0 {
      var items := ListItems(b);
      if |items| == 2 {
        DecodedPairIsTelling(items[0], items[1]);
      } else {
        DecodedChildrenAreTelling(b, 0);
      }
    }
  }

  lemma {:induction false} DecodedPairIsTelling(first: Bytes, second: Bytes)
    requires DecodePair(first, second).Ok?
    ensures Telling(DecodePair(first, second).value) && !DecodePair(first, second).value.Null?
    decreases |second|, 2
  {
    var path := DecodeData(first).value;
    RawOfParsed(path);
    ParsedOfRaw(Parsed(path));
    if !LeafFlag(path) { DecodedIsTelling(second); }
  }

  lemma {:induction false} DecodedChildrenAreTelling(b: Bytes, i: nat)
    requires b != [] && b[0] >= 0xC0 && |ListItems(b)| == 17 && i <= 16 && DecodeChildren(b, i).Ok?
    ensures var ch := DecodeChildren(b, i).value;
            forall j :: 0 <= j < |ch| && ch[j].Some? ==> !ch[j].value.Null? && Telling(ch[j].value)
    decreases |b|, 0, 16 - i
  {
    if i < 16 {
      DecodedChildrenAreTelling(b, i + 1);
      var x := ListItems(b)[i];
      assert x in ListItems(b);
      if !EmptyPlace(x) { DecodedIsTelling(x); }
    }
  }

  // ----- what decoding gives back

  function Shallow(H: Hasher, n: Node): (r: Node)
    requires Shaped(n)
    ensures Shaped(r)
    decreases n, 1
  {
    match n
    case Branch(ch) => Branch(ShallowChildren(H, ch, 0))
    case Extension(p, c) => Extension(p, ShallowChild(H, c))
    case _ => n
  }

  /** A child is kept when its encoding is part of the parent's, and is a digest otherwise. */
  function ShallowChild(H: Hasher, c: Node): (r: Node)
    requires Shaped(c)
    ensures Shaped(r)
    decreases c, 2
  {
    match Ref(H, c)
    case ByDigest(d) => Digest(d)
    case Inline(_) => Shallow(H, c)
  }

  function ShallowPlace(H: Hasher, ch: Children, i: nat): (r: Option<Node>)
    requires ShapedAll(ch) && i < |ch|
    ensures r.Some? ==> Shaped(r.value)
    decreases Branch(ch), 0, 0
  {
    if ch[i].None? then None else Some(ShallowChild(H, ch[i].value))
  }

  function ShallowChildren(H: Hasher, ch: Children, i: nat): (r: Children)
    requires ShapedAll(ch) && i <= |ch|
    ensures |r| == |ch| - i && ShapedAll(r)
    decreases Branch(ch), 0, |ch| - i + 1
  {
    if i == |ch| then [] else [ShallowPlace(H, ch, i)] + ShallowChildren(H, ch, i + 1)
  }

  lemma {:induction false} ShallowChildrenAt(H: Hasher, ch: Children, i: nat, j: nat)
    requires ShapedAll(ch) && i <= j < |ch|
    ensures ShallowChildren(H, ch, i)[j - i] == ShallowPlace(H, ch, j)
    decreases j - i
  {
    if i < j { ShallowChildrenAt(H, ch, i + 1, j); }
  }

  // ----- the shallow node has the same bytes

  lemma {:induction false} ShallowSameBytes(H: Hasher, n: Node)
    requires Shaped(n)
    ensures Encode(H, Shallow(H, n)) == Encode(H, n)
    ensures Ref(H, Shallow(H, n)) == Ref(H, n)
    decreases n, 1
  {
    match n
    case Branch(ch) =>
      forall j | 0 <= j < 16 && ch[j].Some? ensures Ref(H, ShallowChild(H, ch[j].value)) == Ref(H, ch[j].value) {
        ShallowChildSameRef(H, ch[j].value);
      }
      ShallowBranchSameBytes(H, ch);
    case Extension(_, c) => ShallowChildSameRef(H, c);
    case _ =>
  }

  lemma {:induction false} ShallowBranchSameBytes(H: Hasher, ch: Children)
    requires Shaped(Branch(ch))
    requires forall j :: 0 <= j < 16 && ch[j].Some? ==> Ref(H, ShallowChild(H, ch[j].value)) == Ref(H, ch[j].value)
    ensures var n := Branch(ShallowChildren(H, ch, 0));
            Shaped(n) && Encode(H, n) == Encode(H, Branch(ch)) && Ref(H, n) == Ref(H, Branch(ch))
  {
    var ch' := ShallowChildren(H, ch, 0);
    forall j | 0 <= j < 16 ensures PlaceItem(H, ch, j) == PlaceItem(H, ch', j) { ShallowChildrenAt(H, ch, 0, j); }
    SameBranch(H, ch, ch');
  }

  lemma {:induction false} ShallowChildSameRef(H: Hasher, c: Node)
    requires Shaped(c)
    ensures Ref(H, ShallowChild(H, c)) == Ref(H, c)
    decreases c, 2
  {
    if Ref(H, c).Inline? { ShallowSameBytes(H, c); }
  }

  // ----- decoding

  lemma {:induction false} DigestItem(d: Hash)
    ensures IsItem([0xA0] + d) && !EmptyPlace([0xA0] + d) && Decode([0xA0] + d) == Ok(Digest(d))
  {
    assert ([0xA0] + d)[1..33] == d;
  }

  lemma {:induction false} ItemsOfPair(a: Bytes, b: Bytes)
    requires IsItem(a) && IsItem(b)
    ensures Items(a + b) == [a, b]
  {
    assert Flatten([b]) == b + [] == b;
    assert [a, b][1..] == [b];
    assert Flatten([a, b]) == a + b;
    ItemsOfFlatten([a, b]);
  }

  lemma {:induction false} ListIsItem(H: Hasher, n: Node)
    requires Shaped(n) && (n.Branch? || n.Leaf? || n.Extension?) && |Encode(H, n)| < WORD
    ensures IsItem(Encode(H, n)) && Encode(H, n)[0] >= 0xC0
  {
    match n
    case Branch(ch) => WrittenList(Flatten(ChildItems(H, ch, 0) + [EMPTY_STRING]));
    case Leaf(p, v) => WrittenList(EncodeString(Raw(p)) + EncodeString(v));
    case Extension(p, c) => WrittenList(EncodeString(Raw(p)) + RefBytes(Ref(H, c)));
  }

  lemma {:induction false} RefIsItem(H: Hasher, c: Node)
    requires Shaped(c)
    ensures IsItem(RefBytes(Ref(H, c)))
    ensures EmptyPlace(RefBytes(Ref(H, c))) <==> c.Null?
  {
    EmptyStringItem();
    match Ref(H, c)
    case ByDigest(d) => DigestItem(d);
    case Inline(_) => if !c.Null? { ListIsItem(H, c); }
  }

  lemma {:induction false} DecodeTwoItems(a: Bytes, b: Bytes)
    requires IsItem(a) && IsItem(b) && |a| + |b| < WORD
    ensures Decode(EncodeList(a + b)) == DecodePair(a, b)
  {
    WrittenList(a + b);
    ItemsOfPair(a, b);
  }

  lemma {:induction false} DecodeLeaf(p: Path, v: Bytes)
    requires Sound(p) && p.mark / 32 % 2 == 1 && |Raw(p)| < WORD && |v| < WORD
    ensures DecodePair(EncodeString(Raw(p)), EncodeString(v)) == Ok(Leaf(p, v))
  {
    WrittenString(Raw(p));
    WrittenString(v);
    ParsedOfRaw(p);
  }

  lemma {:induction false} DecodeExtension(p: Path, item: Bytes, child: Node)
    requires Sound(p) && p.mark / 32 % 2 == 0 && |Raw(p)| < WORD
    requires Decode(item) == Ok(child)
    ensures DecodePair(EncodeString(Raw(p)), item) == Ok(Extension(p, child))
  {
    WrittenString(Raw(p));
    ParsedOfRaw(p);
  }

  lemma {:induction false} ChildItemsAt(H: Hasher, ch: Children, i: nat, j: nat)
    requires ShapedAll(ch) && i <= j < |ch|
    ensures ChildItems(H, ch, i)[j - i] == PlaceItem(H, ch, j)
    decreases j - i
  {
    if i < j { ChildItemsAt(H, ch, i + 1, j); }
  }

  lemma {:induction false} EmptyStringItem()
    ensures IsItem(EMPTY_STRING) && EmptyPlace(EMPTY_STRING) && DecodeData(EMPTY_STRING) == Ok([])
  {
    assert EMPTY_STRING[1..1] == [];
  }

  /** The 17 items of a branch, as the reader finds them. */
  lemma {:induction false} BranchItems(H: Hasher, ch: Children)
    requires Shaped(Branch(ch)) && |Encode(H, Branch(ch))| < WORD
    ensures var b := Encode(H, Branch(ch));
            && b != [] && b[0] >= 0xC0
            && ListItems(b) == ChildItems(H, ch, 0) + [EMPTY_STRING]
  {
    var xs := ChildItems(H, ch, 0) + [EMPTY_STRING];
    EmptyStringItem();
    forall x | x in xs ensures IsItem(x) {
      var j :| 0 <= j < |xs| && xs[j] == x;
      if j < 16 {
        ChildItemsAt(H, ch, 0, j);
        if ch[j].Some? { RefIsItem(H, ch[j].value); }
      }
    }
    ItemsOfFlatten(xs);
    WrittenList(Flatten(xs));
  }

  lemma {:induction false} RefSpells(H: Hasher, c: Node, n: Node)
    requires Shaped(c) && !c.Null? && Decode(RefBytes(Ref(H, c))) == Ok(n)
    ensures SpellsPlace(RefBytes(Ref(H, c)), Some(n))
  {
    RefIsItem(H, c);
  }

  lemma {:induction false} DecodeBranchPlace(H: Hasher, ch: Children, i: nat)
    requires Telling(Branch(ch)) && i < 16
    requires ch[i].Some? ==> Decode(RefBytes(Ref(H, ch[i].value))) == Ok(ShallowChild(H, ch[i].value))
    ensures SpellsPlace(PlaceItem(H, ch, i), ShallowPlace(H, ch, i))
  {
    if ch[i].Some? {
      RefSpells(H, ch[i].value, ShallowChild(H, ch[i].value));
    } else {
      EmptyStringItem();
    }
  }

  lemma {:induction false} DecodeRef(H: Hasher, c: Node)
    requires Telling(c)
    ensures Decode(RefBytes(Ref(H, c))) == Ok(ShallowChild(H, c))
    decreases c, 2
  {
    match Ref(H, c)
    case ByDigest(d) => DigestItem(d);
    case Inline(_) => DecodeEncode(H, c);
  }

  lemma {:induction false} DecodeEncode(H: Hasher, n: Node)
    requires Telling(n) && |Encode(H, n)| < WORD
    ensures Decode(Encode(H, n)) == Ok(Shallow(H, n))
    decreases n, 1
  {
    match n
    case Null => EmptyStringItem();
    case Branch(ch) =>
      forall j | 0 <= j < 16 && ch[j].Some?
        ensures Decode(RefBytes(Ref(H, ch[j].value))) == Ok(ShallowChild(H, ch[j].value))
      {
        DecodeRef(H, ch[j].value);
      }
      DecodeBranch(H, ch);
    case Leaf(p, v) =>
      WrittenString(Raw(p));
      WrittenString(v);
      DecodeTwoItems(EncodeString(Raw(p)), EncodeString(v));
      DecodeLeaf(p, v);
    case Extension(p, c) =>
      RefIsItem(H, c);
      DecodeRef(H, c);
      WrittenString(Raw(p));
      DecodeTwoItems(EncodeString(Raw(p)), RefBytes(Ref(H, c)));
      DecodeExtension(p, RefBytes(Ref(H, c)), ShallowChild(H, c));
    case Digest(d) => DigestItem(d);
  }

  lemma {:induction false} DecodeBranch(H: Hasher, ch: Children)
    requires Telling(Branch(ch)) && |Encode(H, Branch(ch))| < WORD
    requires forall j :: 0 <= j < 16 && ch[j].Some? ==>
               Decode(RefBytes(Ref(H, ch[j].value))) == Ok(ShallowChild(H, ch[j].value))
    ensures Decode(Encode(H, Branch(ch))) == Ok(Shallow(H, Branch(ch)))
  {
    var b, children := Encode(H, Branch(ch)), ShallowChildren(H, ch, 0);
    BranchItems(H, ch);
    forall i | 0 <= i < 16 ensures SpellsPlace(ListItems(b)[0 + i], children[i]) {
      ChildItemsAt(H, ch, 0, i);
      ShallowChildrenAt(H, ch, 0, i);
      DecodeBranchPlace(H, ch, i);
    }
    ChildrenExactly(b, 0, children);
    EmptyStringItem();
    BranchForm(b, Branch(children));
  }

  /**
   RLP fidelity: the bytes of a trie that is canonical, or that was decoded, are as many as announced, they decode, and what they
   decode to has the same bytes, the same reference and the same hash.
   */
  lemma {:induction false} RlpFidelity(H: Hasher, n: Node)
    requires Telling(n) && |Encode(H, n)| < WORD
    ensures Length(H, n) == |Encode(H, n)|
    ensures Decode(Encode(H, n)).Ok?
    ensures var d := Decode(Encode(H, n)).value;
            Encode(H, d) == Encode(H, n) && Ref(H, d) == Ref(H, n) && HashOf(H, d) == HashOf(H, n)
  {
    LengthIsExact(H, n);
    DecodeEncode(H, n);
    ShallowSameBytes(H, n);
  }

  // ----- the bytes of a node

  /** How a node appears in its parent: as its own bytes below 32 of them, and as their hash from there on. */
  ghost predicate IsReference(H: Hasher, n: Node, item: Bytes)
    requires Shaped(n)
  {
    if |Encode(H, n)| < 32 then item == Encode(H, n)
    else item == [0xA0] + if n.Digest? then n.digest else H(Encode(H, n))
  }

  lemma {:induction false} RefBytesAre(H: Hasher, n: Node)
    requires Shaped(n)
    ensures IsReference(H, n, RefBytes(Ref(H, n)))
  {
    RefExactly(H, n);
  }

  /** The items of a list node, by Appendix D of the Ethereum Yellow Paper; branches hold no value here. */
  ghost predicate IsNode(H: Hasher, n: Node, items: seq<Bytes>)
    requires Shaped(n)
  {
    match n
    case Leaf(p, v) => items == [EncodeString(Raw(p)), EncodeString(v)]
    case Extension(p, c) => |items| == 2 && items[0] == EncodeString(Raw(p)) && IsReference(H, c, items[1])
    case Branch(ch) =>
      && |items| == 17 && items[16] == [0x80]
      && forall i :: 0 <= i < 16 ==> if ch[i].None? then items[i] == [0x80] else IsReference(H, ch[i].value, items[i])
    case _ => false
  }

  lemma {:induction false} BranchIsNode(H: Hasher, ch: Children)
    requires Shaped(Branch(ch))
    ensures IsNode(H, Branch(ch), ChildItems(H, ch, 0) + [EMPTY_STRING])
  {
    var items := ChildItems(H, ch, 0) + [EMPTY_STRING];
    forall i | 0 <= i < 16
      ensures if ch[i].None? then items[i] == [0x80] else IsReference(H, ch[i].value, items[i])
    {
      ChildItemsAt(H, ch, 0, i);
      if ch[i].Some? { RefBytesAre(H, ch[i].value); }
    }
  }

  /** Every node is written as the standard says. */
  lemma {:induction false} NodeBytes(H: Hasher, n: Node)
    requires Shaped(n) && |Encode(H, n)| < WORD
    ensures n.Null? ==> Encode(H, n) == [0x80]
    ensures n.Digest? ==> Encode(H, n) == EncodeString(n.digest)
    ensures !n.Null? && !n.Digest? ==> Encode(H, n)[0] >= 0xC0 && IsNode(H, n, ListItems(Encode(H, n)))
  {
    match n
    case Branch(ch) =>
      BranchItems(H, ch);
      BranchIsNode(H, ch);
    case Leaf(p, v) =>
      WrittenString(Raw(p));
      WrittenString(v);
      WrittenList(EncodeString(Raw(p)) + EncodeString(v));
      ItemsOfPair(EncodeString(Raw(p)), EncodeString(v));
    case Extension(p, c) =>
      WrittenString(Raw(p));
      RefIsItem(H, c);
      RefBytesAre(H, c);
      WrittenList(EncodeString(Raw(p)) + RefBytes(Ref(H, c)));
      ItemsOfPair(EncodeString(Raw(p)), RefBytes(Ref(H, c)));
    case _ =>
  }

  // ----- what is accepted

  predicate IsList(b: Bytes) {
    b != [] && b[0] >= 0xC0
  }

  /** The bytes that are read as the given node; its children are those that their items are read as. */
  ghost predicate Spells(b: Bytes, n: Node) {
    match n
    case Null => EmptyPlace(b)
    case Digest(d) => EncodeString(d) <= b
    case Leaf(p, v) => IsList(b) && Sound(p) && LeafFlag(Raw(p)) && ListItems(b) == [EncodeString(Raw(p)), EncodeString(v)]
    case Extension(p, c) =>
      && IsList(b) && Sound(p) && !LeafFlag(Raw(p))
      && |ListItems(b)| == 2 && ListItems(b)[0] == EncodeString(Raw(p)) && Decode(ListItems(b)[1]) == Ok(c)
    case Branch(ch) =>
      && IsList(b) && |ListItems(b)| == 17 && ListItems(b)[16] == [0x80]
      && SpellsPlaces(ListItems(b), 0, ch)
  }

  predicate SpellsPlace(x: Bytes, place: Option<Node>) {
    if EmptyPlace(x) then place == None else place.Some? && Decode(x) == Ok(place.value)
  }

  lemma {:induction false} ListItemsAreItems(b: Bytes, x: Bytes)
    requires IsList(b) && x in ListItems(b)
    ensures IsItem(x)
  {
    ItemsAreItems(ListPayload(b).value, x);
  }

  ghost predicate SpellsPlaces(items: seq<Bytes>, i: nat, ch: Children)
    requires |items| == 17 && i <= 16
  {
    |ch| == 16 - i && forall j :: 0 <= j < |ch| ==> SpellsPlace(items[i + j], ch[j])
  }

  lemma {:induction false} PlacesBehindFirst(items: seq<Bytes>, i: nat, ch: Children)
    requires |items| == 17 && i < 16 && ch != [] && SpellsPlaces(items, i, ch)
    ensures SpellsPlace(items[i], ch[0]) && SpellsPlaces(items, i + 1, ch[1..])
  {
    assert SpellsPlace(items[i + 0], ch[0]);
    forall j | 0 <= j < |ch[1..]| ensures SpellsPlace(items[i + 1 + j], ch[1..][j]) {
      assert SpellsPlace(items[i + (j + 1)], ch[j + 1]);
    }
  }

  lemma {:induction false} PlacesWithFirst(items: seq<Bytes>, i: nat, ch: Children)
    requires |items| == 17 && i < 16 && ch != [] && SpellsPlace(items[i], ch[0]) && SpellsPlaces(items, i + 1, ch[1..])
    ensures SpellsPlaces(items, i, ch)
  {
    forall j | 0 <= j < |ch| ensures SpellsPlace(items[i + j], ch[j]) {
      if j > 0 { assert SpellsPlace(items[i + 1 + (j - 1)], ch[1..][j - 1]); }
    }
  }

  lemma {:induction false} FirstPlace(items: seq<Bytes>, i: nat, ch: Children)
    requires |items| == 17 && i < 16 && ch != []
    ensures SpellsPlaces(items, i, ch) <==> SpellsPlace(items[i], ch[0]) && SpellsPlaces(items, i + 1, ch[1..])
  {
    if SpellsPlaces(items, i, ch) { PlacesBehindFirst(items, i, ch); }
    if SpellsPlace(items[i], ch[0]) && SpellsPlaces(items, i + 1, ch[1..]) { PlacesWithFirst(items, i, ch); }
  }

  lemma {:induction false} ChildrenExactly(b: Bytes, i: nat, ch: Children)
    requires IsList(b) && |ListItems(b)| == 17 && i <= 16
    ensures DecodeChildren(b, i) == Ok(ch) <==> SpellsPlaces(ListItems(b), i, ch)
    decreases 16 - i
  {
    if i < 16 && ch != [] {
      ChildrenExactly(b, i + 1, ch[1..]);
      FirstPlace(ListItems(b), i, ch);
      assert ch == [ch[0]] + ch[1..];
    }
  }

  lemma {:induction false} PairExactly(first: Bytes, second: Bytes, n: Node)
    requires IsItem(first) && IsItem(second) && |first| < WORD && |second| < WORD
    ensures DecodePair(first, second) == Ok(n) <==>
            && (n.Leaf? || n.Extension?) && Sound(n.path) && LeafFlag(Raw(n.path)) == n.Leaf? && first == EncodeString(Raw(n.path))
            && (n.Leaf? ==> second == EncodeString(n.value))
            && (n.Extension? ==> Decode(second) == Ok(n.child))
  {
    var path := DecodeData(first);
    if path.Ok? {
      ItemExactly(first, path.value);
      if path.value != [] { RawOfParsed(path.value); }
    }
    if n.Leaf? { ItemExactly(second, n.value); }
    if (n.Leaf? || n.Extension?) && Sound(n.path) {
      ItemExactly(first, Raw(n.path));
      ParsedOfRaw(n.path);
    }
  }

  lemma {:induction false} PairListExactly(b: Bytes, n: Node)
    requires IsList(b) && |b| < WORD && |ListItems(b)| == 2
    ensures Decode(b) == Ok(n) <==> (n.Leaf? || n.Extension?) && Spells(b, n)
  {
    var first, second := ListItems(b)[0], ListItems(b)[1];
    assert ListItems(b) == [first, second];
    ListItemsAreItems(b, first);
    ListItemsAreItems(b, second);
    assert Decode(b) == DecodePair(first, second);
    PairExactly(first, second, n);
  }

  lemma {:induction false} BranchListExactly(b: Bytes, n: Node)
    requires IsList(b) && |b| < WORD && |ListItems(b)| == 17
    ensures Decode(b) == Ok(n) <==> n.Branch? && Spells(b, n)
  {
    var last := ListItems(b)[16];
    ListItemsAreItems(b, last);
    ItemExactly(last, []);
    BranchForm(b, n);
    if n.Branch? { ChildrenExactly(b, 0, n.children); }
  }

  lemma {:induction false} BranchForm(b: Bytes, n: Node)
    requires IsList(b) && |ListItems(b)| == 17
    ensures Decode(b) == Ok(n) <==>
            n.Branch? && DecodeChildren(b, 0) == Ok(n.children) && DecodeData(ListItems(b)[16]) == Ok([])
  {
  }

  lemma {:induction false} StringNodeExactly(b: Bytes, n: Node)
    requires !IsList(b) && |b| < WORD
    ensures Decode(b) == Ok(n) <==> (n.Null? || n.Digest?) && Spells(b, n)
  {
    if n.Digest? {
      DataExactly(b, n.digest);
      if EncodeString(n.digest) <= b { assert b[0] == EncodeString(n.digest)[0]; }
    }
  }

  /**
   What decoding accepts: nodes in the form in which they are written, with paths under any mark, and nothing
   else. In particular a branch with a value is refused.
   */
  lemma {:induction false} DecodeExactly(b: Bytes, n: Node)
    requires |b| < WORD
    ensures Decode(b) == Ok(n) <==> Spells(b, n)
  {
    if n.Digest? && EncodeString(n.digest) <= b { assert b[0] == EncodeString(n.digest)[0] == 0xA0; }
    if !IsList(b) {
      StringNodeExactly(b, n);
    } else if |ListItems(b)| == 2 {
      PairListExactly(b, n);
    } else if |ListItems(b)| == 17 {
      BranchListExactly(b, n);
    }
  }
}
