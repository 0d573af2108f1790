/**
 Node encoding, references and hashes, and the decoder. Children that encode to 32 bytes or more
 are referenced by their hash, so decoding brings them back as digests.
 */
module TrieCodec {
  import opened Prelude
  import opened HexPrefix
  import opened Rlp
  import opened Trie

  /** How a node appears inside its parent. */
  datatype Reference = Inline(bytes: Bytes) | ByDigest(hash: Hash)

  const EMPTY_STRING: Bytes := [0x80]

  const EMPTY_ROOT: Hash := [
    0x56, 0xe8, 0x1f, 0x17, 0x1b, 0xcc, 0x55, 0xa6, 0xff, 0x83, 0x45, 0xe6, 0x92, 0xc0, 0xf8, 0x6e,
    0x5b, 0x48, 0xe0, 0x1b, 0x99, 0x6c, 0xad, 0xc0, 0x01, 0x62, 0x2f, 0xb5, 0xe3, 0x63, 0xb4, 0x21]

  /** `reference_encode` */
  function RefBytes(r: Reference): Bytes {
    match r
    case Inline(b) => b
    case ByDigest(h) => [0xA0] + h
  }

  function RefLength(r: Reference): nat {
    match r
    case Inline(b) => |b|
    case ByDigest(_) => 33
  }

  predicate ShapedAll(ch: Children) {
    forall i :: 0 <= i < |ch| && ch[i].Some? ==> Shaped(ch[i].value)
  }

  function Encode(H: Hasher, n: Node): (r: Bytes)
    requires Shaped(n)
    decreases n, 1
  {
    match n
    case Null => EMPTY_STRING
    case Branch(ch) => EncodeList(Flatten(ChildItems(H, ch, 0) + [EMPTY_STRING]))
    case Leaf(p, v) => EncodeList(EncodeString(Raw(p)) + EncodeString(v))
    case Extension(p, c) => EncodeList(EncodeString(Raw(p)) + RefBytes(Ref(H, c)))
    case Digest(d) => [0xA0] + d
  }

  /** `calc_reference` */
  function Ref(H: Hasher, n: Node): Reference
    requires Shaped(n)
    decreases n, 2
  {
    match n
    case Null => Inline(EMPTY_STRING)
    case Digest(d) => ByDigest(d)
    case _ =>
      var e := Encode(H, n);
      if |e| < 32 then Inline(e) else ByDigest(H(e))
  }

  /** What one of a branch's places contributes to its payload. */
  function PlaceItem(H: Hasher, ch: Children, i: nat): Bytes
    requires ShapedAll(ch) && i < |ch|
    decreases Branch(ch), 0, 0
  {
    if ch[i].None? then EMPTY_STRING else RefBytes(Ref(H, ch[i].value))
  }

  /** The places from the `i`-th on. */
  function ChildItems(H: Hasher, ch: Children, i: nat): (r: seq<Bytes>)
    requires ShapedAll(ch) && i <= |ch|
    ensures |r| == |ch| - i
    decreases Branch(ch), 0, |ch| - i + 1
  {
    if i == |ch| then [] else [PlaceItem(H, ch, i)] + ChildItems(H, ch, i + 1)
  }

  function HashOf(H: Hasher, n: Node): Hash
    requires Shaped(n)
  {
    if n.Null? then EMPTY_ROOT
    else match Ref(H, n)
      case Inline(b) => H(b)
      case ByDigest(d) => d
  }

  lemma {:induction false} SameItems(H: Hasher, a: Children, b: Children, i: nat)
    requires |a| == |b| && ShapedAll(a) && ShapedAll(b) && i <= |a|
    requires forall j :: i <= j < |a| ==> PlaceItem(H, a, j) == PlaceItem(H, b, j)
    ensures ChildItems(H, a, i) == ChildItems(H, b, i)
    decreases |a| - i
  {
    if i < |a| { SameItems(H, a, b, i + 1); }
  }

  /** Replacing children by nodes with the same references changes neither bytes nor reference. */
  lemma {:induction false} SameBranch(H: Hasher, a: Children, b: Children)
    requires Shaped(Branch(a)) && Shaped(Branch(b))
    requires forall j :: 0 <= j < 16 ==> PlaceItem(H, a, j) == PlaceItem(H, b, j)
    ensures Encode(H, Branch(a)) == Encode(H, Branch(b)) && Ref(H, Branch(a)) == Ref(H, Branch(b))
  {
    SameItems(H, a, b, 0);
  }

  // ----- lengths

  function ChildLengths(H: Hasher, ch: Children, i: nat): nat
    requires ShapedAll(ch) && i <= |ch|
    decreases |ch| - i
  {
    if i == |ch| then 0
    else (if ch[i].None? then 1 else RefLength(Ref(H, ch[i].value))) + ChildLengths(H, ch, i + 1)
  }

  function PayloadLength(H: Hasher, n: Node): nat
    requires Shaped(n)
  {
    match n
    case Null => 0
    case Branch(ch) => 1 + ChildLengths(H, ch, 0)
    case Leaf(p, v) => StringLength(Raw(p)) + StringLength(v)
    case Extension(p, c) => StringLength(Raw(p)) + RefLength(Ref(H, c))
    case Digest(_) => 32
  }

  function Length(H: Hasher, n: Node): nat
    requires Shaped(n)
  {
    PayloadLength(H, n) + HeaderLength(PayloadLength(H, n))
  }

  lemma {:induction false} ChildLengthsCorrect(H: Hasher, ch: Children, i: nat)
    requires ShapedAll(ch) && i <= |ch|
    ensures ChildLengths(H, ch, i) == |Flatten(ChildItems(H, ch, i))|
    decreases |ch| - i
  {
    if i < |ch| {
      ChildLengthsCorrect(H, ch, i + 1);
      assert ChildItems(H, ch, i)[1..] == ChildItems(H, ch, i + 1);
    }
  }

  lemma {:induction false} BranchPayloadLength(H: Hasher, ch: Children)
    requires ShapedAll(ch)
    ensures |Flatten(ChildItems(H, ch, 0) + [EMPTY_STRING])| == 1 + ChildLengths(H, ch, 0)
  {
    ChildLengthsCorrect(H, ch, 0);
    FlattenAppend(ChildItems(H, ch, 0), [EMPTY_STRING]);
    assert Flatten([EMPTY_STRING]) == EMPTY_STRING;
  }

  lemma {:induction false} PairLength(a: Bytes, b: Bytes)
    ensures |EncodeList(a + b)| == HeaderLength(|a| + |b|) + |a| + |b|
  {
  }

  /** The announced length is the number of bytes written, for every kind of node. */
  lemma {:induction false} LengthIsExact(H: Hasher, n: Node)
    requires Shaped(n)
    ensures Length(H, n) == |Encode(H, n)|
  {
    match n
    case Branch(ch) => BranchPayloadLength(H, ch);
    case Leaf(p, v) => PairLength(EncodeString(Raw(p)), EncodeString(v));
    case Extension(p, c) => PairLength(EncodeString(Raw(p)), RefBytes(Ref(H, c)));
    case _ =>
  }

  /** A node is referenced by its hash exactly from 32 bytes on, and is its own reference below. */
  lemma {:induction false} RefExactly(H: Hasher, n: Node)
    requires Shaped(n)
    ensures Ref(H, n).ByDigest? <==> |Encode(H, n)| >= 32
    ensures Ref(H, n).ByDigest? <==> Length(H, n) >= 32
    ensures Ref(H, n).Inline? ==> Ref(H, n).bytes == Encode(H, n)
    ensures Ref(H, n).ByDigest? ==> Ref(H, n).hash == if n.Digest? then n.digest else H(Encode(H, n))
  {
    LengthIsExact(H, n);
  }

  /** The root hash is the hash of the bytes, however many they are; the empty trie has its own. */
  lemma {:induction false} HashExactly(H: Hasher, n: Node)
    requires Shaped(n)
    ensures HashOf(H, n) == if n.Null? then EMPTY_ROOT else if n.Digest? then n.digest else H(Encode(H, n))
  {
    RefExactly(H, n);
  }

  // ----- decoder

  function Decode(b: Bytes): (r: Result<Node, RlpError>)
    ensures r.Ok? ==> Shaped(r.value)
    decreases |b|, 1
  {
    if b == [] then Ok(Null)
    else if b[0] < 0xC0 then
      var size := DataSize(b);
      if size == 0 then Ok(Null)
      else if size == 32 then
        var d := DecodeData(b);
        if d.Err? then Err(d.error) else DigestFrom(d.value)
      else Err(IncorrectListLen)
    else
      var items := ListItems(b);
      if |items| == 2 then DecodePair(items[0], items[1])
      else if |items| == 17 then
        var children := DecodeChildren(b, 0);
        if children.Err? then Err(children.error)
        else
          var value := DecodeData(items[16]);
          if value.Err? then Err(value.error)
          else if value.value == [] then Ok(Branch(children.value))
          else Err(BranchWithValue)
      else Err(IncorrectListLen)
  }

  function DigestFrom(d: Bytes): Result<Node, RlpError> {
    if |d| == 32 then Ok(Digest(d)) else Err(InconsistentLengthAndData)
  }

  function DecodePair(first: Bytes, second: Bytes): (r: Result<Node, RlpError>)
    ensures r.Ok? ==> Shaped(r.value)
    decreases |second|, 2
  {
    var path := DecodeData(first);
    if path.Err? then Err(path.error)
    else if path.value == [] then Err(EmptyPathPanic)
    else
      RawOfParsed(path.value);
      if LeafFlag(path.value) then
        var value := DecodeData(second);
        if value.Err? then Err(value.error) else Ok(Leaf(Parsed(path.value), value.value))
      else
        var node := Decode(second);
        if node.Err? then node else Ok(Extension(Parsed(path.value), node.value))
  }

  /** An empty place is told by its header; anything else must decode. */
  predicate EmptyPlace(b: Bytes) {
    b == [] || (b[0] < 0xC0 && DataSize(b) == 0)
  }

  /** The children of a 17-item list, from the `i`-th on. */
  function DecodeChildren(b: Bytes, i: nat): (r: Result<Children, RlpError>)
    requires b != [] && b[0] >= 0xC0 && |ListItems(b)| == 17 && i <= 16
    ensures r.Ok? ==> |r.value| == 16 - i && ShapedAll(r.value)
    decreases |b|, 0, 16 - i
  {
    if i == 16 then Ok([])
    else
      var x := ListItems(b)[i];
      var first := if EmptyPlace(x) then Ok(None) else DecodePlace(Decode(x));
      if first.Err? then Err(first.error)
      else
        var rest := DecodeChildren(b, i + 1);
        if rest.Err? then rest else Ok([first.value] + rest.value)
  }

  function DecodePlace(r: Result<Node, RlpError>): Result<Option<Node>, RlpError> {
    if r.Err? then Err(r.error) else Ok(Some(r.value))
  }
}
