/** Nibble paths and the hex-prefix encoding that stores them inside leaves and extensions. */
module HexPrefix {
  import opened Prelude

  type Nibble = x: int | 0 <= x < 16
  type Nibbles = seq<Nibble>

  /** The two nibbles of every byte, high nibble first. */
  function NibblesOf(bytes: Bytes): (r: Nibbles)
    ensures |r| == 2 * |bytes|
  {
    if bytes == [] then [] else [bytes[0] / 16, bytes[0] % 16] + NibblesOf(bytes[1..])
  }

  function Joined(high: Nibble, low: Nibble): (r: Byte)
    ensures r / 16 == high && r % 16 == low
  {
    16 * (high as int) + low
  }

  /** One byte for every pair of nibbles. */
  function Packed(nibs: Nibbles): (r: Bytes)
    requires |nibs| % 2 == 0
    ensures 2 * |r| == |nibs|
  {
    if nibs == [] then [] else [Joined(nibs[0], nibs[1])] + Packed(nibs[2..])
  }

  /** The hex-prefix encoding: bit 5 of the first byte marks a leaf, bit 4 an odd path. */
  function EncodedPath(nibs: Nibbles, isLeaf: bool): (r: Bytes)
    ensures |r| == 1 + |nibs| / 2
  {
    var flag: int := if isLeaf then 0x20 else 0;
    if |nibs| % 2 != 0
    then [flag + 0x10 + nibs[0]] + Packed(nibs[1..])
    else [flag] + Packed(nibs)
  }

  /** The nibbles of an encoded path; only the parity bit of the first byte is looked at. */
  function PathNibs(prefix: Bytes): Nibbles
    requires prefix != []
  {
    if prefix[0] / 16 % 2 == 1
    then [prefix[0] % 16] + NibblesOf(prefix[1..])
    else NibblesOf(prefix[1..])
  }

  /** The test `decode` makes to tell leaves from extensions. */
  predicate LeafFlag(prefix: Bytes)
    requires prefix != []
  {
    prefix[0] / 32 % 2 == 1
  }

  /**
   A stored prefix taken apart: its nibbles, and the first byte with any nibble of the path cleared.
   Prefixes that arrive in proofs may carry any mark; the trie itself writes four of them only.
   */
  datatype Path = Path(nibs: Nibbles, mark: Byte)

  /** The mark agrees with the length of the path, so that the bytes can be put together again. */
  predicate Sound(p: Path) {
    if |p.nibs| % 2 == 1 then p.mark / 16 % 2 == 1 && p.mark % 16 == 0 else p.mark / 16 % 2 == 0
  }

  function Parsed(prefix: Bytes): (p: Path)
    requires prefix != []
  {
    Path(PathNibs(prefix), if prefix[0] / 16 % 2 == 1 then prefix[0] - prefix[0] % 16 else prefix[0])
  }

  function Raw(p: Path): (r: Bytes)
    requires Sound(p)
    ensures r != []
  {
    if |p.nibs| % 2 == 1
    then [p.mark + (p.nibs[0] as int)] + Packed(p.nibs[1..])
    else [p.mark] + Packed(p.nibs)
  }

  /** The one form in which the trie writes a path. */
  function Clean(nibs: Nibbles, isLeaf: bool): (p: Path)
    ensures Sound(p)
  {
    Path(nibs, (if isLeaf then 0x20 else 0) + (if |nibs| % 2 == 1 then 0x10 else 0))
  }

  lemma {:induction false} NibblesOfPacked(nibs: Nibbles)
    requires |nibs| % 2 == 0
    ensures NibblesOf(Packed(nibs)) == nibs
  {
    if nibs != [] {
      NibblesOfPacked(nibs[2..]);
      assert Packed(nibs)[0] == Joined(nibs[0], nibs[1]);
      assert Packed(nibs)[1..] == Packed(nibs[2..]);
      assert nibs == [nibs[0], nibs[1]] + nibs[2..];
    }
  }

  lemma {:induction false} PackedNibblesOf(bytes: Bytes)
    ensures Packed(NibblesOf(bytes)) == bytes
  {
    if bytes != [] {
      PackedNibblesOf(bytes[1..]);
      assert NibblesOf(bytes)[2..] == NibblesOf(bytes[1..]);
    }
  }

  lemma {:induction false} NibblesOfParity(bytes: Bytes)
    ensures |NibblesOf(bytes)| % 2 == 0
  {
  }

  /** Taking a stored prefix apart loses nothing. */
  lemma {:induction false} RawOfParsed(prefix: Bytes)
    requires prefix != []
    ensures Sound(Parsed(prefix)) && Raw(Parsed(prefix)) == prefix
  {
    PackedNibblesOf(prefix[1..]);
    NibblesOfParity(prefix[1..]);
    assert prefix == [prefix[0]] + prefix[1..];
    if prefix[0] / 16 % 2 == 1 {
      assert PathNibs(prefix)[1..] == NibblesOf(prefix[1..]);
    }
  }

  /** And a path written out is read back as it was. */
  lemma {:induction false} ParsedOfRaw(p: Path)
    requires Sound(p)
    ensures Parsed(Raw(p)) == p
    ensures LeafFlag(Raw(p)) == (p.mark / 32 % 2 == 1)
  {
    if |p.nibs| % 2 == 1 {
      NibblesOfPacked(p.nibs[1..]);
      assert Raw(p)[1..] == Packed(p.nibs[1..]);
      assert p.nibs == [p.nibs[0]] + p.nibs[1..];
      FlagArithmetic(p.mark, p.nibs[0]);
    } else {
      NibblesOfPacked(p.nibs);
      assert Raw(p)[1..] == Packed(p.nibs);
    }
  }

  lemma FlagArithmetic(mark: Byte, nib: Nibble)
    requires mark % 16 == 0
    ensures mark + (nib as int) < 256
    ensures (mark + (nib as int)) / 16 == mark / 16 && (mark + (nib as int)) % 16 == nib
    ensures (mark + (nib as int)) / 32 == mark / 32
  {
  }

  /** The hex-prefix round trip: encoding then reading back gives the path and the node kind. */
  lemma {:induction false} PathRoundTrip(nibs: Nibbles, isLeaf: bool)
    ensures EncodedPath(nibs, isLeaf) == Raw(Clean(nibs, isLeaf))
    ensures PathNibs(EncodedPath(nibs, isLeaf)) == nibs
    ensures LeafFlag(EncodedPath(nibs, isLeaf)) == isLeaf
    ensures Parsed(EncodedPath(nibs, isLeaf)) == Clean(nibs, isLeaf)
  {
    ParsedOfRaw(Clean(nibs, isLeaf));
  }

  lemma {:induction false} NibblesOfInjective(a: Bytes, b: Bytes)
    requires NibblesOf(a) == NibblesOf(b)
    ensures a == b
  {
    PackedNibblesOf(a);
    PackedNibblesOf(b);
  }

  // ----- the bytes of a path

  /** Appendix C of the Ethereum Yellow Paper: mark and parity, then any odd nibble, then the rest in pairs. */
  ghost predicate IsHexPrefix(nibs: Nibbles, isLeaf: bool, r: Bytes) {
    var odd := |nibs| % 2;
    && |r| == 1 + |nibs| / 2
    && r[0] / 16 == (if isLeaf then 2 else 0) + odd
    && r[0] % 16 == (if odd == 1 then nibs[0] else 0)
    && forall i :: 1 <= i < |r| ==> r[i] / 16 == nibs[odd + 2 * i - 2] && r[i] % 16 == nibs[odd + 2 * i - 1]
  }

  lemma {:induction false} NibblesAt(bytes: Bytes, i: nat)
    requires i < |bytes|
    ensures NibblesOf(bytes)[2 * i] == bytes[i] / 16 && NibblesOf(bytes)[2 * i + 1] == bytes[i] % 16
  {
    if i > 0 { NibblesAt(bytes[1..], i - 1); }
  }

  lemma {:induction false} PackedAt(nibs: Nibbles, i: nat)
    requires |nibs| % 2 == 0 && 2 * i + 1 < |nibs|
    ensures Packed(nibs)[i] / 16 == nibs[2 * i] && Packed(nibs)[i] % 16 == nibs[2 * i + 1]
  {
    NibblesOfPacked(nibs);
    NibblesAt(Packed(nibs), i);
  }

  lemma {:induction false} EncodedPathIs(nibs: Nibbles, isLeaf: bool)
    ensures IsHexPrefix(nibs, isLeaf, EncodedPath(nibs, isLeaf))
  {
    var r, odd := EncodedPath(nibs, isLeaf), |nibs| % 2;
    var pairs := nibs[odd..];
    forall i | 1 <= i < |r| ensures r[i] / 16 == nibs[odd + 2 * i - 2] && r[i] % 16 == nibs[odd + 2 * i - 1] {
      assert r[i] == Packed(pairs)[i - 1];
      PackedAt(pairs, i - 1);
    }
  }

  lemma {:induction false} SameHexPrefix(nibs: Nibbles, isLeaf: bool, r: Bytes, t: Bytes)
    requires IsHexPrefix(nibs, isLeaf, r) && IsHexPrefix(nibs, isLeaf, t)
    ensures r == t
  {
    forall i | 0 <= i < |r| ensures r[i] == t[i] {
      assert r[i] / 16 == t[i] / 16 && r[i] % 16 == t[i] % 16;
    }
  }

  /** The bytes in which the trie writes a path are those of the standard, and no others are. */
  lemma {:induction false} PathBytesExactly(nibs: Nibbles, isLeaf: bool, r: Bytes)
    ensures r == Raw(Clean(nibs, isLeaf)) <==> IsHexPrefix(nibs, isLeaf, r)
  {
    PathRoundTrip(nibs, isLeaf);
    EncodedPathIs(nibs, isLeaf);
    if IsHexPrefix(nibs, isLeaf, r) { SameHexPrefix(nibs, isLeaf, r, EncodedPath(nibs, isLeaf)); }
  }

  /** What is read from any prefix, whatever its mark: only the parity bit decides where the nibbles begin. */
  lemma {:induction false} PathNibsAt(prefix: Bytes)
    requires prefix != []
    ensures var nibs, odd := PathNibs(prefix), prefix[0] / 16 % 2;
            && |nibs| == odd + 2 * (|prefix| - 1)
            && (odd == 1 ==> nibs[0] == prefix[0] % 16)
            && forall i :: 1 <= i < |prefix| ==>
                 nibs[odd + 2 * i - 2] == prefix[i] / 16 && nibs[odd + 2 * i - 1] == prefix[i] % 16
  {
    var nibs, odd := PathNibs(prefix), prefix[0] / 16 % 2;
    forall i | 1 <= i < |prefix|
      ensures nibs[odd + 2 * i - 2] == prefix[i] / 16 && nibs[odd + 2 * i - 1] == prefix[i] % 16
    {
      NibblesAt(prefix[1..], i - 1);
    }
  }

  // ----- common prefixes

  /** Length of the longest common prefix. */
  function CommonLen(a: Nibbles, b: Nibbles): (n: nat)
    ensures n <= |a| && n <= |b|
    ensures a[..n] == b[..n]
    ensures n < |a| && n < |b| ==> a[n] != b[n]
  {
    if a != [] && b != [] && a[0] == b[0] then 1 + CommonLen(a[1..], b[1..]) else 0
  }

  /** The two ensures above leave one answer only. */
  lemma {:induction false} CommonLenUnique(a: Nibbles, b: Nibbles, n: nat)
    requires n <= |a| && n <= |b| && a[..n] == b[..n]
    requires n < |a| && n < |b| ==> a[n] != b[n]
    ensures n == CommonLen(a, b)
  {
    if n > 0 {
      assert a[1..][..n - 1] == a[..n][1..] == b[..n][1..] == b[1..][..n - 1];
      assert a[0] == a[..n][0] == b[0];
      CommonLenUnique(a[1..], b[1..], n - 1);
    }
  }

  method ToNibs(slice: Bytes) returns (result: Nibbles)
    ensures result == NibblesOf(slice)
  {
    result := [];
    for i := 0 to |slice|
      invariant result + NibblesOf(slice[i..]) == NibblesOf(slice)
    {
      assert slice[i..][1..] == slice[i + 1..];
      result := result + [slice[i] / 16];
      result := result + [slice[i] % 16];
    }
  }

  lemma {:induction false} PackedFrom(nibs: Nibbles, i: nat)
    requires |nibs| % 2 == 0 && i % 2 == 0 && i + 2 <= |nibs|
    ensures Packed(nibs[i..]) == [Joined(nibs[i], nibs[i + 1])] + Packed(nibs[i + 2..])
  {
    assert nibs[i..][2..] == nibs[i + 2..];
  }

  /** The pairs of nibbles, after the prefix byte. */
  method AfterPrefix(prefix: Byte, nibs: Nibbles) returns (result: Bytes)
    requires |nibs| % 2 == 0
    ensures result == [prefix] + Packed(nibs)
  {
    result := [prefix];
    var i := 0;
    while i + 2 <= |nibs|
      invariant 0 <= i <= |nibs| && i % 2 == 0
      invariant result + Packed(nibs[i..]) == [prefix] + Packed(nibs)
    {
      PackedFrom(nibs, i);
      Regroup(result, [Joined(nibs[i], nibs[i + 1])], Packed(nibs[i + 2..]));
      result := result + [Joined(nibs[i], nibs[i + 1])];
      i := i + 2;
    }
  }

  method ToEncodedPath(path: Nibbles, isLeaf: bool) returns (result: Bytes)
    ensures result == EncodedPath(path, isLeaf) && IsHexPrefix(path, isLeaf, result)
  {
    EncodedPathIs(path, isLeaf);
    var prefix: int := if isLeaf then 0x20 else 0;
    var nibs := path;
    if |nibs| % 2 != 0 {
      prefix := prefix + 0x10 + nibs[0];
      nibs := nibs[1..];
    }
    result := AfterPrefix(prefix, nibs);
  }

  method PrefixNibs(prefix: Bytes) returns (result: Nibbles)
    requires prefix != []
    ensures result == PathNibs(prefix)
  {
    var tail := prefix[1..];
    result := [];
    if prefix[0] / 16 % 2 == 1 {
      result := [prefix[0] % 16];
    }
    ghost var head := result;
    for i := 0 to |tail|
      invariant result + NibblesOf(tail[i..]) == head + NibblesOf(tail)
    {
      assert tail[i..][1..] == tail[i + 1..];
      result := result + [tail[i] / 16];
      result := result + [tail[i] % 16];
    }
    assert result == head + NibblesOf(tail);
  }

  method Lcp(a: Nibbles, b: Nibbles) returns (n: nat)
    ensures n == CommonLen(a, b)
  {
    var i := 0;
    while i < |a| && i < |b|
      invariant 0 <= i <= |a| && i <= |b|
      invariant a[..i] == b[..i]
    {
      if a[i] != b[i] {
        CommonLenUnique(a, b, i);
        return i;
      }
      i := i + 1;
    }
    CommonLenUnique(a, b, i);
    return i;
  }
}
