/**
 The blob codec: 1024 rounds, each of which packs 127 bytes into four field elements of 32 bytes. The
 first byte of an element carries six bits only; the bytes between the elements' bodies are spread
 over those. Sizes are those of the section "Parameters" of EIP-4844.
 */
module Blob {
  import opened Prelude

  const FIELD_ELEMENTS: nat := 4096
  const ELEMENT_BYTES: nat := 32
  const ROUNDS: nat := 1024
  const BLOB_DATA_CAPACITY: nat := FIELD_ELEMENTS * ELEMENT_BYTES
  const STREAM_BYTES: nat := 127 * ROUNDS
  const MAX_BLOB_DATA_SIZE: nat := STREAM_BYTES - 4

  // ----- the encoding

  /** Version, three bytes of length, the data, and zeros up to the capacity. */
  function Stream(data: Bytes): (s: Bytes)
    requires |data| <= MAX_BLOB_DATA_SIZE
    ensures |s| == STREAM_BYTES
  {
    [0, |data| / 65536, |data| / 256 % 256, |data| % 256] + data + Zeros(MAX_BLOB_DATA_SIZE - |data|)
  }

  function Zeros(n: nat): (z: Bytes)
    ensures |z| == n && forall i :: 0 <= i < n ==> z[i] == 0
  {
    seq(n, i => 0)
  }

  /** The first byte of element `e`: six bits of the three bytes between the bodies. */
  function Head(x: int, y: int, z: int, e: nat): Byte
    requires 0 <= x < 256 && 0 <= y < 256 && 0 <= z < 256
  {
    if e == 0 then x % 64
    else if e == 1 then x / 64 * 16 + y % 16
    else if e == 2 then z % 64
    else z / 64 * 16 + y / 16
  }

  /** Byte `u` of round `r` of the blob. */
  function BlobByte(s: Bytes, r: nat, u: nat): Byte
    requires |s| == STREAM_BYTES && r < ROUNDS && u < 128
  {
    if u % 32 == 0 then Head(s[127 * r + 31], s[127 * r + 63], s[127 * r + 95], u / 32)
    else s[127 * r + u - 1]
  }

  function EncodeStream(s: Bytes): (b: Bytes)
    requires |s| == STREAM_BYTES
    ensures |b| == BLOB_DATA_CAPACITY
  {
    seq(BLOB_DATA_CAPACITY, i requires 0 <= i < BLOB_DATA_CAPACITY => BlobByte(s, i / 128, i % 128))
  }

  function Encode(data: Bytes): (b: Bytes)
    requires |data| <= MAX_BLOB_DATA_SIZE
    ensures |b| == BLOB_DATA_CAPACITY
  {
    EncodeStream(Stream(data))
  }

  // ----- reassembly

  function X(e0: int, e1: int): Byte
    requires 0 <= e0 < 256 && 0 <= e1 < 256
  {
    e0 % 64 + e1 / 16 % 4 * 64
  }

  function Y(e1: int, e3: int): Byte
    requires 0 <= e1 < 256 && 0 <= e3 < 256
  {
    e1 % 16 + e3 % 16 * 16
  }

  /** Byte `t` of round `r` of the stream. */
  function StreamByte(b: Bytes, r: nat, t: nat): Byte
    requires |b| == BLOB_DATA_CAPACITY && r < ROUNDS && t < 127
  {
    if t == 31 then X(b[128 * r], b[128 * r + 32])
    else if t == 63 then Y(b[128 * r + 32], b[128 * r + 96])
    else if t == 95 then X(b[128 * r + 64], b[128 * r + 96])
    else b[128 * r + t + 1]
  }

  /** Two bits and four bits that share a head come apart again. */
  lemma {:induction false} SplitHead(high: int, low: int)
    requires 0 <= high < 4 && 0 <= low < 16
    ensures var h := high * 16 + low; h < 64 && h / 16 == high && h % 16 == low
  {
  }

  lemma {:induction false} XOut(x: int, low: int)
    requires 0 <= x < 256 && 0 <= low < 16
    ensures X(x % 64, x / 64 * 16 + low) == x
  {
    SplitHead(x / 64, low);
  }

  lemma {:induction false} YOut(y: int, high1: int, high3: int)
    requires 0 <= y < 256 && 0 <= high1 < 4 && 0 <= high3 < 4
    ensures Y(high1 * 16 + y % 16, high3 * 16 + y / 16) == y
  {
    SplitHead(high1, y % 16);
    SplitHead(high3, y / 16);
  }

  lemma {:induction false} XOfHeads(x: int, y: int, z: int)
    requires 0 <= x < 256 && 0 <= y < 256 && 0 <= z < 256
    ensures X(Head(x, y, z, 0), Head(x, y, z, 1)) == x
  {
    XOut(x, y % 16);
  }

  lemma {:induction false} YOfHeads(x: int, y: int, z: int)
    requires 0 <= x < 256 && 0 <= y < 256 && 0 <= z < 256
    ensures Y(Head(x, y, z, 1), Head(x, y, z, 3)) == y
  {
    YOut(y, x / 64, z / 64);
  }

  lemma {:induction false} ZOfHeads(x: int, y: int, z: int)
    requires 0 <= x < 256 && 0 <= y < 256 && 0 <= z < 256
    ensures X(Head(x, y, z, 2), Head(x, y, z, 3)) == z
  {
    XOut(z, y / 16);
  }

  lemma {:induction false} XIn(e: int, h: int)
    requires 0 <= e < 64 && 0 <= h < 64
    ensures X(e, h) == e + h / 16 * 64 && X(e, h) % 64 == e && X(e, h) / 64 == h / 16
  {
  }

  lemma {:induction false} YIn(h1: int, h3: int)
    requires 0 <= h1 < 64 && 0 <= h3 < 64
    ensures Y(h1, h3) % 16 == h1 % 16 && Y(h1, h3) / 16 == h3 % 16
  {
  }

  lemma {:induction false} BitsIn(e0: int, e1: int, e2: int, e3: int)
    requires 0 <= e0 < 64 && 0 <= e1 < 64 && 0 <= e2 < 64 && 0 <= e3 < 64
    ensures var x, y, z := X(e0, e1), Y(e1, e3), X(e2, e3);
            Head(x, y, z, 0) == e0 && Head(x, y, z, 1) == e1 && Head(x, y, z, 2) == e2 && Head(x, y, z, 3) == e3
  {
    XIn(e0, e1);
    YIn(e1, e3);
    XIn(e2, e3);
  }

  lemma {:induction false} EncodedAt(s: Bytes, r: nat, u: nat)
    requires |s| == STREAM_BYTES && r < ROUNDS && u < 128
    ensures EncodeStream(s)[128 * r + u] == BlobByte(s, r, u)
  {
    var i := 128 * r + u;
    assert i / 128 == r && i % 128 == u;
  }

  lemma {:induction false} GapsOfEncoded(s: Bytes, r: nat)
    requires |s| == STREAM_BYTES && r < ROUNDS
    ensures var b := EncodeStream(s);
            && StreamByte(b, r, 31) == s[127 * r + 31]
            && StreamByte(b, r, 63) == s[127 * r + 63]
            && StreamByte(b, r, 95) == s[127 * r + 95]
  {
    EncodedAt(s, r, 0);
    EncodedAt(s, r, 32);
    EncodedAt(s, r, 64);
    EncodedAt(s, r, 96);
    XOfHeads(s[127 * r + 31], s[127 * r + 63], s[127 * r + 95]);
    YOfHeads(s[127 * r + 31], s[127 * r + 63], s[127 * r + 95]);
    ZOfHeads(s[127 * r + 31], s[127 * r + 63], s[127 * r + 95]);
  }

  /** Every byte of the stream comes back. */
  lemma {:induction false} StreamOfEncoded(s: Bytes, r: nat, t: nat)
    requires |s| == STREAM_BYTES && r < ROUNDS && t < 127
    ensures StreamByte(EncodeStream(s), r, t) == s[127 * r + t]
  {
    if t == 31 || t == 63 || t == 95 { GapsOfEncoded(s, r); } else { EncodedAt(s, r, t + 1); }
  }

  lemma {:induction false} HeadsOfStream(b: Bytes, s: Bytes, r: nat)
    requires |b| == BLOB_DATA_CAPACITY && |s| == STREAM_BYTES && r < ROUNDS
    requires b[128 * r] < 64 && b[128 * r + 32] < 64 && b[128 * r + 64] < 64 && b[128 * r + 96] < 64
    requires forall t :: 0 <= t < 127 ==> s[127 * r + t] == StreamByte(b, r, t)
    ensures BlobByte(s, r, 0) == b[128 * r] && BlobByte(s, r, 32) == b[128 * r + 32]
    ensures BlobByte(s, r, 64) == b[128 * r + 64] && BlobByte(s, r, 96) == b[128 * r + 96]
  {
    assert s[127 * r + 31] == StreamByte(b, r, 31);
    assert s[127 * r + 63] == StreamByte(b, r, 63);
    assert s[127 * r + 95] == StreamByte(b, r, 95);
    BitsIn(b[128 * r], b[128 * r + 32], b[128 * r + 64], b[128 * r + 96]);
  }

  /** A round whose element heads are below 64 is the encoding of what it decodes to. */
  lemma {:induction false} EncodedOfStream(b: Bytes, s: Bytes, r: nat, u: nat)
    requires |b| == BLOB_DATA_CAPACITY && |s| == STREAM_BYTES && r < ROUNDS && u < 128
    requires b[128 * r] < 64 && b[128 * r + 32] < 64 && b[128 * r + 64] < 64 && b[128 * r + 96] < 64
    requires forall t :: 0 <= t < 127 ==> s[127 * r + t] == StreamByte(b, r, t)
    ensures BlobByte(s, r, u) == b[128 * r + u]
  {
    if u % 32 != 0 {
      assert s[127 * r + (u - 1)] == StreamByte(b, r, u - 1);
    } else {
      HeadsOfStream(b, s, r);
      assert u == 0 || u == 32 || u == 64 || u == 96;
    }
  }

  // ----- what is decoded

  function DeclaredLength(b: Bytes): nat
    requires |b| == BLOB_DATA_CAPACITY
  {
    b[2] as int * 65536 + b[3] as int * 256 + b[4] as int
  }

  /** The rounds that hold `n` bytes of data; the first is always read. */
  function RoundsFor(n: nat): (k: nat)
    requires n <= MAX_BLOB_DATA_SIZE
    ensures 1 <= k <= ROUNDS && n + 4 <= 127 * k && (k > 1 ==> 127 * (k - 1) < n + 4)
  {
    if n <= 123 then 1 else (n + 130) / 127
  }

  /** All elements but the very first are checked to be below the field's size in their top bits. */
  predicate HeadsFit(b: Bytes, k: nat)
    requires |b| == BLOB_DATA_CAPACITY && k <= ROUNDS
  {
    forall i :: 1 <= i < 4 * k ==> b[32 * i] < 64
  }

  predicate PaddingIsZero(b: Bytes, n: nat, k: nat)
    requires |b| == BLOB_DATA_CAPACITY && k <= ROUNDS
  {
    forall r, t :: 0 <= r < k && 0 <= t < 127 && 127 * r + t >= n + 4 ==> StreamByte(b, r, t) == 0
  }

  predicate RestIsZero(b: Bytes, k: nat)
    requires |b| == BLOB_DATA_CAPACITY
  {
    forall i :: 128 * k <= i < |b| ==> b[i] == 0
  }

  predicate Acceptable(b: Bytes)
    requires |b| == BLOB_DATA_CAPACITY
  {
    var n := DeclaredLength(b);
    && b[1] == 0 && n <= MAX_BLOB_DATA_SIZE
    && var k := RoundsFor(n);
       HeadsFit(b, k) && PaddingIsZero(b, n, k) && RestIsZero(b, k)
  }

  function Payload(b: Bytes, n: nat): (d: Bytes)
    requires |b| == BLOB_DATA_CAPACITY && n <= MAX_BLOB_DATA_SIZE
    ensures |d| == n
  {
    seq(n, o requires 0 <= o < n => StreamByte(b, (o + 4) / 127, (o + 4) % 127))
  }

  /** The decoded data; empty for every blob that is refused. */
  function Decoded(b: Bytes): (d: Bytes)
    requires |b| == BLOB_DATA_CAPACITY
    ensures |d| <= MAX_BLOB_DATA_SIZE
    ensures Acceptable(b) ==> |d| == DeclaredLength(b)
  {
    if Acceptable(b) then Payload(b, DeclaredLength(b)) else []
  }

  lemma {:induction false} PayloadAt(b: Bytes, n: nat, r: nat, t: nat)
    requires |b| == BLOB_DATA_CAPACITY && n <= MAX_BLOB_DATA_SIZE && t < 127 && 4 <= 127 * r + t < n + 4
    ensures r < ROUNDS && Payload(b, n)[127 * r + t - 4] == StreamByte(b, r, t)
  {
    var o := 127 * r + t - 4;
    assert (o + 4) / 127 == r && (o + 4) % 127 == t;
  }

  // ----- decoding undoes encoding

  lemma {:induction false} EncodedHeader(data: Bytes)
    requires |data| <= MAX_BLOB_DATA_SIZE
    ensures Encode(data)[1] == 0 && DeclaredLength(Encode(data)) == |data|
  {
    var s := Stream(data);
    EncodedAt(s, 0, 1);
    EncodedAt(s, 0, 2);
    EncodedAt(s, 0, 3);
    EncodedAt(s, 0, 4);
  }

  /** Where byte `t` of round `r` of the stream is found in the blob; three bytes of a round are spread over heads. */
  ghost predicate Placed(b: Bytes, r: nat, t: nat, x: Byte)
    requires |b| == 131072 && r < 1024 && t < 127
  {
    if t == 31 then b[128 * r] == x as int % 64 && b[128 * r + 32] / 16 == x as int / 64
    else if t == 63 then b[128 * r + 32] % 16 == x as int % 16 && b[128 * r + 96] % 16 == x as int / 16
    else if t == 95 then b[128 * r + 64] == x as int % 64 && b[128 * r + 96] / 16 == x as int / 64
    else b[128 * r + t + 1] == x
  }

  lemma {:induction false} HeadsPlaced(s: Bytes, r: nat)
    requires |s| == STREAM_BYTES && r < ROUNDS
    ensures var b := EncodeStream(s);
            Placed(b, r, 31, s[127 * r + 31]) && Placed(b, r, 63, s[127 * r + 63]) && Placed(b, r, 95, s[127 * r + 95])
  {
    EncodedAt(s, r, 0);
    EncodedAt(s, r, 32);
    EncodedAt(s, r, 64);
    EncodedAt(s, r, 96);
    var x, y, z := s[127 * r + 31], s[127 * r + 63], s[127 * r + 95];
    SplitHead(x as int / 64, y as int % 16);
    SplitHead(z as int / 64, y as int / 16);
  }

  lemma {:induction false} PlacedInStream(s: Bytes, r: nat, t: nat)
    requires |s| == STREAM_BYTES && r < ROUNDS && t < 127
    ensures Placed(EncodeStream(s), r, t, s[127 * r + t])
  {
    if t == 31 || t == 63 || t == 95 {
      HeadsPlaced(s, r);
    } else {
      EncodedAt(s, r, t + 1);
      assert (t + 1) % 32 != 0;
    }
  }

  /**
   The bytes of a blob: version, length and data, each byte of it after four of header where the layout puts it.
   Zeros fill the rest, as decoding demands.
   */
  lemma {:induction false} EncodedBytes(data: Bytes)
    requires |data| <= 130044
    ensures var b := Encode(data);
            && |b| == 131072 && b[1] == 0 && b[2] as int * 65536 + b[3] as int * 256 + b[4] as int == |data|
            && forall o :: 0 <= o < |data| ==> Placed(b, (o + 4) / 127, (o + 4) % 127, data[o])
  {
    EncodedHeader(data);
    var s := Stream(data);
    forall o | 0 <= o < |data| ensures Placed(Encode(data), (o + 4) / 127, (o + 4) % 127, data[o]) {
      PlacedInStream(s, (o + 4) / 127, (o + 4) % 127);
      assert s[o + 4] == data[o];
    }
  }

  lemma {:induction false} EncodedHeadsFit(s: Bytes, i: nat)
    requires |s| == STREAM_BYTES && 32 * i < BLOB_DATA_CAPACITY
    ensures EncodeStream(s)[32 * i] < 64
  {
    EncodedAt(s, i / 4, 32 * (i % 4));
  }

  lemma {:induction false} EncodedRest(data: Bytes, k: nat, i: nat)
    requires |data| <= MAX_BLOB_DATA_SIZE && |data| + 4 <= 127 * k && 128 * k <= i < BLOB_DATA_CAPACITY
    ensures Encode(data)[i] == 0
  {
    var s, r, u := Stream(data), i / 128, i % 128;
    assert forall j :: 127 * r <= j < |s| ==> s[j] == 0;
    EncodedAt(s, r, u);
  }

  lemma {:induction false} EncodedIsAcceptable(data: Bytes)
    requires |data| <= MAX_BLOB_DATA_SIZE
    ensures Acceptable(Encode(data))
  {
    var s, b, k := Stream(data), Encode(data), RoundsFor(|data|);
    EncodedHeader(data);
    assert HeadsFit(b, k) by {
      forall i | 1 <= i < 4 * k ensures b[32 * i] < 64 { EncodedHeadsFit(s, i); }
    }
    assert PaddingIsZero(b, |data|, k) by {
      forall r, t | 0 <= r < k && 0 <= t < 127 && 127 * r + t >= |data| + 4 ensures StreamByte(b, r, t) == 0 {
        StreamOfEncoded(s, r, t);
      }
    }
    assert RestIsZero(b, k) by {
      forall i | 128 * k <= i < |b| ensures b[i] == 0 { EncodedRest(data, k, i); }
    }
  }

  lemma {:induction false} EncodedPayload(data: Bytes, o: nat)
    requires o < |data| <= MAX_BLOB_DATA_SIZE
    ensures Payload(Encode(data), |data|)[o] == data[o]
  {
    StreamOfEncoded(Stream(data), (o + 4) / 127, (o + 4) % 127);
    assert Stream(data)[o + 4] == data[o];
  }

  /** Decoding the encoding of any data gives that data. */
  lemma {:induction false} DecodeEncode(data: Bytes)
    requires |data| <= MAX_BLOB_DATA_SIZE
    ensures Decoded(Encode(data)) == data
  {
    EncodedIsAcceptable(data);
    EncodedHeader(data);
    assert Payload(Encode(data), |data|) == data by {
      forall o | 0 <= o < |data| ensures Payload(Encode(data), |data|)[o] == data[o] { EncodedPayload(data, o); }
    }
  }

  // ----- encoding undoes decoding

  lemma {:induction false} LengthBytes(x: int, y: int, z: int)
    requires 0 <= x < 256 && 0 <= y < 256 && 0 <= z < 256
    ensures var n := x * 65536 + y * 256 + z; n / 65536 == x && n / 256 % 256 == y && n % 256 == z
  {
  }

  lemma {:induction false} StreamAt(data: Bytes, i: nat)
    requires |data| <= MAX_BLOB_DATA_SIZE && 4 <= i < STREAM_BYTES
    ensures Stream(data)[i] == if i < |data| + 4 then data[i - 4] else 0
  {
  }

  lemma {:induction false} HeaderOfStream(b: Bytes, d: Bytes, t: nat)
    requires |b| == BLOB_DATA_CAPACITY && b[1] == 0 && |d| == DeclaredLength(b) <= MAX_BLOB_DATA_SIZE && t < 4
    ensures Stream(d)[t] == b[t + 1]
  {
    LengthBytes(b[2], b[3], b[4]);
  }

  lemma {:induction false} StreamOfPayload(b: Bytes, n: nat, r: nat, t: nat)
    requires |b| == BLOB_DATA_CAPACITY && b[1] == 0 && n == DeclaredLength(b) <= MAX_BLOB_DATA_SIZE
    requires r < ROUNDS && t < 127 && (127 * r + t >= n + 4 ==> StreamByte(b, r, t) == 0)
    ensures Stream(Payload(b, n))[127 * r + t] == StreamByte(b, r, t)
  {
    var d := Payload(b, n);
    if 127 * r + t < 4 {
      HeaderOfStream(b, d, t);
    } else {
      StreamAt(d, 127 * r + t);
      if 127 * r + t < n + 4 { PayloadAt(b, n, r, t); }
    }
  }

  lemma {:induction false} StreamOfDecoded(b: Bytes, r: nat, t: nat)
    requires |b| == BLOB_DATA_CAPACITY && Acceptable(b) && r < RoundsFor(DeclaredLength(b)) && t < 127
    ensures Stream(Decoded(b))[127 * r + t] == StreamByte(b, r, t)
  {
    StreamOfPayload(b, DeclaredLength(b), r, t);
  }

  lemma {:induction false} RoundOfDecoded(b: Bytes, r: nat, u: nat)
    requires |b| == BLOB_DATA_CAPACITY && Acceptable(b) && b[0] < 64
    requires r < RoundsFor(DeclaredLength(b)) && u < 128
    ensures Encode(Decoded(b))[128 * r + u] == b[128 * r + u]
  {
    var s := Stream(Decoded(b));
    forall t | 0 <= t < 127 ensures s[127 * r + t] == StreamByte(b, r, t) { StreamOfDecoded(b, r, t); }
    assert r > 0 ==> b[32 * (4 * r)] < 64;
    assert b[32 * (4 * r + 1)] < 64 && b[32 * (4 * r + 2)] < 64 && b[32 * (4 * r + 3)] < 64;
    EncodedOfStream(b, s, r, u);
    EncodedAt(s, r, u);
  }

  /** An accepted blob is the encoding of what it decodes to. */
  lemma {:induction false} EncodeDecode(b: Bytes)
    requires |b| == BLOB_DATA_CAPACITY && Acceptable(b) && b[0] < 64
    ensures Encode(Decoded(b)) == b
  {
    var c, k := Encode(Decoded(b)), RoundsFor(DeclaredLength(b));
    forall i | 0 <= i < |b| ensures c[i] == b[i] {
      if i < 128 * k { RoundOfDecoded(b, i / 128, i % 128); } else { EncodedRest(Decoded(b), k, i); }
    }
  }

  // ----- the unchecked bits

  function Masked(b: Bytes): (c: Bytes)
    requires |b| == BLOB_DATA_CAPACITY
    ensures |c| == |b| && c[0] < 64 && forall i :: 1 <= i < |b| ==> c[i] == b[i]
  {
    b[0 := b[0] as int % 64]
  }

  lemma {:induction false} MaskedByte(b: Bytes, r: nat, t: nat)
    requires |b| == BLOB_DATA_CAPACITY && r < ROUNDS && t < 127
    ensures StreamByte(Masked(b), r, t) == StreamByte(b, r, t)
  {
    assert X(Masked(b)[0], b[32]) == X(b[0], b[32]);
  }

  lemma {:induction false} MaskedIsAcceptable(b: Bytes)
    requires |b| == BLOB_DATA_CAPACITY
    ensures Acceptable(Masked(b)) <==> Acceptable(b)
  {
    var c := Masked(b);
    forall r, t | 0 <= r < ROUNDS && 0 <= t < 127 ensures StreamByte(c, r, t) == StreamByte(b, r, t) { MaskedByte(b, r, t); }
  }

  lemma {:induction false} MaskedPayload(b: Bytes, n: nat)
    requires |b| == BLOB_DATA_CAPACITY && n <= MAX_BLOB_DATA_SIZE
    ensures Payload(Masked(b), n) == Payload(b, n)
  {
    forall o | 0 <= o < n ensures Payload(Masked(b), n)[o] == Payload(b, n)[o] {
      MaskedByte(b, (o + 4) / 127, (o + 4) % 127);
    }
  }

  lemma {:induction false} TopBitsIgnored(b: Bytes)
    requires |b| == BLOB_DATA_CAPACITY
    ensures Decoded(Masked(b)) == Decoded(b)
  {
    MaskedIsAcceptable(b);
    if Acceptable(b) { MaskedPayload(b, DeclaredLength(b)); }
  }

  /** Data is decoded from exactly one blob, up to the two top bits of the first byte. */
  lemma {:induction false} OneBlobPerData(b: Bytes, data: Bytes)
    requires |b| == BLOB_DATA_CAPACITY && 0 < |data| <= MAX_BLOB_DATA_SIZE
    ensures Decoded(b) == data <==> Masked(b) == Encode(data)
  {
    TopBitsIgnored(b);
    if Decoded(b) == data { EncodeDecode(Masked(b)); }
    if Masked(b) == Encode(data) { DecodeEncode(data); }
  }

  /** Two blobs, one payload: the encoding of a single byte, with and without a top bit of the first byte. */
  lemma {:induction false} TwoBlobsOnePayload() returns (b: Bytes, c: Bytes)
    ensures |b| == |c| == BLOB_DATA_CAPACITY && b != c
    ensures Decoded(b) == Decoded(c) == [1]
  {
    b := Encode([1]);
    EncodedHeadsFit(Stream([1]), 0);
    c := b[0 := b[0] + 64];
    assert c[0] != b[0] && c[0] % 64 == b[0];
    assert Masked(b) == b && Masked(c) == b;
    OneBlobPerData(b, [1]);
    OneBlobPerData(c, [1]);
  }
}
