/** The decoder itself, which fills a fixed buffer in place. */
module BlobDecoder {
  import opened Prelude
  import opened Blob

  /** The buffer holds the first `k` rounds, and zeros after them. */
  ghost predicate Filled(b: Bytes, k: nat, output: Bytes)
    requires |b| == BLOB_DATA_CAPACITY && k <= ROUNDS && |output| == MAX_BLOB_DATA_SIZE
  {
    && (forall r, t :: 0 <= r < k && 0 <= t < 127 && 127 * r + t >= 4 ==> output[127 * r + t - 4] == StreamByte(b, r, t))
    && forall o :: 127 * k - 4 <= o < |output| && 0 <= o ==> output[o] == 0
  }

  lemma {:induction false} FilledGrows(b: Bytes, r: nat, was: Bytes, now: Bytes)
    requires |b| == BLOB_DATA_CAPACITY && r < ROUNDS && |was| == |now| == MAX_BLOB_DATA_SIZE && Filled(b, r, was)
    requires forall o :: 0 <= o < |was| && !(127 * r <= o + 4 < 127 * r + 127) ==> now[o] == was[o]
    requires forall t :: 0 <= t < 127 && 127 * r + t >= 4 ==> now[127 * r + t - 4] == StreamByte(b, r, t)
    ensures Filled(b, r + 1, now)
  {
    forall i, t | 0 <= i < r + 1 && 0 <= t < 127 && 127 * i + t >= 4 ensures now[127 * i + t - 4] == StreamByte(b, i, t) {
      if i < r { assert was[127 * i + t - 4] == StreamByte(b, i, t); }
    }
  }

  /** The bodies of the elements of round `r` from `first` up to `e` were copied, and nothing else changed. */
  ghost predicate Bodies(b: Bytes, r: nat, first: nat, e: nat, was: Bytes, now: Bytes)
    requires |b| == BLOB_DATA_CAPACITY && r < ROUNDS && e <= 4
  {
    && |now| == |was| == MAX_BLOB_DATA_SIZE
    && forall o :: 0 <= o < |now| ==>
         var t := o + 4 - 127 * r;
         now[o] == if 32 * first <= t < 32 * e && t % 32 != 31 then b[128 * r + t + 1] else was[o]
  }

  /** The three bytes between the bodies were put in their places. */
  ghost predicate Gaps(opos: nat, heads: seq<Byte>, was: Bytes, now: Bytes)
    requires |heads| == 4
  {
    && |now| == |was| && 96 <= opos <= |was|
    && now[opos - 96] == X(heads[0], heads[1])
    && now[opos - 64] == Y(heads[1], heads[3])
    && now[opos - 32] == X(heads[2], heads[3])
    && forall o :: 0 <= o < |now| && o != opos - 96 && o != opos - 64 && o != opos - 32 ==> now[o] == was[o]
  }

  ghost predicate HeadsOf(b: Bytes, r: nat, heads: seq<Byte>)
    requires |b| == BLOB_DATA_CAPACITY && r < ROUNDS
  {
    |heads| == 4 && heads == [b[128 * r], b[128 * r + 32], b[128 * r + 64], b[128 * r + 96]]
  }

  /** Bodies and gaps make up the round: every byte of it is written, and no other. */
  lemma {:induction false} RoundIsWhole(b: Bytes, r: nat, first: nat, heads: seq<Byte>, was: Bytes, mid: Bytes, now: Bytes)
    requires |b| == BLOB_DATA_CAPACITY && r < ROUNDS && first <= 1
    requires Bodies(b, r, first, 4, was, mid) && HeadsOf(b, r, heads) && Gaps(127 * r + 123, heads, mid, now)
    requires first == 1 ==> r == 0 && forall o :: 0 <= o < 27 ==> was[o] == b[o + 5]
    ensures forall o :: 0 <= o < |was| && !(127 * r <= o + 4 < 127 * r + 127) ==> now[o] == was[o]
    ensures forall t :: 0 <= t < 127 && 127 * r + t >= 4 ==> now[127 * r + t - 4] == StreamByte(b, r, t)
  {
    forall t | 0 <= t < 127 && 127 * r + t >= 4 ensures now[127 * r + t - 4] == StreamByte(b, r, t) {
      assert t % 32 == 31 <==> t == 31 || t == 63 || t == 95;
    }
  }

  // ----- buffers of any length

  /** The blob that a buffer amounts to: cut off, or filled up with zeros. */
  function Padded(b: Bytes): (p: Bytes)
    ensures |p| == BLOB_DATA_CAPACITY
    ensures forall i :: 0 <= i < |p| ==> p[i] == if i < |b| then b[i] else 0
  {
    seq(BLOB_DATA_CAPACITY, i requires 0 <= i => if i < |b| then b[i] else 0)
  }

  /** How reading field elements ends; reading past the end of the buffer is a panic. */
  datatype Scanned = AllGood | Refused | Panicked

  function Element(b: Bytes, ipos: nat): Scanned {
    if ipos >= |b| then Panicked
    else if b[ipos] >= 64 then Refused
    else if ipos + 32 > |b| then Panicked
    else AllGood
  }

  /** The elements from the `i`-th up to the `k`-th, until one is not good. */
  function Scan(b: Bytes, i: nat, k: nat): Scanned
    decreases k - i
  {
    if i >= k then AllGood
    else
      var x := Element(b, 32 * i);
      if x.AllGood? then Scan(b, i + 1, k) else x
  }

  lemma {:induction false} ScanOn(b: Bytes, i: nat, j: nat, k: nat)
    requires i <= j <= k
    ensures Scan(b, i, k) == if Scan(b, i, j).AllGood? then Scan(b, j, k) else Scan(b, i, j)
    decreases j - i
  {
    if i < j { ScanOn(b, i + 1, j, k); }
  }

  /** Reading runs off the end exactly if the end comes first and all heads before it are good. */
  lemma {:induction false} ScanPanicsIff(b: Bytes, i: nat, k: nat)
    requires i <= |b| / 32
    ensures var e := |b| / 32;
            Scan(b, i, k).Panicked? <==>
              e < k && (forall j :: i <= j < e ==> b[32 * j] < 64) && !(32 * e < |b| && b[32 * e] >= 64)
    decreases k - i
  {
    var e := |b| / 32;
    if i < k && i < e { ScanPanicsIff(b, i + 1, k); }
  }

  lemma {:induction false} ScanGood(b: Bytes, i: nat, k: nat)
    requires 1 <= i <= k <= 4 * ROUNDS
    ensures Scan(b, i, k).AllGood? ==> (i < k ==> 32 * k <= |b|) && forall j :: i <= j < k ==> Padded(b)[32 * j] < 64
    ensures Scan(b, i, k).Refused? ==> exists j :: i <= j < k && Padded(b)[32 * j] >= 64
    decreases k - i
  {
    if i < k {
      ScanGood(b, i + 1, k);
      if Element(b, 32 * i).Refused? { assert Padded(b)[32 * i] >= 64; }
    }
  }

  /** Refuses a head with a top bit set; else copies the body. */
  method DecodeFieldElement(b: Bytes, opos: nat, ipos: nat, output: array<Byte>)
    returns (r: Scanned, head: Byte, opos': nat, ipos': nat)
    requires opos + 31 <= output.Length
    modifies output
    ensures r == Element(b, ipos)
    ensures r.AllGood? ==> head == b[ipos] && opos' == opos + 32 && ipos' == ipos + 32
    ensures forall o :: 0 <= o < output.Length ==>
              output[o] == if r.AllGood? && opos <= o < opos + 31 then b[ipos + 1 + o - opos] else old(output[o])
  {
    head, opos', ipos' := 0, opos, ipos;
    if ipos >= |b| { return Panicked, head, opos', ipos'; }
    if b[ipos] >= 64 { return Refused, head, opos', ipos'; }
    if ipos + 32 > |b| { return Panicked, head, opos', ipos'; }
    forall o | opos <= o < opos + 31 { output[o] := b[ipos + 1 + o - opos]; }
    r, head, opos', ipos' := AllGood, b[ipos], opos + 32, ipos + 32;
  }

  /** Puts the three bytes between the bodies in their places. */
  method ReassembleBytes(pos: nat, heads: seq<Byte>, output: array<Byte>) returns (opos: nat)
    requires |heads| == 4 && 97 <= pos <= output.Length + 1
    modifies output
    ensures opos == pos - 1
    ensures Gaps(opos, heads, old(output[..]), output[..])
  {
    opos := pos - 1;
    output[opos - 32] := X(heads[2], heads[3]);
    output[opos - 64] := Y(heads[1], heads[3]);
    output[opos - 96] := X(heads[0], heads[1]);
  }

  lemma {:induction false} BodiesMore(b: Bytes, r: nat, first: nat, e: nat, was: Bytes, mid: Bytes, now: Bytes)
    requires r < ROUNDS && first <= e < 4 && Bodies(Padded(b), r, first, e, was, mid) && |now| == |mid|
    requires 128 * r + 32 * e + 32 <= |b|
    requires forall o :: 0 <= o < |now| ==>
               now[o] == if 127 * r + 32 * e - 4 <= o < 127 * r + 32 * e + 27 then b[r + o + 5] else mid[o]
    ensures Bodies(Padded(b), r, first, e + 1, was, now)
  {
  }

  /** The elements of round `r` from `first` on: their heads are collected and their bodies copied. */
  method DecodeElements(b: Bytes, r: nat, first: nat, before: seq<Byte>, output: array<Byte>)
    returns (res: Scanned, heads: seq<Byte>, opos: nat, ipos: nat)
    requires r < ROUNDS && output.Length == MAX_BLOB_DATA_SIZE
    requires |before| == first <= 4 && (r == 0 ==> first > 0)
    requires forall e :: 0 <= e < first ==> before[e] == Padded(b)[128 * r + 32 * e]
    modifies output
    ensures res == Scan(b, 4 * r + first, 4 * r + 4)
    ensures res.AllGood? ==> opos == 127 * r + 124 && ipos == 128 * (r + 1)
    ensures res.AllGood? ==> HeadsOf(Padded(b), r, heads) && Bodies(Padded(b), r, first, 4, old(output[..]), output[..])
  {
    heads := before;
    opos, ipos := 127 * r + 32 * first - 4, 128 * r + 32 * first;
    var e := first;
    while e < 4
      invariant first <= e <= 4 && |heads| == e && opos == 127 * r + 32 * e - 4 && ipos == 128 * r + 32 * e
      invariant Scan(b, 4 * r + first, 4 * r + 4) == Scan(b, 4 * r + e, 4 * r + 4)
      invariant forall i :: 0 <= i < e ==> heads[i] == Padded(b)[128 * r + 32 * i]
      invariant Bodies(Padded(b), r, first, e, old(output[..]), output[..])
    {
      var head;
      ghost var mid := output[..];
      res, head, opos, ipos := DecodeFieldElement(b, opos, ipos, output);
      if !res.AllGood? { return; }
      BodiesMore(b, r, first, e, old(output[..]), mid, output[..]);
      heads := heads + [head];
      e := e + 1;
    }
    res := AllGood;
  }

  /** A full round after `r` others. */
  method DecodeRound(b: Bytes, r: nat, output: array<Byte>) returns (res: Scanned, opos: nat, ipos: nat)
    requires 0 < r < ROUNDS && output.Length == MAX_BLOB_DATA_SIZE && Filled(Padded(b), r, output[..])
    modifies output
    ensures res == Scan(b, 4 * r, 4 * r + 4)
    ensures res.AllGood? ==> Filled(Padded(b), r + 1, output[..]) && opos == 127 * (r + 1) - 4 && ipos == 128 * (r + 1)
  {
    ghost var was := output[..];
    var heads;
    res, heads, opos, ipos := DecodeElements(b, r, 0, [], output);
    if res.AllGood? {
      ghost var mid := output[..];
      opos := ReassembleBytes(opos, heads, output);
      RoundIsWhole(Padded(b), r, 0, heads, was, mid, output[..]);
      FilledGrows(Padded(b), r, was, output[..]);
    }
  }

  /** The first round, whose first element also holds the version and the length. */
  method DecodeFirstRound(b: Bytes, output: array<Byte>) returns (res: Scanned, opos: nat, ipos: nat)
    requires |b| >= 32 && output.Length == MAX_BLOB_DATA_SIZE && Filled(Padded(b), 0, output[..])
    modifies output
    ensures res == Scan(b, 1, 4)
    ensures res.AllGood? ==> Filled(Padded(b), 1, output[..]) && opos == 123 && ipos == 128
  {
    ghost var before := output[..];
    forall o | 0 <= o < 27 { output[o] := b[o + 5]; }
    ghost var was := output[..];
    var heads;
    res, heads, opos, ipos := DecodeElements(b, 0, 1, [b[0]], output);
    if res.AllGood? {
      ghost var mid := output[..];
      opos := ReassembleBytes(opos, heads, output);
      RoundIsWhole(Padded(b), 0, 1, heads, was, mid, output[..]);
      FilledGrows(Padded(b), 0, before, output[..]);
    }
  }

  /** The rounds that the declared length calls for; the others are not read. */
  method DecodeRounds(b: Bytes, n: nat, output: array<Byte>) returns (res: Scanned, ipos: nat)
    requires |b| >= 32 && output.Length == MAX_BLOB_DATA_SIZE && Filled(Padded(b), 0, output[..])
    requires n <= MAX_BLOB_DATA_SIZE
    modifies output
    ensures res == Scan(b, 1, 4 * RoundsFor(n))
    ensures res.AllGood? ==> Filled(Padded(b), RoundsFor(n), output[..]) && ipos == 128 * RoundsFor(n)
  {
    var opos;
    res, opos, ipos := DecodeFirstRound(b, output);
    ScanOn(b, 1, 4, 4 * RoundsFor(n));
    if !res.AllGood? { return; }
    ghost var k := 1;
    for round := 1 to ROUNDS
      invariant res.AllGood? && 1 <= k <= round && k <= RoundsFor(n) && opos == 127 * k - 4 && ipos == 128 * k
      invariant Filled(Padded(b), k, output[..]) && Scan(b, 1, 4 * RoundsFor(n)) == Scan(b, 4 * k, 4 * RoundsFor(n))
      invariant k == round || opos >= n
    {
      if opos < n {
        ScanOn(b, 4 * k, 4 * k + 4, 4 * RoundsFor(n));
        res, opos, ipos := DecodeRound(b, round, output);
        if !res.AllGood? { return; }
        k := k + 1;
      }
    }
  }

  method ZeroFrom(s: Bytes, i: nat) returns (zero: bool)
    requires i <= |s|
    ensures zero <==> forall j :: i <= j < |s| ==> s[j] == 0
  {
    for j := i to |s|
      invariant forall m :: i <= m < j ==> s[m] == 0
    {
      if s[j] != 0 { return false; }
    }
    zero := true;
  }

  lemma {:induction false} FilledPayload(b: Bytes, n: nat, output: Bytes)
    requires |b| == BLOB_DATA_CAPACITY && |output| == MAX_BLOB_DATA_SIZE && n <= MAX_BLOB_DATA_SIZE
    requires Filled(b, RoundsFor(n), output)
    ensures output[..n] == Payload(b, n)
  {
    forall o | 0 <= o < n ensures output[o] == Payload(b, n)[o] {
      var r, t := (o + 4) / 127, (o + 4) % 127;
      assert output[127 * r + t - 4] == StreamByte(b, r, t);
    }
  }

  lemma {:induction false} FilledPadding(b: Bytes, n: nat, output: Bytes)
    requires |b| == BLOB_DATA_CAPACITY && |output| == MAX_BLOB_DATA_SIZE && n <= MAX_BLOB_DATA_SIZE
    requires Filled(b, RoundsFor(n), output)
    ensures PaddingIsZero(b, n, RoundsFor(n)) <==> forall o :: n <= o < |output| ==> output[o] == 0
  {
    var k := RoundsFor(n);
    if PaddingIsZero(b, n, k) {
      forall o | n <= o < |output| ensures output[o] == 0 {
        if o < 127 * k - 4 {
          var r, t := (o + 4) / 127, (o + 4) % 127;
          assert StreamByte(b, r, t) == 0 && output[127 * r + t - 4] == StreamByte(b, r, t);
        }
      }
    }
    if forall o :: n <= o < |output| ==> output[o] == 0 {
      forall r, t | 0 <= r < k && 0 <= t < 127 && 127 * r + t >= n + 4 ensures StreamByte(b, r, t) == 0 {
        assert output[127 * r + t - 4] == StreamByte(b, r, t);
      }
    }
  }

  // ----- the whole buffer

  /** The buffer ends before everything that is looked at has been read. */
  predicate Panics(b: Bytes) {
    var n := DeclaredLength(Padded(b));
    if |b| < 2 then true
    else if b[1] != 0 then false
    else if |b| < 5 then true
    else if n > MAX_BLOB_DATA_SIZE then false
    else |b| < 32 || Scan(b, 1, 4 * RoundsFor(n)).Panicked?
  }

  lemma {:induction false} WholeBlobsDoNotPanic(b: Bytes)
    requires |b| >= BLOB_DATA_CAPACITY
    ensures !Panics(b) && (|b| == BLOB_DATA_CAPACITY ==> Padded(b) == b)
  {
    var n := DeclaredLength(Padded(b));
    if n <= MAX_BLOB_DATA_SIZE { ScanPanicsIff(b, 1, 4 * RoundsFor(n)); }
  }

  /** What a refused element, or a good run of them, says about the padded blob. */
  lemma {:induction false} ScanDecides(b: Bytes, k: nat)
    requires 1 <= k <= ROUNDS
    ensures Scan(b, 1, 4 * k).AllGood? ==> HeadsFit(Padded(b), k) && 128 * k <= |b|
    ensures Scan(b, 1, 4 * k).Refused? ==> !HeadsFit(Padded(b), k)
  {
    ScanGood(b, 1, 4 * k);
  }

  lemma {:induction false} RestOfPadded(b: Bytes, k: nat)
    requires 128 * k <= |b| && k <= ROUNDS
    ensures RestIsZero(Padded(b), k) <==> forall i :: 128 * k <= i < |b| && i < BLOB_DATA_CAPACITY ==> b[i] == 0
  {
    if RestIsZero(Padded(b), k) {
      forall i | 128 * k <= i < |b| && i < BLOB_DATA_CAPACITY ensures b[i] == 0 { assert Padded(b)[i] == 0; }
    }
  }

  /** `decode_blob_data`, for a buffer of any length; `None` is a panic. */
  method DecodeBlobData(b: Bytes) returns (data: Option<Bytes>)
    ensures data == if Panics(b) then None else Some(Decoded(Padded(b)))
  {
    if |b| < 2 { return None; }
    if b[1] != 0 { return Some([]); }
    if |b| < 5 { return None; }
    var n := b[2] as int * 65536 + b[3] as int * 256 + b[4] as int;
    if n > MAX_BLOB_DATA_SIZE { return Some([]); }
    if |b| < 32 { return None; }
    var output := new Byte[MAX_BLOB_DATA_SIZE](_ => 0);
    var res, ipos := DecodeRounds(b, n, output);
    ScanDecides(b, RoundsFor(n));
    if res.Panicked? { return None; }
    if res.Refused? { return Some([]); }
    FilledPadding(Padded(b), n, output[..]);
    FilledPayload(Padded(b), n, output[..]);
    RestOfPadded(b, RoundsFor(n));
    var clear := ZeroFrom(output[..], n);
    if !clear { return Some([]); }
    clear := ZeroFrom(if |b| < BLOB_DATA_CAPACITY then b else b[..BLOB_DATA_CAPACITY], ipos);
    if !clear { return Some([]); }
    data := Some(output[..n]);
  }
}
